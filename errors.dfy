/** The error classes every model operation throws, and the Option and
    Result shapes that carry them in place of exceptions. */
module Errors {

  datatype Option<+T> = None | Some(value: T)
  {
    function GetOr(default: T): T
    {
      if Some? then value else default
    }
  }

  /** What a thrown error is. The first five are the ExpressError class
      and its four subclasses; the last two are errors the code raises
      without meaning to, which the application's generic handler reports
      with status 500 because they carry no status of their own. */
  datatype Error =
    | ExpressError(message: string, status: int)
    | NotFoundError(message: string)
    | UnauthorizedError(message: string)
    | BadRequestError(message: string)
    | ForbiddenError(message: string)
    | TypeError         // a JavaScript TypeError thrown by the code itself
    | DatabaseError     // the database rejected the statement
  {
    /** `err instanceof ExpressError` */
    predicate IsExpressError()
    {
      !TypeError? && !DatabaseError?
    }

    /** The `status` field of an ExpressError. */
    function Status(): (code: int)
      requires IsExpressError()
      ensures NotFoundError? ==> code == 404
      ensures UnauthorizedError? ==> code == 401
      ensures BadRequestError? ==> code == 400
      ensures ForbiddenError? ==> code == 403
      ensures ExpressError? ==> code == status
    {
      match this
      case ExpressError(_, s) => s
      case NotFoundError(_) => 404
      case UnauthorizedError(_) => 401
      case BadRequestError(_) => 400
      case ForbiddenError(_) => 403
    }
  }

  datatype Result<+T> = Ok(value: T) | Err(error: Error)

  /** `new ExpressError(message, status)` */
  function NewExpressError(message: string, status: int): (e: Error)
    ensures e.IsExpressError() && e.message == message && e.Status() == status
  {
    ExpressError(message, status)
  }

  /** `new NotFoundError(message?)`; an omitted message is "Not Found". */
  function NewNotFoundError(message: Option<string> := None): (e: Error)
    ensures e.NotFoundError? && e.Status() == 404
    ensures message.Some? ==> e.message == message.value
    ensures message.None? ==> e.message == "Not Found"
  {
    NotFoundError(message.GetOr("Not Found"))
  }

  /** `new UnauthorizedError(message?)`; an omitted message is "Unauthorized". */
  function NewUnauthorizedError(message: Option<string> := None): (e: Error)
    ensures e.UnauthorizedError? && e.Status() == 401
    ensures message.Some? ==> e.message == message.value
    ensures message.None? ==> e.message == "Unauthorized"
  {
    UnauthorizedError(message.GetOr("Unauthorized"))
  }

  /** `new BadRequestError(message?)`; an omitted message is "Bad Request". */
  function NewBadRequestError(message: Option<string> := None): (e: Error)
    ensures e.BadRequestError? && e.Status() == 400
    ensures message.Some? ==> e.message == message.value
    ensures message.None? ==> e.message == "Bad Request"
  {
    BadRequestError(message.GetOr("Bad Request"))
  }

  /** `new ForbiddenError(message?)`; an omitted message is "Bad Request",
      the same default as BadRequestError, not "Forbidden". */
  function NewForbiddenError(message: Option<string> := None): (e: Error)
    ensures e.ForbiddenError? && e.Status() == 403
    ensures message.Some? ==> e.message == message.value
    ensures message.None? ==> e.message == "Bad Request"
  {
    ForbiddenError(message.GetOr("Bad Request"))
  }

  /** The four subclasses are told apart by status alone: distinct kinds
      never share a status code, and each code is a 4xx client error. */
  lemma SubclassStatusesDistinct(a: Error, b: Error)
    requires a.IsExpressError() && !a.ExpressError?
    requires b.IsExpressError() && !b.ExpressError?
    ensures 400 <= a.Status() < 500
    ensures a.Status() == b.Status() <==>
      (a.NotFoundError? && b.NotFoundError?) || (a.UnauthorizedError? && b.UnauthorizedError?) ||
      (a.BadRequestError? && b.BadRequestError?) || (a.ForbiddenError? && b.ForbiddenError?)
  {
  }
}
