# Pomodoro back end: the data layer in Dafny

This project models the data layer of a Pomodoro to-do application's
Express back end. It covers:

- the helper that builds the SET clause of a partial SQL UPDATE;
- the error classes every model operation throws;
- the three model classes over their tables: tasks, lists and the directed
  friend-request table.

Each database table is an in-memory value. Tasks and lists are a map from
id to row, plus the next id the serial sequence hands out. Friends are a map
from the (sender, receiver) pair to the request status. A statement that
changes a table is a method on a class that holds it; a read-only query is a
function of the table. A thrown error is an `Err` carrying an `Errors.Error`.

Files:

- `errors.dfy` (module `Errors`): the ExpressError family, plus the two
  errors the code raises without meaning to (a JavaScript TypeError and a
  database rejection); `Option` and `Result`.
- `sql.dfy` (module `Sql`): `sqlForPartialUpdate`, and the lemmas that fix
  where each clause sits in the SET text and which value each placeholder
  names.
- `text.dfy` (module `Text`): decimal rendering of numbers as JavaScript
  template literals produce it, `join`, and lexicographic string order.
- `ordering.dfy` (module `Ordering`): turns a set of ids or usernames into
  an ascending sequence.
- `tasks.dfy` (module `Tasks`), `lists.dfy` (module `Lists`) and
  `friends.dfy` (module `Friends`): the three models.

A data object passed to add or update is a sequence of typed properties with
distinct names, in the order `Object.keys` walks them.

## Model

| member | source | states |
|---|---|---|
| Errors.NewExpressError | backend/expressError.js:2-8 | the error keeps exactly the message and status it was built with |
| Errors.NewNotFoundError | backend/expressError.js:10-15 | status 404; an omitted message becomes "Not Found", a given one is kept |
| Errors.NewUnauthorizedError | backend/expressError.js:17-22 | status 401; an omitted message becomes "Unauthorized", a given one is kept |
| Errors.NewBadRequestError | backend/expressError.js:24-29 | status 400; an omitted message becomes "Bad Request", a given one is kept |
| Errors.NewForbiddenError | backend/expressError.js:31-36 | status 403; an omitted message becomes "Bad Request", not "Forbidden" |
| Errors.Error.Status | backend/expressError.js:2-36 | each subclass carries its fixed status; a plain ExpressError carries the status it was given |
| Errors.SubclassStatusesDistinct | backend/expressError.js:10-36 | every subclass status is a 4xx code, and two subclass errors share a status exactly when they are the same kind |
| Sql.PartialUpdate | backend/helpers/sql.js:14-28 | fails with BadRequestError "No data" exactly when the data is empty; otherwise `values` has one entry per key, holding that key's value in key order |
| Sql.ClauseForKey | backend/helpers/sql.js:22-25 | the clause for the k-th key is `"column"=$(k+1)` and sits at the k-th slot of setCols, after the earlier clauses and their ", " separators; every clause but the last is followed by ", " |
| Sql.ClauseCount | backend/helpers/sql.js:22-25 | n keys give n clauses and exactly n-1 separators: the length of setCols is the clause lengths plus 2(n-1) |
| Sql.PlaceholderNamesValue | backend/helpers/sql.js:22-26 | the number after the `$` in the k-th clause parses back to k+1, and `values[k]` is the k-th key's value, so each placeholder names the right value |
| Sql.ColumnResolution | backend/helpers/sql.js:22 | the column is `jsToSql[key]` when that mapping is present and non-empty; otherwise it is the key itself |
| Tasks.PatchedFields | backend/models/task.js:76-101 | writing a data object to a row sets each named property to its value and leaves the id and every other property unchanged |
| Tasks.InsertedDefaults | backend/routes/tasks.test.js:30-45 | a new task keeps its id, title and listId; expectedPomodoros, completedCycles and completedStatus default to 1, 0 and false when the data leaves them out |
| Tasks.AddCheck | backend/models/task.js:21-25 | add passes its checks exactly when the data is non-empty and has a truthy listId; empty data fails "No data" before a missing listId fails "No listId" |
| Tasks.AddAsWritten | backend/models/task.js:21-34 | as written, add never succeeds: after the checks pass, it fails with a TypeError |
| Tasks.AddAsWrittenFailsOnValidTask | backend/models/task.test.js:27-45 | the task from the add test passes every check, yet the code as written throws a TypeError on it; the corrected insert yields the row the test expects |
| Tasks.UpdateStatement | backend/models/task.js:76-101 | the k-th SET clause names the column that the k-th property is stored in, with placeholder k+1, and that placeholder binds the property's value; the WHERE id placeholder `$(values.length+1)` is past every SET placeholder |
| Tasks.Get | backend/models/task.js:152-170 | returns the row stored under the id; fails with NotFound "No id: <id>" exactly when there is none |
| Tasks.GetTasksByList | backend/models/task.js:182-201 | returns exactly the tasks whose listId matches, each once, in strictly ascending id over a table that stores each row under its own id; fails with NotFound "No list: <listId>" exactly when no task does |
| Tasks.TasksInOrdered | backend/models/task.js:182-201 | walking the row ids in ascending order lists the matching tasks in strictly ascending id order, so no task appears twice |
| Tasks.TaskTable.Add | backend/models/task.js:21-53 | empty data fails "No data" and data without a truthy listId fails "No listId", both leaving the table alone; otherwise the given properties, over the defaults, are inserted under the next id and returned |
| Tasks.TaskTable.Update | backend/models/task.js:67-108 | a non-integer id fails "No id provided", then empty data fails "No data", then a missing row fails NotFound "Task not found"; otherwise only that row changes, and only in the named properties |
| Tasks.TaskTable.IncrementCycles | backend/models/task.js:120-140 | raises that row's completedCycles by exactly one and changes nothing else; an unknown id fails with NotFound "No task: <id>" |
| Tasks.IncrementsAccumulate | backend/models/task.js:120-140 | n increments raise completedCycles by exactly n and touch no other property |
| Tasks.TaskTable.Remove | backend/models/task.js:212-225 | deletes exactly that row; an unknown id fails with NotFound "No id: <id>" |
| Tasks.TaskTable.RemoveGroup | backend/models/task.js:238-253 | a missing or empty id array fails "No ids provided"; otherwise every row whose id is listed is deleted, and it fails with NotFound exactly when no listed id had a row |
| Tasks.WithoutIdsExact | backend/models/task.js:238-253 | after the bulk delete, a row remains exactly when it existed and its id was not listed; remaining rows are unchanged, and get fails for every listed id |
| Lists.PatchedFields | backend/models/list.js:93-130 | writing a data object to a list sets each named property and leaves the id and every other property unchanged |
| Lists.WithoutUsernameExact | backend/models/list.js:26-35 | deleting the username removes that property only and keeps the others, still distinct; an object without a username is left as it is |
| Lists.WithoutUsernameAt | backend/models/list.js:30-35 | deleting the username at position i cuts out exactly that position, so the remaining properties keep the order `Object.keys` walks them in |
| Lists.InsertedRow | backend/models/list.js:59-79 | the inserted list carries the next id, the given properties and the username bound after them |
| Lists.InsertedDefaults | backend/models/list.test.js:108-118 | properties the data leaves out take the defaults: title "To-Do List", a focus list, created now, no expiry |
| Lists.AddCheck | backend/models/list.js:26-38 | add passes its checks exactly when the username is truthy and some other property remains; a missing username fails "No username" before a username-only object fails "No data" |
| Lists.AddAsWritten | backend/models/list.js:26-57 | as written, add never succeeds: after the checks pass, it fails with a TypeError |
| Lists.AddAsWrittenFailsOnValidList | backend/models/list.test.js:27-44 | the list from the add test passes every check, yet the code as written throws a TypeError on it; the corrected insert yields the row the test expects |
| Lists.ListTable.Add | backend/models/list.js:22-80 | without a truthy username it fails "No username" and touches nothing; otherwise it deletes the username from the caller's object, fails "No data" if nothing is left, and else inserts and returns the list under the next id, owned by that username |
| Lists.UpdateStatement | backend/models/list.js:99-123 | the k-th SET clause names the column that the k-th property is stored in, with placeholder k+1, which binds that property's value |
| Lists.ListTable.Update | backend/models/list.js:93-130 | empty data fails "No data", then a missing row fails NotFound "List not found"; otherwise only the named properties of that row change, and the row is returned without its username |
| Lists.Get | backend/models/list.js:142-163 | returns the list stored under the id, without its username; fails with NotFound "No list at: <id>" exactly when there is none |
| Lists.FindAll | backend/models/list.js:172-187 | every list exactly once, each without its username, in strictly ascending id order |
| Lists.ListTable.Remove | backend/models/list.js:199-210 | deletes exactly that row; with no row it throws a TypeError and changes nothing |
| Lists.ListTable.RemoveExpired | backend/models/list.js:227-244 | a falsy id fails "No id", then a missing expiredAt fails "No expiredAt property"; an expiry before now deletes that list (a TypeError when there is none), and an expiry at or after now changes nothing |
| Friends.Get | backend/models/friend.js:46-63 | returns the edge in exactly the asked direction with its status; fails NotFound "No friendship found" exactly when there is none |
| Friends.FindAllRequestBySender | backend/models/friend.js:75-91 | lists user u exactly when the edge (sender, u) exists with the asked status (pending by default), once each, in ascending username order |
| Friends.FindAllRequestByReceiver | backend/models/friend.js:102-117 | lists user u exactly when the edge (u, receiver) exists with the asked status (pending by default), once each, in ascending username order |
| Friends.SenderReceiverMirror | backend/models/friend.js:75-117 | r appears in s's sent listing exactly when s appears in r's received listing, for either status |
| Friends.FindAllFriends | backend/models/friend.js:127-136 | every entry is accepted, and u appears exactly when an accepted edge joins the user and u in either direction; pending edges never appear |
| Friends.FriendsSentFirst | backend/models/friend.js:127-136 | the friend list is the accepted requests the user sent, then the accepted requests the user received: the first k rows (k the number sent) are receivers of the user's accepted edges, the rest senders of accepted edges into the user |
| Friends.FriendListedTwice | backend/models/friend.js:127-136 | a user appears twice in the friend list exactly when the friendship is accepted in both directions |
| Friends.FriendsListedAtMostTwice | backend/models/friend.js:127-136 | no user appears three times in a friend list |
| Friends.FriendTable.Request | backend/models/friend.js:21-37 | an empty sender or receiver fails "Needs a sender or receiver"; an existing edge is refused by the database (an assumed composite key on the pair); otherwise the edge (sender, receiver) is added with the given status, pending by default, and returned |
| Friends.RequestObservable | backend/models/friend.js:21-117 | after a request, get finds the new edge in its own direction only, and both users' listings for that status show it |
| Friends.FriendTable.AcceptRequest | backend/models/friend.js:147-162 | an existing (sender, receiver) edge becomes accepted and no other edge changes; an absent edge changes nothing and yields nothing, with no error |
| Friends.AcceptObservable | backend/models/friend.js:75-162 | accepting a pending request takes it off both pending listings and puts each user on the other's friend list; unless the reverse request was already accepted, they were not listed as friends before |
| Friends.FriendTable.Remove | backend/models/friend.js:175-187 | deletes exactly the (sender, receiver) edge; an absent edge fails NotFound "<sender> to <receiver> request not found" |
| Friends.RemoveObservable | backend/models/friend.js:46-187 | after remove, get in that direction fails "No friendship found", and neither user's listing shows the edge |

## Findings

| source | as written | input that shows it | evidently intended | confidence | as-written member | corrected member |
|---|---|---|---|---|---|---|
| backend/models/task.js:6 | `add` calls `sqlForPartialInsert`, which backend/helpers/sql.js:32 does not export, so every call that passes the checks throws a TypeError | `Task.add({title: 'example todo', listId: 1, expectedPomodoros: 3})` | insert the row with defaults 1/0/false for the omitted columns and return it | high, not executed | Tasks.AddAsWrittenFailsOnValidTask | Tasks.TaskTable.Add |
| backend/models/list.js:11 | `add` calls the same missing `sqlForPartialInsert`, so every call that passes the checks throws a TypeError, after it has already deleted the caller's username | `List.add({username: 'u1', title: 'new list', listType: false, expiredAt: ...})` | insert the list owned by that username and return it | high, not executed | Lists.AddAsWrittenFailsOnValidList | Lists.ListTable.Add |

## Left out

- The insert statements: `sqlForPartialInsert` does not exist, so add models the row that the tests expect, not any INSERT text. Each listed property is written over the column defaults.
- Tasks.InsertedDefaults: the tasks schema is not part of this model. A task created without a title gets no title (SQL NULL); that is an assumption.
- Lists.InsertedDefaults: the lists schema is not part of this model. The defaults come from the fixture row created with only a username: title "To-Do List", listType true, expiredAt null, and a creation time, taken here to be `now`.
- Lists.ListTable.Add: `new Date(data.expiredAt)` is the identity here, because timestamps are integers; date parsing is not modelled.
- Lists.ListTable.Update: the code puts `id` into the SQL text itself rather than binding it. The model takes an integer id and does not model what SQL text a non-numeric id would produce.
- Lists.ListTable.Remove: the sequence reset after a successful delete (`ALTER SEQUENCE ... RESTART`) is not modelled. nextId stays as it was.
- Lists.ListTable.RemoveExpired: when the delete fails, the handler calls BadRequestError without `new`. That call itself throws a TypeError, so the failure is a TypeError rather than the intended message.
- Friends.FriendTable.Request: the friends schema is not part of this model. The model assumes (sender, receiver) is the table's composite key, so a second request in the same direction fails with a bare DatabaseError; the database's message is left out. The model test backend/models/friend.test.js:30 conflicts with that assumption: it requests ('u1', 'u2') after backend/models/_testCommon.js:65 has seeded that edge, and it expects success. Under the model that call fails.
- Sql.ColumnResolution: jsToSql is a plain map without inherited properties. In JavaScript, `jsToSql[colName]` also finds what the object inherits from Object.prototype, so a data key such as "constructor" or "toString" with no mapping of its own would put the text of that inherited function into the SET clause; the model passes such a key through unchanged. None of the property names tasks and lists pass is such a key.
- Tasks.TaskTable.IncrementCycles, Tasks.IncrementsAccumulate: ids and completed_cycles are unbounded integers here. They are assumed to be 4-byte integer columns (removeGroup casts its ids with `$1::int[]`, backend/models/task.js:246), so the database would fail with "integer out of range" once `completed_cycles + 1` passes 2^31-1, and the model does not; no increment is ever refused.
- Tasks.Get, Tasks.GetTasksByList, Tasks.TaskTable.Update, Tasks.TaskTable.Remove, Lists.Get, Lists.ListTable.Update, Lists.ListTable.Remove: an id argument beyond the database's integer range makes the database raise an error. The model reports the same "not found" outcome as for any other missing id.
- Tasks.TaskTable.RemoveGroup: one element of the id array beyond the integer range makes the whole `DELETE ... WHERE id = ANY($1::int[])` fail and delete nothing. The model deletes the in-range matches and succeeds when there is one.
- Tasks.TaskTable.Add, Tasks.TaskTable.Update, Lists.ListTable.Add, Lists.ListTable.Remove, Lists.ListTable.RemoveExpired: the foreign keys tasks.list_id → lists and lists.username → users are not modelled. Add and update accept any truthy listId or username, and removing a list does not look at the tasks that reference it (no cascade and no refusal).
- Friend listings: the profile columns joined in from the users table (avatar, first and last name) are dropped. A listing row is the other user and the status. The foreign keys to users are not modelled; every edge is assumed to name existing users.
- Row order: queries without ORDER BY (getTasksByList and the friend listings) return rows in an order the database leaves open. The model fixes ascending id or username order.
- Falsy arguments: missing usernames are the empty string, missing expiry times are `None`, and a non-array argument, or an undefined or non-integer id, is `None`. JavaScript values of other types are not modelled.
- Tasks.TaskTable.Update: a null id is not modelled. `+null` is 0, an integer, so the source does not refuse it with "No id provided"; it goes on to "No data" for empty data, and otherwise binds null, matches no row and fails NotFound "Task not found".
- Logging: the `console.log` calls in Task.update, List.add and List.findAll are not modelled; they change no result.
- The friend routes pass the URL's `:username` as the receiver of acceptRequest and remove. The methods take (sender, receiver) in that order; the routing itself is not modelled.
- Express routing, authentication middleware, schema validation, the HTTP error handler, the user model, token signing, configuration, seeding and the React front end are not part of this model.
- Concurrency and the asynchronous database connection: each operation is one atomic step.
