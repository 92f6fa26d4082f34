/** The List model: the operations on the lists table.

    As for tasks, the table is a map from id to row and `nextId` stands for
    the serial sequence. Timestamps are integers (milliseconds); the current
    time is a parameter wherever the code reads the clock. */
module Lists {
  import opened Errors
  import Sql
  import Text
  import Ordering

  /** A row of the lists table. */
  datatype List = List(
    id: nat,
    title: string,
    username: string,
    listType: bool,
    createdAt: int,
    expiredAt: Option<int>)

  /** What update, get and findAll return: the row without its username. */
  datatype ListSummary = ListSummary(
    id: nat,
    title: string,
    listType: bool,
    createdAt: int,
    expiredAt: Option<int>)

  function Summary(l: List): ListSummary
  {
    ListSummary(l.id, l.title, l.listType, l.createdAt, l.expiredAt)
  }

  /** One property of the data object passed to add or update. */
  datatype ListField =
    | Title(title: string)
    | Username(username: string)
    | ListType(focus: bool)
    | CreatedAt(created: int)
    | ExpiredAt(expires: Option<int>)

  function Name(f: ListField): string
  {
    match f
    case Title(_) => "title"
    case Username(_) => "username"
    case ListType(_) => "listType"
    case CreatedAt(_) => "createdAt"
    case ExpiredAt(_) => "expiredAt"
  }

  /** The lists column the property is stored in. */
  function Column(f: ListField): string
  {
    match f
    case Title(_) => "title"
    case Username(_) => "username"
    case ListType(_) => "list_type"
    case CreatedAt(_) => "created_at"
    case ExpiredAt(_) => "expired_at"
  }

  function Names(data: seq<ListField>): seq<string>
  {
    seq(|data|, i requires 0 <= i < |data| => Name(data[i]))
  }

  predicate DistinctNames(data: seq<ListField>)
  {
    forall i, j :: 0 <= i < j < |data| ==> Name(data[i]) != Name(data[j])
  }

  function Entries(data: seq<ListField>): seq<(string, ListField)>
  {
    seq(|data|, i requires 0 <= i < |data| => (Name(data[i]), data[i]))
  }

  /** The jsToSql map update passes to sqlForPartialUpdate. */
  const UpdateColumns: map<string, string> := map[
    "listType" := "list_type",
    "createdAt" := "created_at",
    "expiredAt" := "expired_at"]

  function Read(l: List, name: string): Option<ListField>
  {
    if name == "title" then Some(Title(l.title))
    else if name == "username" then Some(Username(l.username))
    else if name == "listType" then Some(ListType(l.listType))
    else if name == "createdAt" then Some(CreatedAt(l.createdAt))
    else if name == "expiredAt" then Some(ExpiredAt(l.expiredAt))
    else None
  }

  function With(l: List, f: ListField): List
  {
    match f
    case Title(x) => l.(title := x)
    case Username(x) => l.(username := x)
    case ListType(x) => l.(listType := x)
    case CreatedAt(x) => l.(createdAt := x)
    case ExpiredAt(x) => l.(expiredAt := x)
  }

  function Patched(l: List, data: seq<ListField>): List
    decreases |data|
  {
    if data == [] then l else Patched(With(l, data[0]), data[1..])
  }

  /** One assignment sets its own property and no other. */
  lemma ReadWith(l: List, f: ListField)
    ensures Read(With(l, f), Name(f)) == Some(f)
    ensures forall name :: name != Name(f) ==> Read(With(l, f), name) == Read(l, name)
  {
  }

  /** The names of a data object are its first property's name followed
      by the names of the rest; with distinct names, the first is not among
      the rest. */
  lemma NamesSplit(data: seq<ListField>)
    requires data != [] && DistinctNames(data)
    ensures data == [data[0]] + data[1..]
    ensures Names(data) == [Name(data[0])] + Names(data[1..])
    ensures DistinctNames(data[1..])
    ensures Name(data[0]) !in Names(data[1..])
  {
    var rest := data[1..];
    forall i | 0 <= i < |rest|
      ensures Names(rest)[i] == Names(data)[i + 1] != Name(data[0])
    {
      assert rest[i] == data[i + 1];
    }
    assert Names(data) == [Name(data[0])] + Names(rest);
    forall i, j | 0 <= i < j < |rest|
      ensures Name(rest[i]) != Name(rest[j])
    {
      assert rest[i] == data[i + 1] && rest[j] == data[j + 1];
    }
  }

  /** Writing a data object sets each property it names to its value and
      leaves every other property, and the id, as it was. */
  lemma {:induction false} PatchedFields(l: List, data: seq<ListField>)
    requires DistinctNames(data)
    ensures Patched(l, data).id == l.id
    ensures forall f :: f in data ==> Read(Patched(l, data), Name(f)) == Some(f)
    ensures forall name :: name !in Names(data) ==> Read(Patched(l, data), name) == Read(l, name)
    decreases |data|
  {
    if data != [] {
      var head, rest := data[0], data[1..];
      NamesSplit(data);
      ReadWith(l, head);
      PatchedFields(With(l, head), rest);
      assert Patched(l, data) == Patched(With(l, head), rest);
    }
  }

  /** `data.username`, if the data object has one. */
  function UsernameOf(data: seq<ListField>): Option<string>
  {
    if data == [] then None
    else if data[0].Username? then Some(data[0].username)
    else UsernameOf(data[1..])
  }

  /** `data.username` is truthy: present and not empty. */
  predicate HasUsername(data: seq<ListField>)
  {
    UsernameOf(data).Some? && UsernameOf(data).value != ""
  }

  /** The data object after `delete data.username`. */
  function WithoutUsername(data: seq<ListField>): seq<ListField>
  {
    if data == [] then []
    else if data[0].Username? then WithoutUsername(data[1..])
    else [data[0]] + WithoutUsername(data[1..])
  }

  lemma {:induction false} WithoutUsernameMembers(data: seq<ListField>)
    ensures forall f :: f in WithoutUsername(data) <==> f in data && !f.Username?
  {
    if data != [] {
      WithoutUsernameMembers(data[1..]);
      assert forall f :: f in data <==> f == data[0] || f in data[1..];
    }
  }

  lemma {:induction false} WithoutUsernameKeepsOthers(data: seq<ListField>)
    requires "username" !in Names(data)
    ensures WithoutUsername(data) == data
  {
    if data != [] {
      assert Names(data)[0] == Name(data[0]);
      assert "username" !in Names(data[1..]) by {
        assert forall i :: 0 <= i < |data| - 1 ==> Names(data[1..])[i] == Names(data)[i + 1];
      }
      WithoutUsernameKeepsOthers(data[1..]);
      assert data == [data[0]] + data[1..];
    }
  }

  lemma {:induction false} WithoutUsernameDistinct(data: seq<ListField>)
    requires DistinctNames(data)
    ensures DistinctNames(WithoutUsername(data))
  {
    if data != [] {
      assert DistinctNames(data[1..]);
      WithoutUsernameDistinct(data[1..]);
      if !data[0].Username? {
        var rest := WithoutUsername(data[1..]);
        WithoutUsernameMembers(data[1..]);
        var w := [data[0]] + rest;
        forall i, j | 0 <= i < j < |w|
          ensures Name(w[i]) != Name(w[j])
        {
          if i == 0 {
            assert w[j] in data[1..];
            var k :| 0 <= k < |data| - 1 && data[1..][k] == w[j];
            assert data[k + 1] == w[j];
          } else {
            assert w[i] == rest[i - 1] && w[j] == rest[j - 1];
          }
        }
      }
    }
  }

  /** With distinct names, deleting the username at position i cuts out
      exactly that position: the properties before and after it keep their
      order. */
  lemma {:induction false} WithoutUsernameAt(data: seq<ListField>, i: nat)
    requires DistinctNames(data) && i < |data| && data[i].Username?
    ensures WithoutUsername(data) == data[..i] + data[i + 1..]
  {
    NamesSplit(data);
    if i == 0 {
      assert "username" !in Names(data[1..]) by {
        assert Name(data[0]) == "username";
      }
      WithoutUsernameKeepsOthers(data[1..]);
    } else {
      assert Name(data[0]) != Name(data[i]);
      assert data[1..][i - 1] == data[i];
      WithoutUsernameAt(data[1..], i - 1);
      assert data[..i] == [data[0]] + data[1..][..i - 1];
      assert data[i + 1..] == data[1..][i..];
    }
  }

  /** Deleting the username removes that property and keeps every other
      one; nothing else about the object changes. */
  lemma WithoutUsernameExact(data: seq<ListField>)
    ensures "username" !in Names(WithoutUsername(data))
    ensures forall f :: f in WithoutUsername(data) <==> f in data && !f.Username?
    ensures "username" !in Names(data) ==> WithoutUsername(data) == data
    ensures DistinctNames(data) ==> DistinctNames(WithoutUsername(data))
  {
    WithoutUsernameMembers(data);
    if "username" !in Names(data) {
      WithoutUsernameKeepsOthers(data);
    }
    if DistinctNames(data) {
      WithoutUsernameDistinct(data);
    }
    var w := WithoutUsername(data);
    forall i | 0 <= i < |w|
      ensures Names(w)[i] != "username"
    {
      assert w[i] in w;
    }
  }

  /** The row an insert starts from: the column defaults (title "To-Do List",
      a focus list, created now, no expiry). The username is always given. */
  function NewList(id: nat, now: int): List
  {
    List(id, "To-Do List", "", true, now, None)
  }

  /** The insert's parameters: the data's values, then the username, bound
      to the placeholder after theirs. */
  function InsertParams(data: seq<ListField>, username: string): seq<ListField>
  {
    data + [Username(username)]
  }

  /** The row add inserts. */
  function Inserted(id: nat, now: int, data: seq<ListField>, username: string): List
  {
    Patched(NewList(id, now), InsertParams(data, username))
  }

  lemma InsertParamsDistinct(data: seq<ListField>, username: string)
    requires DistinctNames(data) && "username" !in Names(data)
    ensures DistinctNames(InsertParams(data, username))
  {
    var params := InsertParams(data, username);
    forall i, j | 0 <= i < j < |params|
      ensures Name(params[i]) != Name(params[j])
    {
      if j == |data| {
        assert Names(data)[i] == Name(params[i]);
      }
    }
  }

  /** The new row carries the given id, username and properties. */
  lemma InsertedRow(id: nat, now: int, data: seq<ListField>, username: string)
    requires DistinctNames(data) && "username" !in Names(data)
    ensures Inserted(id, now, data, username).id == id
    ensures Inserted(id, now, data, username).username == username
    ensures forall f :: f in data ==> Read(Inserted(id, now, data, username), Name(f)) == Some(f)
  {
    var params := InsertParams(data, username);
    InsertParamsDistinct(data, username);
    PatchedFields(NewList(id, now), params);
    assert Username(username) in params;
  }

  /** A property neither the data nor the username sets keeps its default. */
  lemma InsertedKeeps(id: nat, now: int, data: seq<ListField>, username: string, name: string)
    requires DistinctNames(data) && "username" !in Names(data)
    requires name != "username" && name !in Names(data)
    ensures Read(Inserted(id, now, data, username), name) == Read(NewList(id, now), name)
  {
    var params := InsertParams(data, username);
    InsertParamsDistinct(data, username);
    PatchedFields(NewList(id, now), params);
    assert Names(params) == Names(data) + ["username"];
  }

  /** The properties the data leaves out take the column defaults. */
  lemma InsertedDefaults(id: nat, now: int, data: seq<ListField>, username: string)
    requires DistinctNames(data) && "username" !in Names(data)
    ensures "title" !in Names(data) ==> Inserted(id, now, data, username).title == "To-Do List"
    ensures "listType" !in Names(data) ==> Inserted(id, now, data, username).listType
    ensures "createdAt" !in Names(data) ==> Inserted(id, now, data, username).createdAt == now
    ensures "expiredAt" !in Names(data) ==> Inserted(id, now, data, username).expiredAt.None?
  {
    if "title" !in Names(data) {
      InsertedKeeps(id, now, data, username, "title");
    }
    if "listType" !in Names(data) {
      InsertedKeeps(id, now, data, username, "listType");
    }
    if "createdAt" !in Names(data) {
      InsertedKeeps(id, now, data, username, "createdAt");
    }
    if "expiredAt" !in Names(data) {
      InsertedKeeps(id, now, data, username, "expiredAt");
    }
  }

  /** The argument checks of List.add, in the order the code makes them:
      the error they raise, if any. The second is made after the username
      is deleted. */
  function AddCheck(data: seq<ListField>): (e: Option<Error>)
    ensures e.None? <==> HasUsername(data) && WithoutUsername(data) != []
    ensures !HasUsername(data) ==> e == Some(BadRequestError("No username"))
    ensures HasUsername(data) && WithoutUsername(data) == [] ==> e == Some(BadRequestError("No data"))
  {
    if !HasUsername(data) then Some(BadRequestError("No username"))
    else if WithoutUsername(data) == [] then Some(BadRequestError("No data"))
    else None
  }

  /** List.add as written: the helpers module exports no
      sqlForPartialInsert, so once the checks pass, calling it throws a
      TypeError and no list is ever inserted. */
  function AddAsWritten(data: seq<ListField>): (r: Result<List>)
    ensures r.Err?
    ensures r.error == TypeError <==> AddCheck(data).None?
  {
    match AddCheck(data)
    case Some(e) => Err(e)
    case None => Err(TypeError)
  }

  /** The row inserted for the add test's list. */
  lemma FixtureInserted(now: int, expires: int)
    ensures
      var rest := [Title("new list"), ListType(false), ExpiredAt(Some(expires))];
      Inserted(7, now, rest, "u1") == List(7, "new list", "u1", false, now, Some(expires))
  {
    var rest := [Title("new list"), ListType(false), ExpiredAt(Some(expires))];
    assert Names(rest) == ["title", "listType", "expiredAt"];
    InsertedRow(7, now, rest, "u1");
    InsertedDefaults(7, now, rest, "u1");
    var l := Inserted(7, now, rest, "u1");
    assert Read(l, "title") == Some(rest[0]);
    assert Read(l, "listType") == Some(rest[1]);
    assert Read(l, "expiredAt") == Some(rest[2]);
  }

  /** The list the add test creates passes every check, yet the code as
      written fails on it; ListTable.Add inserts the row the test expects. */
  lemma AddAsWrittenFailsOnValidList(now: int, expires: int)
    ensures
      var data := [Username("u1"), Title("new list"), ListType(false), ExpiredAt(Some(expires))];
      && AddCheck(data).None?
      && AddAsWritten(data) == Err(TypeError)
      && Inserted(7, now, WithoutUsername(data), "u1") == List(7, "new list", "u1", false, now, Some(expires))
  {
    var data := [Username("u1"), Title("new list"), ListType(false), ExpiredAt(Some(expires))];
    var rest := [Title("new list"), ListType(false), ExpiredAt(Some(expires))];
    assert data[1..] == rest;
    assert "username" !in Names(rest) by {
      assert Names(rest) == ["title", "listType", "expiredAt"];
    }
    WithoutUsernameKeepsOthers(rest);
    assert WithoutUsername(data) == rest;
    FixtureInserted(now, expires);
  }

  /** The caller's data object, which add changes in place. */
  class ListData {
    var fields: seq<ListField>

    constructor (fields: seq<ListField>)
      ensures this.fields == fields
    {
      this.fields := fields;
    }
  }

  /** The jsToSql map update passes renames each property to the column it
      is stored in. */
  lemma UpdateColumnOf(f: ListField)
    ensures Sql.ColumnName(Name(f), UpdateColumns) == Column(f)
  {
    match f
    case Title(_) =>
      assert "title" !in UpdateColumns;
    case _ =>
  }

  /** The SQL that update sends sets, for the k-th property, exactly the
      column Patched writes, bound to that property's value. */
  lemma UpdateStatement(data: seq<ListField>, k: nat)
    requires k < |data|
    ensures Sql.PartialUpdate(Entries(data), UpdateColumns).Ok?
    ensures
      var u := Sql.PartialUpdate(Entries(data), UpdateColumns).value;
      var clause := Sql.Assignments(Sql.Keys(Entries(data)), UpdateColumns)[k];
      && clause == Sql.Assignment(Column(data[k]), k + 1)
      && Sql.PlaceholderOf(clause) == k + 1
      && u.values[Sql.PlaceholderOf(clause) - 1] == data[k]
  {
    var entries := Entries(data);
    assert Sql.Keys(entries)[k] == Name(data[k]);
    UpdateColumnOf(data[k]);
    Sql.PlaceholderNamesValue(entries, UpdateColumns, k);
  }

  /** `SELECT ... WHERE id = $1` */
  function Get(rows: map<nat, List>, id: int): (r: Result<ListSummary>)
    ensures r.Ok? <==> id >= 0 && id in rows
    ensures r.Ok? ==> r.value == Summary(rows[id])
    ensures r.Err? ==> r.error == NotFoundError("No list at: " + Text.IntString(id))
  {
    if id >= 0 && id in rows then Ok(Summary(rows[id]))
    else Err(NotFoundError("No list at: " + Text.IntString(id)))
  }

  /** Each row is stored under its own id (the primary key). */
  predicate Keyed(rows: map<nat, List>)
  {
    forall id :: id in rows ==> rows[id].id == id
  }

  function SummariesOf(rows: map<nat, List>, ids: seq<nat>): (r: seq<ListSummary>)
    requires forall i :: i in ids ==> i in rows
    ensures |r| == |ids|
    ensures forall k :: 0 <= k < |ids| ==> r[k] == Summary(rows[ids[k]])
  {
    if ids == [] then [] else [Summary(rows[ids[0]])] + SummariesOf(rows, ids[1..])
  }

  /** `SELECT ... FROM lists ORDER BY id`: every list once, ascending id. */
  function FindAll(rows: map<nat, List>): (r: seq<ListSummary>)
    requires Keyed(rows)
    ensures |r| == |rows|
    ensures forall i, j :: 0 <= i < j < |r| ==> r[i].id < r[j].id
    ensures forall k :: 0 <= k < |r| ==> r[k].id in rows && r[k] == Summary(rows[r[k].id])
    ensures forall id :: id in rows ==> Summary(rows[id]) in r
  {
    var ids := Ordering.SortedIds(rows.Keys);
    FindAllOrdered(rows, ids);
    SummariesOf(rows, ids)
  }

  lemma FindAllOrdered(rows: map<nat, List>, ids: seq<nat>)
    requires Keyed(rows)
    requires Ordering.Increasing(ids) && |ids| == |rows|
    requires forall id :: id in ids <==> id in rows
    ensures
      var r := SummariesOf(rows, ids);
      && (forall i, j :: 0 <= i < j < |r| ==> r[i].id < r[j].id)
      && (forall k :: 0 <= k < |r| ==> r[k].id in rows && r[k] == Summary(rows[r[k].id]))
      && (forall id :: id in rows ==> Summary(rows[id]) in r)
  {
    var r := SummariesOf(rows, ids);
    forall k | 0 <= k < |r|
      ensures r[k].id == ids[k]
    {
      assert ids[k] in rows;
    }
    forall id | id in rows
      ensures Summary(rows[id]) in r
    {
      var k :| 0 <= k < |ids| && ids[k] == id;
      assert r[k] == Summary(rows[id]);
    }
  }

  class ListTable {
    var rows: map<nat, List>
    var nextId: nat

    ghost predicate Valid()
      reads this
    {
      forall id :: id in rows ==> rows[id].id == id && id < nextId
    }

    constructor ()
      ensures Valid() && rows == map[] && nextId == 1
    {
      rows := map[];
      nextId := 1;
    }

    /** List.add: refuses data without a truthy username; deletes the
        username from the caller's object, then refuses it if nothing is
        left; otherwise inserts a row under the next id owned by that user. */
    method Add(data: ListData, now: int) returns (r: Result<List>)
      requires Valid() && DistinctNames(data.fields)
      modifies this, data
      ensures Valid()
      ensures !HasUsername(old(data.fields)) ==>
        r == Err(BadRequestError("No username")) && unchanged(this) && unchanged(data)
      ensures HasUsername(old(data.fields)) ==> data.fields == WithoutUsername(old(data.fields))
      ensures HasUsername(old(data.fields)) && data.fields == [] ==>
        r == Err(BadRequestError("No data")) && unchanged(this)
      ensures HasUsername(old(data.fields)) && data.fields != [] ==>
        var row := Inserted(old(nextId), now, data.fields, UsernameOf(old(data.fields)).value);
        && r == Ok(row)
        && rows == old(rows)[old(nextId) := row]
        && nextId == old(nextId) + 1
    {
      var username := UsernameOf(data.fields);
      if !(username.Some? && username.value != "") {
        return Err(BadRequestError("No username"));
      }
      data.fields := WithoutUsername(data.fields);
      if |data.fields| == 0 {
        return Err(BadRequestError("No data"));
      }
      WithoutUsernameExact(old(data.fields));
      InsertedRow(nextId, now, data.fields, username.value);
      var row := Inserted(nextId, now, data.fields, username.value);
      rows := rows[nextId := row];
      nextId := nextId + 1;
      r := Ok(row);
    }

    /** List.update: refuses empty data, then a missing row; changes only
        the named properties of that one row. */
    method Update(id: int, data: seq<ListField>) returns (r: Result<ListSummary>)
      requires Valid() && DistinctNames(data)
      modifies this
      ensures Valid() && nextId == old(nextId)
      ensures data == [] ==> r == Err(BadRequestError("No data")) && unchanged(this)
      ensures data != [] && Get(old(rows), id).Err? ==>
        r == Err(NotFoundError("List not found")) && unchanged(this)
      ensures data != [] && Get(old(rows), id).Ok? ==>
        && rows == old(rows)[id := Patched(old(rows)[id], data)]
        && r == Ok(Summary(rows[id]))
    {
      if |data| == 0 {
        return Err(BadRequestError("No data"));
      }
      if id < 0 || id !in rows {
        return Err(NotFoundError("List not found"));
      }
      PatchedFields(rows[id], data);
      var row := Patched(rows[id], data);
      rows := rows[id := row];
      r := Ok(Summary(row));
    }

    /** List.remove when the row exists. Without one, reading `.id` of the
        missing first result row throws a TypeError. */
    method Remove(id: int) returns (r: Result<()>)
      requires Valid()
      modifies this
      ensures Valid() && nextId == old(nextId)
      ensures Get(old(rows), id).Ok? ==> r == Ok(()) && rows == old(rows) - {id}
      ensures Get(old(rows), id).Err? ==> r == Err(TypeError) && unchanged(this)
    {
      if id < 0 || id !in rows {
        return Err(TypeError);
      }
      rows := rows - {id};
      r := Ok(());
    }

    /** List.removeExpired for a list object with properties `id` and
        `expiredAt` (None when absent or null), at time `now`. */
    method RemoveExpired(id: Option<int>, expiredAt: Option<int>, now: int) returns (r: Result<()>)
      requires Valid()
      modifies this
      ensures Valid() && nextId == old(nextId)
      ensures (id.None? || id.value == 0) ==> r == Err(BadRequestError("No id")) && unchanged(this)
      ensures id.Some? && id.value != 0 && expiredAt.None? ==>
        r == Err(BadRequestError("No expiredAt property")) && unchanged(this)
      ensures id.Some? && id.value != 0 && expiredAt.Some? && expiredAt.value >= now ==>
        r == Ok(()) && unchanged(this)
      ensures id.Some? && id.value != 0 && expiredAt.Some? && expiredAt.value < now ==>
        if Get(old(rows), id.value).Ok?
        then r == Ok(()) && rows == old(rows) - {id.value}
        else r == Err(TypeError) && unchanged(this)
    {
      if id.None? || id.value == 0 {
        return Err(BadRequestError("No id"));
      }
      if expiredAt.None? {
        return Err(BadRequestError("No expiredAt property"));
      }
      if expiredAt.value < now {
        var removed := Remove(id.value);
        if removed.Err? {
          // the handler calls BadRequestError without `new`, which throws a TypeError
          return Err(TypeError);
        }
      }
      r := Ok(());
    }
  }
}
