/** The Task model: the operations on the tasks table.

    The table is a map from id to row; `nextId` stands for the serial
    sequence that hands out new ids. Read-only queries are functions of
    the rows; the statements that change the table are methods. */
module Tasks {
  import opened Errors
  import Sql
  import Text
  import Ordering

  /** A row of the tasks table. The title is NULL when an insert gives none. */
  datatype Task = Task(
    id: nat,
    title: Option<string>,
    listId: int,
    expectedPomodoros: int,
    completedCycles: int,
    completedStatus: bool)

  /** One property of the data object passed to add or update. */
  datatype TaskField =
    | Title(title: string)
    | ListId(listId: int)
    | ExpectedPomodoros(expected: int)
    | CompletedCycles(cycles: int)
    | CompletedStatus(done: bool)

  /** The property's name in the data object. */
  function Name(f: TaskField): string
  {
    match f
    case Title(_) => "title"
    case ListId(_) => "listId"
    case ExpectedPomodoros(_) => "expectedPomodoros"
    case CompletedCycles(_) => "completedCycles"
    case CompletedStatus(_) => "completedStatus"
  }

  /** The tasks column the property is stored in. */
  function Column(f: TaskField): string
  {
    match f
    case Title(_) => "title"
    case ListId(_) => "list_id"
    case ExpectedPomodoros(_) => "expected_pomodoros"
    case CompletedCycles(_) => "completed_cycles"
    case CompletedStatus(_) => "completed_status"
  }

  function Names(data: seq<TaskField>): seq<string>
  {
    seq(|data|, i requires 0 <= i < |data| => Name(data[i]))
  }

  /** A data object has each property at most once. */
  predicate DistinctNames(data: seq<TaskField>)
  {
    forall i, j :: 0 <= i < j < |data| ==> Name(data[i]) != Name(data[j])
  }

  /** The data object as Object.keys / Object.values see it. */
  function Entries(data: seq<TaskField>): seq<(string, TaskField)>
  {
    seq(|data|, i requires 0 <= i < |data| => (Name(data[i]), data[i]))
  }

  /** The jsToSql map update passes to sqlForPartialUpdate. */
  const UpdateColumns: map<string, string> := map[
    "listId" := "list_id",
    "expectedPomodoros" := "expected_pomodoros",
    "completedCycles" := "completed_cycles",
    "completedStatus" := "completed_status"]

  /** The row's value for the property `name`, as a field (None when the
      row holds NULL there or `name` is not a property of a task). */
  function Read(t: Task, name: string): Option<TaskField>
  {
    if name == "title" then (if t.title.Some? then Some(Title(t.title.value)) else None)
    else if name == "listId" then Some(ListId(t.listId))
    else if name == "expectedPomodoros" then Some(ExpectedPomodoros(t.expectedPomodoros))
    else if name == "completedCycles" then Some(CompletedCycles(t.completedCycles))
    else if name == "completedStatus" then Some(CompletedStatus(t.completedStatus))
    else None
  }

  /** The row after one `"column"=value` assignment. */
  function With(t: Task, f: TaskField): Task
  {
    match f
    case Title(x) => t.(title := Some(x))
    case ListId(x) => t.(listId := x)
    case ExpectedPomodoros(x) => t.(expectedPomodoros := x)
    case CompletedCycles(x) => t.(completedCycles := x)
    case CompletedStatus(x) => t.(completedStatus := x)
  }

  /** The row after the assignments of a whole data object. */
  function Patched(t: Task, data: seq<TaskField>): Task
    decreases |data|
  {
    if data == [] then t else Patched(With(t, data[0]), data[1..])
  }

  /** One assignment sets its own property and no other. */
  lemma ReadWith(t: Task, f: TaskField)
    ensures Read(With(t, f), Name(f)) == Some(f)
    ensures forall name :: name != Name(f) ==> Read(With(t, f), name) == Read(t, name)
  {
  }

  /** The names of a data object are its first property's name followed
      by the names of the rest; with distinct names, the first is not among
      the rest. */
  lemma NamesSplit(data: seq<TaskField>)
    requires data != [] && DistinctNames(data)
    ensures data == [data[0]] + data[1..]
    ensures Names(data) == [Name(data[0])] + Names(data[1..])
    ensures DistinctNames(data[1..])
    ensures Name(data[0]) !in Names(data[1..])
  {
    var rest := data[1..];
    forall i | 0 <= i < |rest|
      ensures Names(rest)[i] == Names(data)[i + 1] != Name(data[0])
    {
      assert rest[i] == data[i + 1];
    }
    assert Names(data) == [Name(data[0])] + Names(rest);
    forall i, j | 0 <= i < j < |rest|
      ensures Name(rest[i]) != Name(rest[j])
    {
      assert rest[i] == data[i + 1] && rest[j] == data[j + 1];
    }
  }

  /** Writing a data object sets each property it names to its value and
      leaves every other property, and the id, as it was. */
  lemma {:induction false} PatchedFields(t: Task, data: seq<TaskField>)
    requires DistinctNames(data)
    ensures Patched(t, data).id == t.id
    ensures forall f :: f in data ==> Read(Patched(t, data), Name(f)) == Some(f)
    ensures forall name :: name !in Names(data) ==> Read(Patched(t, data), name) == Read(t, name)
    decreases |data|
  {
    if data != [] {
      var head, rest := data[0], data[1..];
      NamesSplit(data);
      ReadWith(t, head);
      PatchedFields(With(t, head), rest);
      assert Patched(t, data) == Patched(With(t, head), rest);
    }
  }

  /** The value of the listId property, if the data object has one. */
  function ListIdOf(data: seq<TaskField>): Option<int>
  {
    if data == [] then None
    else if data[0].ListId? then Some(data[0].listId)
    else ListIdOf(data[1..])
  }

  /** `data.listId` is truthy: present and not 0. */
  predicate HasListId(data: seq<TaskField>)
  {
    ListIdOf(data).Some? && ListIdOf(data).value != 0
  }

  /** The row an insert starts from: the column defaults. listId has no
      default of its own; add refuses data without one. */
  function NewTask(id: nat): Task
  {
    Task(id, None, 0, 1, 0, false)
  }

  /** The row add inserts: the given properties over the column defaults. */
  function Inserted(id: nat, data: seq<TaskField>): Task
  {
    Patched(NewTask(id), data)
  }

  /** A property the data does not set keeps its default. */
  lemma InsertedKeeps(id: nat, data: seq<TaskField>, name: string)
    requires DistinctNames(data) && name !in Names(data)
    ensures Read(Inserted(id, data), name) == Read(NewTask(id), name)
  {
    PatchedFields(NewTask(id), data);
  }

  /** A new task keeps the title and listId it is given and, for each of
      expectedPomodoros, completedCycles and completedStatus that the data
      leaves out, takes the default 1, 0 and false. */
  lemma InsertedDefaults(id: nat, data: seq<TaskField>)
    requires DistinctNames(data) && HasListId(data)
    ensures Inserted(id, data).id == id
    ensures Inserted(id, data).listId == ListIdOf(data).value
    ensures forall x :: Title(x) in data ==> Inserted(id, data).title == Some(x)
    ensures "title" !in Names(data) ==> Inserted(id, data).title.None?
    ensures "expectedPomodoros" !in Names(data) ==> Inserted(id, data).expectedPomodoros == 1
    ensures "completedCycles" !in Names(data) ==> Inserted(id, data).completedCycles == 0
    ensures "completedStatus" !in Names(data) ==> !Inserted(id, data).completedStatus
  {
    var t := Inserted(id, data);
    PatchedFields(NewTask(id), data);
    ListIdOfIn(data);
    assert Read(t, "listId") == Some(ListId(t.listId));
    if "title" !in Names(data) {
      InsertedKeeps(id, data, "title");
    }
    if "expectedPomodoros" !in Names(data) {
      InsertedKeeps(id, data, "expectedPomodoros");
    }
    if "completedCycles" !in Names(data) {
      InsertedKeeps(id, data, "completedCycles");
    }
    if "completedStatus" !in Names(data) {
      InsertedKeeps(id, data, "completedStatus");
    }
  }

  /** The argument checks of Task.add, in the order the code makes them:
      the error they raise, if any. */
  function AddCheck(data: seq<TaskField>): (e: Option<Error>)
    ensures e.None? <==> data != [] && HasListId(data)
    ensures data == [] ==> e == Some(BadRequestError("No data"))
    ensures data != [] && !HasListId(data) ==> e == Some(BadRequestError("No listId"))
  {
    if data == [] then Some(BadRequestError("No data"))
    else if !HasListId(data) then Some(BadRequestError("No listId"))
    else None
  }

  /** Task.add as written: the helpers module exports no
      sqlForPartialInsert, so once the checks pass, calling it throws a
      TypeError and no task is ever inserted. */
  function AddAsWritten(data: seq<TaskField>): (r: Result<Task>)
    ensures r.Err?
    ensures r.error == TypeError <==> AddCheck(data).None?
  {
    match AddCheck(data)
    case Some(e) => Err(e)
    case None => Err(TypeError)
  }

  /** The task the add test creates passes every check, yet the code as
      written fails on it; TaskTable.Add inserts the row the test expects. */
  lemma AddAsWrittenFailsOnValidTask()
    ensures
      var data := [Title("example todo"), ListId(1), ExpectedPomodoros(3)];
      && AddCheck(data).None?
      && AddAsWritten(data) == Err(TypeError)
      && Inserted(7, data) == Task(7, Some("example todo"), 1, 3, 0, false)
  {
    var data := [Title("example todo"), ListId(1), ExpectedPomodoros(3)];
    assert ListIdOf(data) == Some(1) by {
      assert data[1..][0] == ListId(1);
    }
  }

  lemma {:induction false} ListIdOfIn(data: seq<TaskField>)
    ensures ListIdOf(data).Some? ==> ListId(ListIdOf(data).value) in data
  {
    if data != [] && !data[0].ListId? {
      ListIdOfIn(data[1..]);
    }
  }

  /** The jsToSql map update passes renames each property to the column it
      is stored in. */
  lemma UpdateColumnOf(f: TaskField)
    ensures Sql.ColumnName(Name(f), UpdateColumns) == Column(f)
  {
    match f
    case Title(_) =>
      assert "title" !in UpdateColumns;
    case _ =>
  }

  /** The SQL that update sends sets, for the k-th property, exactly the
      column Patched writes, bound to that property's value; the WHERE id
      placeholder `$(values.length + 1)` follows every SET placeholder, so
      the id parameter appended after the values never collides with one. */
  lemma UpdateStatement(data: seq<TaskField>, k: nat)
    requires k < |data|
    ensures Sql.PartialUpdate(Entries(data), UpdateColumns).Ok?
    ensures
      var u := Sql.PartialUpdate(Entries(data), UpdateColumns).value;
      var clause := Sql.Assignments(Sql.Keys(Entries(data)), UpdateColumns)[k];
      && clause == Sql.Assignment(Column(data[k]), k + 1)
      && Sql.PlaceholderOf(clause) == k + 1
      && Sql.PlaceholderOf(clause) < |u.values| + 1
      && u.values[Sql.PlaceholderOf(clause) - 1] == data[k]
  {
    var entries := Entries(data);
    assert Sql.Keys(entries)[k] == Name(data[k]);
    UpdateColumnOf(data[k]);
    Sql.PlaceholderNamesValue(entries, UpdateColumns, k);
  }

  /** Every row is stored under its own id. */
  predicate Keyed(rows: map<nat, Task>)
  {
    forall id :: id in rows ==> rows[id].id == id
  }

  /** `SELECT ... WHERE id = $1` */
  function Get(rows: map<nat, Task>, id: int): (r: Result<Task>)
    ensures r.Ok? <==> id >= 0 && id in rows
    ensures r.Ok? ==> r.value == rows[id]
    ensures r.Err? ==> r.error == NotFoundError("No id: " + Text.IntString(id))
  {
    if id >= 0 && id in rows then Ok(rows[id]) else Err(NotFoundError("No id: " + Text.IntString(id)))
  }

  /** The rows among `ids` whose list is listId, in the order of `ids`. */
  function TasksIn(rows: map<nat, Task>, ids: seq<nat>, listId: int): (r: seq<Task>)
    requires forall i :: i in ids ==> i in rows
    ensures forall t :: t in r <==> exists i :: i in ids && rows[i] == t && t.listId == listId
  {
    if ids == [] then []
    else
      var rest := TasksIn(rows, ids[1..], listId);
      assert forall i :: i in ids <==> i == ids[0] || i in ids[1..];
      if rows[ids[0]].listId == listId then [rows[ids[0]]] + rest else rest
  }

  /** Strictly ascending ids: no task is listed twice. */
  predicate AscendingIds(s: seq<Task>)
  {
    forall i, j :: 0 <= i < j < |s| ==> s[i].id < s[j].id
  }

  /** A task whose id is below every id of an ascending list can head it. */
  lemma PrependAscending(t: Task, s: seq<Task>)
    requires AscendingIds(s) && forall u :: u in s ==> t.id < u.id
    ensures AscendingIds([t] + s)
  {
    var r := [t] + s;
    forall i, j | 0 <= i < j < |r|
      ensures r[i].id < r[j].id
    {
      assert r[j] == s[j - 1] && r[j] in s;
      if i > 0 {
        assert r[i] == s[i - 1];
      }
    }
  }

  /** Over keyed rows, walking the ids in ascending order yields the tasks
      in strictly ascending id order, so none is listed twice. */
  lemma {:induction false} TasksInOrdered(rows: map<nat, Task>, ids: seq<nat>, listId: int)
    requires forall i :: i in ids ==> i in rows
    requires Keyed(rows) && Ordering.Increasing(ids)
    ensures AscendingIds(TasksIn(rows, ids, listId))
  {
    if ids != [] {
      var rest := TasksIn(rows, ids[1..], listId);
      TasksInOrdered(rows, ids[1..], listId);
      if rows[ids[0]].listId == listId {
        forall t | t in rest
          ensures rows[ids[0]].id < t.id
        {
          var i :| i in ids[1..] && rows[i] == t && t.listId == listId;
          var k :| 0 <= k < |ids[1..]| && ids[1..][k] == i;
          assert ids[k + 1] == i && ids[0] in rows;
        }
        PrependAscending(rows[ids[0]], rest);
      }
    }
  }

  /** `SELECT ... WHERE list_id = $1`, in ascending id order. */
  function GetTasksByList(rows: map<nat, Task>, listId: int): (r: Result<seq<Task>>)
    ensures r.Err? <==> forall id :: id in rows ==> rows[id].listId != listId
    ensures r.Err? ==> r.error == NotFoundError("No list: " + Text.IntString(listId))
    ensures r.Ok? ==> forall t :: t in r.value <==> t in rows.Values && t.listId == listId
    ensures r.Ok? && Keyed(rows) ==> AscendingIds(r.value)
  {
    var ids := Ordering.SortedIds(rows.Keys);
    var tasks := TasksIn(rows, ids, listId);
    assert Keyed(rows) ==> AscendingIds(tasks) by {
      if Keyed(rows) {
        TasksInOrdered(rows, ids, listId);
      }
    }
    assert forall t :: t in rows.Values <==> exists i :: i in ids && rows[i] == t;
    assert tasks == [] ==> forall id :: id in rows ==> rows[id].listId != listId by {
      if tasks == [] {
        forall id | id in rows
          ensures rows[id].listId != listId
        {
          assert id in ids;
          assert rows[id] !in tasks;
        }
      }
    }
    assert tasks != [] ==> exists id :: id in rows && rows[id].listId == listId by {
      if tasks != [] {
        assert tasks[0] in tasks;
        var i :| i in ids && rows[i] == tasks[0] && tasks[0].listId == listId;
        assert i in rows;
      }
    }
    if tasks == [] then Err(NotFoundError("No list: " + Text.IntString(listId))) else Ok(tasks)
  }

  /** The rows left after `DELETE ... WHERE id = ANY($1)`. */
  function WithoutIds(rows: map<nat, Task>, ids: seq<int>): map<nat, Task>
  {
    map id | id in rows && id !in ids :: rows[id]
  }

  class TaskTable {
    var rows: map<nat, Task>
    var nextId: nat

    /** Every row is stored under its own id, and the sequence is past every id in use. */
    ghost predicate Valid()
      reads this
    {
      Keyed(rows) && forall id :: id in rows ==> id < nextId
    }

    constructor ()
      ensures Valid() && rows == map[] && nextId == 1
    {
      rows := map[];
      nextId := 1;
    }

    /** Task.add: refuses empty data, then data without a truthy listId,
        and otherwise inserts a row under the next id. */
    method Add(data: seq<TaskField> := []) returns (r: Result<Task>)
      requires Valid() && DistinctNames(data)
      modifies this
      ensures Valid()
      ensures data == [] ==> r == Err(BadRequestError("No data")) && unchanged(this)
      ensures data != [] && !HasListId(data) ==> r == Err(BadRequestError("No listId")) && unchanged(this)
      ensures data != [] && HasListId(data) ==>
        && r == Ok(Inserted(old(nextId), data))
        && rows == old(rows)[old(nextId) := Inserted(old(nextId), data)]
        && nextId == old(nextId) + 1
    {
      var check := AddCheck(data);
      if check.Some? {
        return Err(check.value);
      }
      var t := Inserted(nextId, data);
      PatchedFields(NewTask(nextId), data);
      rows := rows[nextId := t];
      nextId := nextId + 1;
      r := Ok(t);
    }

    /** Task.update: checks the id, then the data, then that the row exists;
        changes only the named properties of that one row. */
    method Update(id: Option<int>, data: seq<TaskField> := []) returns (r: Result<Task>)
      requires Valid() && DistinctNames(data)
      modifies this
      ensures Valid() && nextId == old(nextId)
      ensures id.None? ==> r == Err(BadRequestError("No id provided")) && unchanged(this)
      ensures id.Some? && data == [] ==> r == Err(BadRequestError("No data")) && unchanged(this)
      ensures id.Some? && data != [] && Get(old(rows), id.value).Err? ==>
        r == Err(NotFoundError("Task not found")) && unchanged(this)
      ensures id.Some? && data != [] && Get(old(rows), id.value).Ok? ==>
        && r == Ok(Patched(old(rows)[id.value], data))
        && rows == old(rows)[id.value := Patched(old(rows)[id.value], data)]
    {
      if id.None? {
        return Err(BadRequestError("No id provided"));
      }
      if |data| == 0 {
        return Err(BadRequestError("No data"));
      }
      var key := id.value;
      if key < 0 || key !in rows {
        return Err(NotFoundError("Task not found"));
      }
      var t := Patched(rows[key], data);
      PatchedFields(rows[key], data);
      rows := rows[key := t];
      r := Ok(t);
    }

    /** Task.incrementCycles: `completed_cycles = completed_cycles + 1` on one row. */
    method IncrementCycles(id: int) returns (r: Result<Task>)
      requires Valid()
      modifies this
      ensures Valid() && nextId == old(nextId)
      ensures Get(old(rows), id).Err? ==>
        r == Err(NotFoundError("No task: " + Text.IntString(id))) && unchanged(this)
      ensures Get(old(rows), id).Ok? ==>
        && r == Ok(Increment(old(rows)[id]))
        && rows == old(rows)[id := r.value]
    {
      if id < 0 || id !in rows {
        return Err(NotFoundError("No task: " + Text.IntString(id)));
      }
      var t := Increment(rows[id]);
      rows := rows[id := t];
      r := Ok(t);
    }

    /** Task.remove: deletes the one row, or fails when there is none. */
    method Remove(id: int) returns (r: Result<()>)
      requires Valid()
      modifies this
      ensures Valid() && nextId == old(nextId)
      ensures Get(old(rows), id).Err? ==>
        r == Err(NotFoundError("No id: " + Text.IntString(id))) && unchanged(this)
      ensures Get(old(rows), id).Ok? ==> r == Ok(()) && rows == old(rows) - {id}
    {
      if id < 0 || id !in rows {
        return Err(NotFoundError("No id: " + Text.IntString(id)));
      }
      rows := rows - {id};
      r := Ok(());
    }

    /** Task.removeGroup: `ids` is None when the argument is not an array. */
    method RemoveGroup(ids: Option<seq<int>>) returns (r: Result<()>)
      requires Valid()
      modifies this
      ensures Valid() && nextId == old(nextId)
      ensures (ids.None? || ids.value == []) ==>
        r == Err(BadRequestError("No ids provided")) && unchanged(this)
      ensures ids.Some? && ids.value != [] ==> rows == WithoutIds(old(rows), ids.value)
      ensures ids.Some? && ids.value != [] ==>
        (r.Err? <==> forall id :: id in old(rows) ==> id !in ids.value)
      ensures r.Err? && ids.Some? && ids.value != [] ==>
        r.error == NotFoundError("No tasks found for provided ids")
    {
      if ids.None? || |ids.value| == 0 {
        return Err(BadRequestError("No ids provided"));
      }
      var deleted := set id: nat | id in rows && id in ids.value;
      assert deleted == {} <==> forall id :: id in rows ==> id !in ids.value by {
        if deleted != {} {
          var id :| id in deleted;
          assert id in rows && id in ids.value;
        } else {
          forall id | id in rows
            ensures id !in ids.value
          {
            assert id !in deleted;
          }
        }
      }
      rows := WithoutIds(rows, ids.value);
      if deleted == {} {
        return Err(NotFoundError("No tasks found for provided ids"));
      }
      r := Ok(());
    }
  }

  /** The row `SET completed_cycles = completed_cycles + 1` leaves. */
  function Increment(t: Task): Task
  {
    t.(completedCycles := t.completedCycles + 1)
  }

  /** The row after n successive incrementCycles calls on it. */
  function Incremented(t: Task, n: nat): Task
  {
    if n == 0 then t else Increment(Incremented(t, n - 1))
  }

  /** incrementCycles adds exactly one to the counter, so n increments
      raise it by n: no increment is lost, and nothing else changes. */
  lemma {:induction false} IncrementsAccumulate(t: Task, n: nat)
    ensures Incremented(t, n).completedCycles == t.completedCycles + n
    ensures Incremented(t, n) == t.(completedCycles := t.completedCycles + n)
  {
    if n > 0 {
      IncrementsAccumulate(t, n - 1);
    }
  }

  /** removeGroup deletes every listed task and nothing else. */
  lemma WithoutIdsExact(rows: map<nat, Task>, ids: seq<int>)
    ensures forall id :: id in WithoutIds(rows, ids) <==> id in rows && id !in ids
    ensures forall id :: id in WithoutIds(rows, ids) ==> WithoutIds(rows, ids)[id] == rows[id]
    ensures forall id :: id in ids ==> Get(WithoutIds(rows, ids), id).Err?
  {
  }
}
