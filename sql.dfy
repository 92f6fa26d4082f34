/** sqlForPartialUpdate: the SET clause of a partial UPDATE statement.

    The data object is an ordered list of (field, value) entries, in the
    order Object.keys and Object.values walk it. Placeholder `$k+1` in the
    clause names `values[k]`, so the caller passes `values` as the query's
    parameters and may append its own (the WHERE id) after them. */
module Sql {
  import opened Errors
  import Text

  /** The object sqlForPartialUpdate returns. */
  datatype SetClause<V> = SetClause(setCols: string, values: seq<V>)

  function Keys<V>(data: seq<(string, V)>): seq<string>
  {
    seq(|data|, i requires 0 <= i < |data| => data[i].0)
  }

  function Values<V>(data: seq<(string, V)>): seq<V>
  {
    seq(|data|, i requires 0 <= i < |data| => data[i].1)
  }

  /** `jsToSql[key] || key`: the mapped column when there is a non-empty
      one, the field name itself otherwise. */
  function ColumnName(key: string, jsToSql: map<string, string>): string
  {
    if key in jsToSql && jsToSql[key] != "" then jsToSql[key] else key
  }

  /** One element of the clause list: `"column"=$position`. */
  function Assignment(column: string, position: nat): string
  {
    "\"" + column + "\"=$" + Text.Decimal(position)
  }

  /** `keys.map((colName, idx) => ...)`: the k-th key (from 0) gets `$k+1`. */
  function Assignments(keys: seq<string>, jsToSql: map<string, string>): seq<string>
  {
    seq(|keys|, k requires 0 <= k < |keys| => Assignment(ColumnName(keys[k], jsToSql), k + 1))
  }

  function Separator(): string { ", " }

  function PartialUpdate<V>(data: seq<(string, V)>, jsToSql: map<string, string>): (r: Result<SetClause<V>>)
    ensures r.Err? <==> |data| == 0
    ensures r.Err? ==> r.error == BadRequestError("No data")
    ensures r.Ok? ==> |r.value.values| == |data| && forall k :: 0 <= k < |data| ==> r.value.values[k] == data[k].1
  {
    var keys := Keys(data);
    if |keys| == 0 then Err(BadRequestError("No data"))
    else Ok(SetClause(Text.Join(Assignments(keys, jsToSql), Separator()), Values(data)))
  }

  /** The placeholder number a clause element ends with: the digits after its last `$`. */
  function PlaceholderOf(assignment: string): nat
  {
    Text.DecimalValue(Text.AfterLast('$', assignment))
  }

  /** The clause for the k-th key sits, in key order, at the k-th slot of
      setCols: it names that key's column (renamed or passed through) and
      placeholder `$k+1`, and all but the last are followed by ", ". */
  lemma ClauseForKey<V>(data: seq<(string, V)>, jsToSql: map<string, string>, k: nat)
    requires k < |data|
    ensures PartialUpdate(data, jsToSql).Ok?
    ensures
      var setCols := PartialUpdate(data, jsToSql).value.setCols;
      var clause := Assignment(ColumnName(data[k].0, jsToSql), k + 1);
      var at := Text.Offset(Assignments(Keys(data), jsToSql), Separator(), k);
      && at + |clause| <= |setCols|
      && setCols[at..at + |clause|] == clause
      && (k + 1 < |data| ==> at + |clause| + 2 <= |setCols| && setCols[at + |clause|..at + |clause| + 2] == ", ")
  {
    var clauses := Assignments(Keys(data), jsToSql);
    assert clauses[k] == Assignment(ColumnName(data[k].0, jsToSql), k + 1);
    Text.JoinAt(clauses, Separator(), k);
  }

  /** n entries give n clauses separated by exactly n - 1 separators. */
  lemma ClauseCount<V>(data: seq<(string, V)>, jsToSql: map<string, string>)
    requires |data| > 0
    ensures |Assignments(Keys(data), jsToSql)| == |data|
    ensures |PartialUpdate(data, jsToSql).value.setCols|
         == Text.TotalLength(Assignments(Keys(data), jsToSql)) + 2 * (|data| - 1)
  {
    Text.JoinLength(Assignments(Keys(data), jsToSql), Separator());
  }

  /** The alignment contract: the placeholder in the k-th clause is k + 1,
      and the value bound to it, values[k], is the k-th entry's value. */
  lemma PlaceholderNamesValue<V>(data: seq<(string, V)>, jsToSql: map<string, string>, k: nat)
    requires k < |data|
    ensures PlaceholderOf(Assignments(Keys(data), jsToSql)[k]) == k + 1
    ensures PartialUpdate(data, jsToSql).Ok?
    ensures PartialUpdate(data, jsToSql).value.values[PlaceholderOf(Assignments(Keys(data), jsToSql)[k]) - 1] == data[k].1
  {
    var digits := Text.Decimal(k + 1);
    assert forall i :: 0 <= i < |digits| ==> digits[i] != '$';
    var column := ColumnName(data[k].0, jsToSql);
    assert Assignments(Keys(data), jsToSql)[k] == ("\"" + column + "\"=") + ['$'] + digits;
    Text.AfterLastOf('$', "\"" + column + "\"=", digits);
    Text.DecimalRoundTrip(k + 1);
  }

  /** A field with no non-empty mapping keeps its own name as the column;
      a field with one is renamed to it. */
  lemma ColumnResolution(key: string, jsToSql: map<string, string>)
    ensures key !in jsToSql ==> ColumnName(key, jsToSql) == key
    ensures key in jsToSql && jsToSql[key] == "" ==> ColumnName(key, jsToSql) == key
    ensures key in jsToSql && jsToSql[key] != "" ==> ColumnName(key, jsToSql) == jsToSql[key]
  {
  }
}
