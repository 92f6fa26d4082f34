/** Turning the key set of a table into a sequence in ascending order: the
    order `ORDER BY id` gives, and the order this model fixes for queries
    whose row order the database leaves open. */
module Ordering {
  import Text

  predicate Increasing(s: seq<nat>)
  {
    forall i, j :: 0 <= i < j < |s| ==> s[i] < s[j]
  }

  predicate LexIncreasing(s: seq<string>)
  {
    forall i, j :: 0 <= i < j < |s| ==> Text.LexLess(s[i], s[j])
  }

  /** m is the smallest element of s. */
  predicate IsLeastId(m: nat, s: set<nat>)
  {
    m in s && forall x :: x in s ==> m <= x
  }

  lemma {:induction false} LeastIdExists(s: set<nat>)
    requires s != {}
    ensures exists m :: IsLeastId(m, s)
    decreases |s|
  {
    var y :| y in s;
    if s == {y} {
      assert IsLeastId(y, s);
    } else {
      LeastIdExists(s - {y});
      var m :| IsLeastId(m, s - {y});
      var least := if y < m then y else m;
      forall x | x in s
        ensures least <= x
      {
        if x != y {
          assert x in s - {y};
        }
      }
      assert IsLeastId(least, s);
    }
  }

  function LeastId(s: set<nat>): (m: nat)
    requires s != {}
    ensures m in s && forall x :: x in s ==> m <= x
  {
    LeastIdExists(s);
    var m :| IsLeastId(m, s);
    m
  }

  /** The elements of s, each once, smallest first. */
  function SortedIds(s: set<nat>): (r: seq<nat>)
    ensures Increasing(r)
    ensures forall x :: x in r <==> x in s
    ensures |r| == |s|
    decreases |s|
  {
    if s == {} then []
    else
      var m := LeastId(s);
      [m] + SortedIds(s - {m})
  }

  /** m comes before every other string of s. */
  predicate IsLeastString(m: string, s: set<string>)
  {
    m in s && forall x :: x in s && x != m ==> Text.LexLess(m, x)
  }

  lemma {:induction false} LeastStringExists(s: set<string>)
    requires s != {}
    ensures exists m :: IsLeastString(m, s)
    decreases |s|
  {
    var y :| y in s;
    if s == {y} {
      assert IsLeastString(y, s);
    } else {
      LeastStringExists(s - {y});
      var m :| IsLeastString(m, s - {y});
      Text.LexTotal(y, m);
      if Text.LexLess(y, m) {
        forall x | x in s && x != y
          ensures Text.LexLess(y, x)
        {
          if x != m {
            Text.LexTransitive(y, m, x);
          }
        }
        assert IsLeastString(y, s);
      } else {
        assert IsLeastString(m, s);
      }
    }
  }

  function LeastString(s: set<string>): (m: string)
    requires s != {}
    ensures m in s && forall x :: x in s && x != m ==> Text.LexLess(m, x)
  {
    LeastStringExists(s);
    var m :| IsLeastString(m, s);
    assert forall m' :: IsLeastString(m', s) ==> m' == m by {
      forall m' | IsLeastString(m', s)
        ensures m' == m
      {
        if m' != m {
          Text.LexIrreflexive(m);
          Text.LexTransitive(m, m', m);
        }
      }
    }
    m
  }

  /** The strings of s, each once, in lexicographic order. */
  function SortedStrings(s: set<string>): (r: seq<string>)
    ensures LexIncreasing(r)
    ensures forall x :: x in r <==> x in s
    ensures |r| == |s|
    decreases |s|
  {
    if s == {} then []
    else
      var m := LeastString(s);
      var rest := SortedStrings(s - {m});
      assert forall i :: 0 <= i < |rest| ==> rest[i] in rest;
      [m] + rest
  }
}
