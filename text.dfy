/** String building blocks shared by the SQL helper and the error messages:
    decimal rendering of integers (as JavaScript's template literals print
    them), Array.prototype.join, a suffix scan, and lexicographic order. */
module Text {

  predicate IsDigit(c: char) { '0' <= c <= '9' }

  function Digit(d: nat): (c: char)
    requires d < 10
    ensures IsDigit(c)
  {
    (48 + d) as char
  }

  function DigitValue(c: char): nat
  {
    if IsDigit(c) then c as int - 48 else 0
  }

  /** n written in base 10, as `${n}` renders a non-negative integer. */
  function Decimal(n: nat): (s: string)
    ensures |s| > 0
    ensures forall i :: 0 <= i < |s| ==> IsDigit(s[i])
    ensures s[0] == '0' ==> n == 0
    decreases n
  {
    if n < 10 then [Digit(n)] else Decimal(n / 10) + [Digit(n % 10)]
  }

  /** Reads a string of decimal digits back as a number. */
  function DecimalValue(s: string): nat
  {
    if s == [] then 0 else DecimalValue(s[..|s| - 1]) * 10 + DigitValue(s[|s| - 1])
  }

  lemma {:induction false} DecimalRoundTrip(n: nat)
    ensures DecimalValue(Decimal(n)) == n
    decreases n
  {
    if n >= 10 {
      var s := Decimal(n);
      assert s[..|s| - 1] == Decimal(n / 10);
      DecimalRoundTrip(n / 10);
    }
  }

  /** An integer as `${i}` renders it: a minus sign for negatives. */
  function IntString(i: int): string
  {
    if i < 0 then "-" + Decimal(-i) else Decimal(i)
  }

  /** parts.join(sep): the parts in order with sep between neighbours. */
  function Join(parts: seq<string>, sep: string): string
  {
    if |parts| == 0 then ""
    else if |parts| == 1 then parts[0]
    else parts[0] + sep + Join(parts[1..], sep)
  }

  function TotalLength(parts: seq<string>): nat
  {
    if parts == [] then 0 else |parts[0]| + TotalLength(parts[1..])
  }

  /** Where the k-th part starts inside Join(parts, sep). */
  function Offset(parts: seq<string>, sep: string, k: nat): nat
    requires k <= |parts|
  {
    TotalLength(parts[..k]) + k * |sep|
  }

  /** A join of n parts is the parts plus n - 1 separators. */
  lemma {:induction false} JoinLength(parts: seq<string>, sep: string)
    requires |parts| > 0
    ensures |Join(parts, sep)| == TotalLength(parts) + (|parts| - 1) * |sep|
  {
    if |parts| > 1 {
      JoinLength(parts[1..], sep);
    }
  }

  /** The first part opens the join and, unless it is the only one, is
      followed by one separator. */
  lemma JoinHead(parts: seq<string>, sep: string)
    requires |parts| > 0
    ensures |parts[0]| <= |Join(parts, sep)|
    ensures Join(parts, sep)[..|parts[0]|] == parts[0]
    ensures |parts| > 1 ==>
      |parts[0]| + |sep| <= |Join(parts, sep)| &&
      Join(parts, sep)[|parts[0]|..|parts[0]| + |sep|] == sep
    ensures |parts| > 1 ==> Join(parts, sep)[|parts[0]| + |sep|..] == Join(parts[1..], sep)
  {
    if |parts| > 1 {
      var j := Join(parts, sep);
      assert j == parts[0] + sep + Join(parts[1..], sep);
      assert j[..|parts[0]|] == parts[0];
      assert j[|parts[0]|..|parts[0]| + |sep|] == sep;
    }
  }

  lemma SliceOfSuffix(s: string, p: nat, a: nat, b: nat)
    requires a <= b && p + b <= |s|
    ensures s[p + a..p + b] == s[p..][a..b]
  {
  }

  /** Past the first part and its separator, offsets are those of the rest. */
  lemma OffsetStep(parts: seq<string>, sep: string, k: nat)
    requires 0 < k <= |parts|
    ensures Offset(parts, sep, k) == |parts[0]| + |sep| + Offset(parts[1..], sep, k - 1)
  {
    var prefix := parts[..k];
    assert prefix[0] == parts[0];
    assert prefix[1..] == parts[1..][..k - 1];
    assert TotalLength(prefix) == |parts[0]| + TotalLength(parts[1..][..k - 1]);
    assert k * |sep| == |sep| + (k - 1) * |sep|;
  }

  /** The k-th part sits at Offset(k) in the join and, unless it is the
      last, is followed by exactly one separator. */
  lemma {:induction false} JoinAt(parts: seq<string>, sep: string, k: nat)
    requires k < |parts|
    ensures Offset(parts, sep, k) + |parts[k]| <= |Join(parts, sep)|
    ensures Join(parts, sep)[Offset(parts, sep, k)..Offset(parts, sep, k) + |parts[k]|] == parts[k]
    ensures k + 1 < |parts| ==>
      Offset(parts, sep, k) + |parts[k]| + |sep| <= |Join(parts, sep)| &&
      Join(parts, sep)[Offset(parts, sep, k) + |parts[k]|..Offset(parts, sep, k) + |parts[k]| + |sep|] == sep
  {
    JoinHead(parts, sep);
    if k == 0 {
      assert parts[..0] == [];
    } else {
      var j := Join(parts, sep);
      var rest := parts[1..];
      JoinAt(rest, sep, k - 1);
      OffsetStep(parts, sep, k);
      var o := Offset(rest, sep, k - 1);
      var p := |parts[0]| + |sep|;
      assert rest[k - 1] == parts[k];
      SliceOfSuffix(j, p, o, o + |parts[k]|);
      if k + 1 < |parts| {
        SliceOfSuffix(j, p, o + |parts[k]|, o + |parts[k]| + |sep|);
      }
    }
  }

  /** What follows the last occurrence of c in s (all of s when c is absent). */
  function AfterLast(c: char, s: string): string
  {
    if s == [] then []
    else if s[|s| - 1] == c then []
    else AfterLast(c, s[..|s| - 1]) + [s[|s| - 1]]
  }

  lemma {:induction false} AfterLastOf(c: char, prefix: string, suffix: string)
    requires c !in suffix
    ensures AfterLast(c, prefix + [c] + suffix) == suffix
    decreases |suffix|
  {
    var s := prefix + [c] + suffix;
    if suffix != [] {
      var shorter := suffix[..|suffix| - 1];
      assert s[..|s| - 1] == prefix + [c] + shorter;
      AfterLastOf(c, prefix, shorter);
    } else {
      assert s[|s| - 1] == c;
    }
  }

  /** Strict lexicographic order on strings (a proper prefix comes first). */
  predicate LexLess(a: string, b: string)
    decreases |a|
  {
    if |a| == 0 then |b| > 0
    else if |b| == 0 then false
    else if a[0] != b[0] then a[0] < b[0]
    else LexLess(a[1..], b[1..])
  }

  lemma {:induction false} LexIrreflexive(a: string)
    ensures !LexLess(a, a)
    decreases |a|
  {
    if |a| > 0 {
      LexIrreflexive(a[1..]);
    }
  }

  lemma {:induction false} LexTransitive(a: string, b: string, c: string)
    requires LexLess(a, b) && LexLess(b, c)
    ensures LexLess(a, c)
    decreases |a|
  {
    if |a| > 0 && a[0] == b[0] && b[0] == c[0] {
      LexTransitive(a[1..], b[1..], c[1..]);
    }
  }

  lemma {:induction false} LexTotal(a: string, b: string)
    requires a != b
    ensures LexLess(a, b) || LexLess(b, a)
    decreases |a|
  {
    if |a| > 0 && |b| > 0 && a[0] == b[0] {
      assert a == [a[0]] + a[1..] && b == [b[0]] + b[1..];
      LexTotal(a[1..], b[1..]);
    }
  }
}
