/**
 * `Array.prototype.sort` as the pipeline calls it: numerically with
 * `(a, b) => a - b` on finite numbers, and with the default comparator (string
 * order) on day keys and countries. Any correct sort gives the same sequence for
 * these comparators, so each is modelled by an insertion sort proved sorted and
 * a permutation of its input.
 */
module Sorting {

  // ------------------------------------------------------------ numbers

  predicate Ascending(s: seq<real>) {
    forall i, j :: 0 <= i < j < |s| ==> s[i] <= s[j]
  }

  /** Puts `x` before the first element not below it. */
  function InsertReal(x: real, s: seq<real>): (r: seq<real>)
    ensures multiset(r) == multiset(s) + multiset{x}
    ensures |r| == |s| + 1
    ensures r[0] == x || (s != [] && r[0] == s[0])
  {
    if s == [] || x <= s[0] then [x] + s
    else
      assert s == [s[0]] + s[1..];
      [s[0]] + InsertReal(x, s[1..])
  }

  /** Inserting into an ascending sequence keeps it ascending. */
  lemma {:induction false} InsertAscending(x: real, s: seq<real>)
    requires Ascending(s)
    ensures Ascending(InsertReal(x, s))
  {
    if s != [] && x > s[0] {
      var t := InsertReal(x, s[1..]);
      InsertAscending(x, s[1..]);
      assert s[0] <= t[0];
      assert InsertReal(x, s) == [s[0]] + t;
    }
  }

  /** `values.slice().sort((a, b) => a - b)`. */
  function SortReals(s: seq<real>): (r: seq<real>)
    ensures Ascending(r)
    ensures multiset(r) == multiset(s)
    ensures |r| == |s|
  {
    if s == [] then []
    else
      assert s == [s[0]] + s[1..];
      var t := SortReals(s[1..]);
      InsertAscending(s[0], t);
      InsertReal(s[0], t)
  }

  /** The head of an ascending sequence is its least element. */
  lemma HeadIsLeast(a: seq<real>, y: real)
    requires Ascending(a) && y in multiset(a)
    ensures a[0] <= y
  {
    var k :| 0 <= k < |a| && a[k] == y;
  }

  lemma TailMultiset(a: seq<real>)
    requires a != []
    ensures multiset(a[1..]) == multiset(a) - multiset{a[0]}
  {
    assert a == [a[0]] + a[1..];
  }

  /** Two ascending arrangements of the same values are the same sequence. */
  lemma {:induction false} AscendingUnique(a: seq<real>, b: seq<real>)
    requires Ascending(a) && Ascending(b)
    requires multiset(a) == multiset(b)
    ensures a == b
    decreases |a|
  {
    assert |a| == |multiset(a)| == |multiset(b)| == |b|;
    if a != [] {
      assert a[0] in multiset(a) && b[0] in multiset(b);
      HeadIsLeast(a, b[0]);
      HeadIsLeast(b, a[0]);
      assert a[0] == b[0];
      TailMultiset(a);
      TailMultiset(b);
      assert multiset(a[1..]) == multiset(b[1..]);
      AscendingUnique(a[1..], b[1..]);
      assert a == [a[0]] + a[1..] && b == [b[0]] + b[1..];
    }
  }

  /** An ascending sequence is its own sort. */
  lemma SortAscending(s: seq<real>)
    requires Ascending(s)
    ensures SortReals(s) == s
  {
    AscendingUnique(SortReals(s), s);
  }

  // ------------------------------------------------------------ strings

  /** JavaScript's `a < b` on strings: lexicographic, a proper prefix first. */
  predicate Below(a: string, b: string)
    decreases |a|
  {
    if a == [] then b != []
    else if b == [] then false
    else if a[0] != b[0] then a[0] < b[0]
    else Below(a[1..], b[1..])
  }

  lemma {:induction false} BelowIrreflexive(a: string)
    ensures !Below(a, a)
    decreases |a|
  {
    if a != [] { BelowIrreflexive(a[1..]); }
  }

  lemma {:induction false} BelowAsymmetric(a: string, b: string)
    ensures !(Below(a, b) && Below(b, a))
    decreases |a|
  {
    if a != [] && b != [] && a[0] == b[0] { BelowAsymmetric(a[1..], b[1..]); }
  }

  lemma {:induction false} BelowTransitive(a: string, b: string, c: string)
    requires Below(a, b) && Below(b, c)
    ensures Below(a, c)
    decreases |a|
  {
    if a != [] && b != [] && c != [] && a[0] == b[0] && b[0] == c[0] {
      BelowTransitive(a[1..], b[1..], c[1..]);
    }
  }

  lemma {:induction false} BelowTotal(a: string, b: string)
    ensures a == b || Below(a, b) || Below(b, a)
    decreases |a|
  {
    if a != [] && b != [] && a[0] == b[0] {
      BelowTotal(a[1..], b[1..]);
      if a[1..] == b[1..] {
        assert a == [a[0]] + a[1..] && b == [b[0]] + b[1..];
      }
    }
  }

  /** No later element sorts before an earlier one. */
  predicate InOrder(s: seq<string>) {
    forall i, j :: 0 <= i < j < |s| ==> !Below(s[j], s[i])
  }

  /** Every earlier element sorts strictly before every later one. */
  predicate StrictlyInOrder(s: seq<string>) {
    forall i, j :: 0 <= i < j < |s| ==> Below(s[i], s[j])
  }

  predicate Distinct<T(==)>(s: seq<T>) {
    forall i, j :: 0 <= i < j < |s| ==> s[i] != s[j]
  }

  function InsertString(x: string, s: seq<string>): (r: seq<string>)
    requires InOrder(s)
    ensures InOrder(r)
    ensures multiset(r) == multiset(s) + multiset{x}
    ensures |r| == |s| + 1
  {
    if s == [] || !Below(s[0], x) then
      assert forall k :: 0 <= k < |s| ==> !Below(s[k], x) by {
        forall k | 0 <= k < |s|
          ensures !Below(s[k], x)
        {
          if Below(s[k], x) {
            BelowTotal(s[0], s[k]);
            if s[0] != s[k] { BelowTransitive(s[0], s[k], x); }
          }
        }
      }
      [x] + s
    else
      var t := InsertString(x, s[1..]);
      assert s == [s[0]] + s[1..];
      assert forall k :: 0 <= k < |t| ==> !Below(t[k], s[0]) by {
        forall k | 0 <= k < |t|
          ensures !Below(t[k], s[0])
        {
          assert t[k] in multiset(t);
          if t[k] == x { BelowAsymmetric(x, s[0]); }
          else {
            assert t[k] in multiset(s[1..]);
            var m :| 0 <= m < |s[1..]| && s[1..][m] == t[k];
          }
        }
      }
      [s[0]] + t
  }

  /** `[...keys].sort()` with the default (string) comparator. */
  function SortStrings(s: seq<string>): (r: seq<string>)
    ensures InOrder(r)
    ensures multiset(r) == multiset(s)
    ensures |r| == |s|
  {
    if s == [] then []
    else
      assert s == [s[0]] + s[1..];
      InsertString(s[0], SortStrings(s[1..]))
  }

  lemma StrictIsInOrder(s: seq<string>)
    requires StrictlyInOrder(s)
    ensures InOrder(s)
  {
    forall i, j | 0 <= i < j < |s|
      ensures !Below(s[j], s[i])
    {
      BelowAsymmetric(s[i], s[j]);
    }
  }

  /** Inserting a new string into a strictly increasing sequence keeps it strictly increasing. */
  lemma {:induction false} InsertStrict(x: string, s: seq<string>)
    requires InOrder(s) && StrictlyInOrder(s) && x !in s
    ensures StrictlyInOrder(InsertString(x, s))
    decreases |s|
  {
    var r := InsertString(x, s);
    if s == [] || !Below(s[0], x) {
      forall k | 0 <= k < |s|
        ensures Below(x, s[k])
      {
        BelowTotal(x, s[0]);
        if k > 0 { BelowTransitive(x, s[0], s[k]); }
      }
    } else {
      var t := InsertString(x, s[1..]);
      InsertStrict(x, s[1..]);
      forall k | 0 <= k < |t|
        ensures Below(s[0], t[k])
      {
        assert t[k] in multiset(t);
        if t[k] != x {
          assert t[k] in multiset(s[1..]);
          var m :| 0 <= m < |s[1..]| && s[1..][m] == t[k];
          assert Below(s[0], s[m + 1]);
        }
      }
      assert r == [s[0]] + t;
    }
  }

  /** Sorting distinct strings yields them in strictly increasing order, the same set. */
  lemma {:induction false} SortDistinct(s: seq<string>)
    requires Distinct(s)
    ensures StrictlyInOrder(SortStrings(s))
    ensures Distinct(SortStrings(s))
    ensures forall x :: x in SortStrings(s) <==> x in s
  {
    var r := SortStrings(s);
    assert forall x :: x in r <==> x in multiset(r);
    assert forall x :: x in s <==> x in multiset(s);
    if s != [] {
      assert Distinct(s[1..]);
      SortDistinct(s[1..]);
      var t := SortStrings(s[1..]);
      assert s[0] !in t by {
        assert s[0] !in s[1..];
        assert forall x :: x in t <==> x in multiset(t);
        assert forall x :: x in s[1..] <==> x in multiset(s[1..]);
      }
      InsertStrict(s[0], t);
    }
    forall i, j | 0 <= i < j < |r|
      ensures r[i] != r[j]
    {
      BelowIrreflexive(r[i]);
    }
  }
}
