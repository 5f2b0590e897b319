/**
 * The per-product statistics of src/detectors/AnomalyDetector.js: `median`,
 * `mad` and the linear-interpolation `quantile`, all over the finite values of
 * a group in ascending order, and the price statistics and quantity bounds
 * built from them.
 */
module Statistics {
  import opened JsNumber
  import opened Sorting

  /** `values.filter(v => Number.isFinite(v))`. */
  function Finite(values: seq<Num>): (r: seq<real>)
    ensures |r| <= |values|
  {
    if values == [] then []
    else (if values[0].Fin? then [values[0].v] else []) + Finite(values[1..])
  }

  /** The filter keeps exactly the finite values. */
  lemma {:induction false} FiniteMembers(values: seq<Num>)
    ensures forall i :: 0 <= i < |values| && values[i].Fin? ==> values[i].v in Finite(values)
    ensures forall x :: x in Finite(values) ==> Fin(x) in values
    decreases |values|
  {
    if values != [] {
      FiniteMembers(values[1..]);
      assert forall i :: 1 <= i < |values| ==> values[i] == values[1..][i - 1];
    }
  }

  /** Filtering distributes over concatenation. */
  lemma {:induction false} FiniteAppend(a: seq<Num>, b: seq<Num>)
    ensures Finite(a + b) == Finite(a) + Finite(b)
    decreases |a|
  {
    if a != [] {
      assert (a + b)[0] == a[0];
      assert (a + b)[1..] == a[1..] + b;
      FiniteAppend(a[1..], b);
    } else {
      assert a + b == b;
    }
  }

  /** The finite values of a group in ascending order: the array `a` of the source. */
  function SortedFinite(values: seq<Num>): (a: seq<real>)
    ensures Ascending(a) && multiset(a) == multiset(Finite(values))
    ensures |a| == |Finite(values)|
  {
    SortReals(Finite(values))
  }

  // ------------------------------------------------------------------ median

  /**
   * `median(values)`: NaN when no value is finite; otherwise the middle of the
   * sorted finite values, or the mean of the two middle ones for an even count.
   * It lies between the smallest and the largest finite value.
   */
  function Median(values: seq<Num>): (m: Num)
    ensures m.NaN? <==> Finite(values) == []
  {
    MiddleOf(SortedFinite(values))
  }

  /** The middle of an ascending sequence; it lies between its ends. */
  function MiddleOf(a: seq<real>): (m: Num)
    requires Ascending(a)
    ensures m.NaN? <==> a == []
    ensures m.Fin? ==> a[0] <= m.v <= a[|a| - 1]
  {
    var n := |a|;
    if n == 0 then NaN
    else if n % 2 == 1 then Fin(a[n / 2])
    else
      assert a[0] <= a[n / 2 - 1] <= a[n / 2] <= a[n - 1];
      Fin((a[n / 2 - 1] + a[n / 2]) / 2.0)
  }

  /** How many of `s` are at most `x`. */
  function CountAtMost(s: seq<real>, x: real): (n: nat)
    ensures n <= |s|
  {
    if s == [] then 0 else CountAtMost(s[..|s| - 1], x) + (if s[|s| - 1] <= x then 1 else 0)
  }

  /** How many of `s` are at least `x`. */
  function CountAtLeast(s: seq<real>, x: real): (n: nat)
    ensures n <= |s|
  {
    if s == [] then 0 else CountAtLeast(s[..|s| - 1], x) + (if s[|s| - 1] >= x then 1 else 0)
  }

  lemma {:induction false} CountsAppend(a: seq<real>, b: seq<real>, x: real)
    ensures CountAtMost(a + b, x) == CountAtMost(a, x) + CountAtMost(b, x)
    ensures CountAtLeast(a + b, x) == CountAtLeast(a, x) + CountAtLeast(b, x)
    decreases |b|
  {
    if b != [] {
      assert (a + b)[|a + b| - 1] == b[|b| - 1];
      assert (a + b)[..|a + b| - 1] == a + b[..|b| - 1];
      CountsAppend(a, b[..|b| - 1], x);
    } else {
      assert a + b == a;
    }
  }

  /** Counting depends only on the values, not on their order. */
  lemma {:induction false} CountsPermutation(s: seq<real>, t: seq<real>, x: real)
    requires multiset(s) == multiset(t)
    ensures CountAtMost(s, x) == CountAtMost(t, x)
    ensures CountAtLeast(s, x) == CountAtLeast(t, x)
    decreases |s|
  {
    assert |s| == |multiset(s)| == |multiset(t)| == |t|;
    if s != [] {
      var last := s[|s| - 1];
      assert last in multiset(t) by { assert s == s[..|s| - 1] + [last]; }
      var k :| 0 <= k < |t| && t[k] == last;
      RemoveOne(s, t, k);
      CountsPermutation(s[..|s| - 1], t[..k] + t[k + 1..], x);
      CountsSplit(t, k, x);
    }
  }

  /** Taking the same value out of two equal multisets leaves equal multisets. */
  lemma RemoveOne(s: seq<real>, t: seq<real>, k: nat)
    requires multiset(s) == multiset(t) && s != [] && k < |t| && t[k] == s[|s| - 1]
    ensures multiset(s[..|s| - 1]) == multiset(t[..k] + t[k + 1..])
  {
    var last := t[k];
    assert s == s[..|s| - 1] + [last];
    assert t == t[..k] + [last] + t[k + 1..];
    assert multiset(s[..|s| - 1]) == multiset(s) - multiset{last};
    assert multiset(t[..k] + t[k + 1..]) == multiset(t) - multiset{last};
  }

  /** The counts of `t` are those of `t` without position k, plus what `t[k]` adds. */
  lemma CountsSplit(t: seq<real>, k: nat, x: real)
    requires k < |t|
    ensures CountAtMost(t, x) == CountAtMost(t[..k] + t[k + 1..], x) + (if t[k] <= x then 1 else 0)
    ensures CountAtLeast(t, x) == CountAtLeast(t[..k] + t[k + 1..], x) + (if t[k] >= x then 1 else 0)
  {
    assert t == (t[..k] + [t[k]]) + t[k + 1..];
    CountsAppend(t[..k] + [t[k]], t[k + 1..], x);
    CountsAppend(t[..k], [t[k]], x);
    CountsAppend(t[..k], t[k + 1..], x);
    assert CountAtMost([t[k]], x) == (if t[k] <= x then 1 else 0) by {
      assert [t[k]][..0] == [];
    }
    assert CountAtLeast([t[k]], x) == (if t[k] >= x then 1 else 0) by {
      assert [t[k]][..0] == [];
    }
  }

  /** In an ascending sequence, the elements up to position k are at most `a[k]`. */
  lemma {:induction false} CountSorted(a: seq<real>, k: nat)
    requires Ascending(a) && k < |a|
    ensures CountAtMost(a, a[k]) >= k + 1
    ensures CountAtLeast(a, a[k]) >= |a| - k
    decreases |a|
  {
    if k < |a| - 1 {
      CountSorted(a[..|a| - 1], k);
    } else if |a| > 1 {
      CountSorted(a[..|a| - 1], k - 1);
      assert a[..|a| - 1][k - 1] == a[k - 1] <= a[k];
      AtMostMonotone(a[..|a| - 1], a[k - 1], a[k]);
    }
  }

  lemma {:induction false} AtMostMonotone(s: seq<real>, x: real, y: real)
    requires x <= y
    ensures CountAtMost(s, x) <= CountAtMost(s, y)
    decreases |s|
  {
    if s != [] { AtMostMonotone(s[..|s| - 1], x, y); }
  }

  lemma {:induction false} AtLeastMonotone(s: seq<real>, x: real, y: real)
    requires x <= y
    ensures CountAtLeast(s, y) <= CountAtLeast(s, x)
    decreases |s|
  {
    if s != [] { AtLeastMonotone(s[..|s| - 1], x, y); }
  }

  /**
   * The defining property of a median: at least half of the finite values are at
   * most it, and at least half are at least it.
   */
  lemma MedianSplitsHalf(values: seq<Num>)
    requires Finite(values) != []
    ensures 2 * CountAtMost(Finite(values), Median(values).v) >= |Finite(values)|
    ensures 2 * CountAtLeast(Finite(values), Median(values).v) >= |Finite(values)|
  {
    var a := SortedFinite(values);
    MiddleSplitsHalf(a);
    CountsPermutation(a, Finite(values), Median(values).v);
  }

  lemma MiddleSplitsHalf(a: seq<real>)
    requires Ascending(a) && a != []
    ensures 2 * CountAtMost(a, MiddleOf(a).v) >= |a|
    ensures 2 * CountAtLeast(a, MiddleOf(a).v) >= |a|
  {
    var n := |a|;
    var m := MiddleOf(a).v;
    if n % 2 == 1 {
      CountSorted(a, n / 2);
    } else {
      CountSorted(a, n / 2 - 1);
      CountSorted(a, n / 2);
      AtMostMonotone(a, a[n / 2 - 1], m);
      AtLeastMonotone(a, m, a[n / 2]);
    }
  }

  /** The median does not depend on the order of the values, nor on their non-finite ones. */
  lemma MedianPermutation(xs: seq<Num>, ys: seq<Num>)
    requires multiset(Finite(xs)) == multiset(Finite(ys))
    ensures Median(xs) == Median(ys)
  {
    AscendingUnique(SortedFinite(xs), SortedFinite(ys));
  }

  // ------------------------------------------------------------------ mad

  /** `Math.abs(v - m)` for every finite `v`. */
  function Deviations(xs: seq<real>, m: Num): (d: seq<Num>)
    ensures |d| == |xs|
    ensures forall i :: 0 <= i < |d| && d[i].Fin? ==> d[i].v >= 0.0
  {
    if xs == [] then [] else [Abs(Sub(Fin(xs[0]), m))] + Deviations(xs[1..], m)
  }

  /**
   * `mad(values)`: the median of the absolute deviations from the median, with
   * NaN and 0 both giving 0 (`|| 0`). It is never negative.
   */
  function Mad(values: seq<Num>): (r: real)
    ensures r >= 0.0
    ensures Finite(values) == [] ==> r == 0.0
  {
    var dev := Deviations(Finite(values), Median(values));
    MedianNonNegative(dev);
    OrZero(Median(dev))
  }

  /** The median of values that are never negative is never negative. */
  lemma MedianNonNegative(values: seq<Num>)
    requires forall i :: 0 <= i < |values| && values[i].Fin? ==> values[i].v >= 0.0
    ensures Median(values).Fin? ==> Median(values).v >= 0.0
  {
    if Median(values).Fin? {
      var a := SortedFinite(values);
      FiniteMembers(values);
      assert a[0] in multiset(Finite(values));
      assert Fin(a[0]) in values;
    }
  }

  /** Equal values deviate by nothing: their MAD is 0. */
  lemma MadOfConstant(values: seq<Num>, c: real)
    requires forall i :: 0 <= i < |values| ==> values[i] == Fin(c)
    ensures Mad(values) == 0.0
  {
    if values != [] {
      MedianOfConstant(values, c);
      FiniteOfConstant(values, c);
      var dev := Deviations(Finite(values), Fin(c));
      ConstantDeviations(Finite(values), c);
      MedianOfConstant(dev, 0.0);
    }
  }

  /** Equal finite values are all kept by the filter. */
  lemma {:induction false} FiniteOfConstant(values: seq<Num>, c: real)
    requires forall i :: 0 <= i < |values| ==> values[i] == Fin(c)
    ensures |Finite(values)| == |values|
    ensures forall i :: 0 <= i < |Finite(values)| ==> Finite(values)[i] == c
    decreases |values|
  {
    if values != [] { FiniteOfConstant(values[1..], c); }
  }

  /** The median of equal values is that value. */
  lemma MedianOfConstant(values: seq<Num>, c: real)
    requires values != [] && forall i :: 0 <= i < |values| ==> values[i] == Fin(c)
    ensures Median(values) == Fin(c)
  {
    var a := SortedFinite(values);
    FiniteOfConstant(values, c);
    forall i | 0 <= i < |a| ensures a[i] == c {
      assert a[i] in multiset(Finite(values));
    }
    assert a[|a| / 2] == c;
  }

  lemma {:induction false} ConstantDeviations(xs: seq<real>, c: real)
    requires forall i :: 0 <= i < |xs| ==> xs[i] == c
    ensures forall i :: 0 <= i < |Deviations(xs, Fin(c))| ==> Deviations(xs, Fin(c))[i] == Fin(0.0)
    decreases |xs|
  {
    if xs != [] { ConstantDeviations(xs[1..], c); }
  }

  // ------------------------------------------------------------------ quantile

  /** `lo + (hi - lo) * t`: for `t` in [0, 1] it lies between `lo` and `hi`. */
  function Interpolate(lo: real, hi: real, t: real): (r: real)
    requires lo <= hi && 0.0 <= t <= 1.0
    ensures lo <= r <= hi
  {
    var d := hi - lo;
    ScaleWithin(d, t);
    lo + d * t
  }

  lemma ScaleWithin(d: real, t: real)
    requires d >= 0.0 && 0.0 <= t <= 1.0
    ensures 0.0 <= d * t <= d
  {}

  lemma ScaleMonotone(d: real, s: real, t: real)
    requires d >= 0.0 && s <= t
    ensures d * s <= d * t
  {}

  /** The interpolation position `(n - 1) * q`. */
  function Position(n: nat, q: real): (pos: real)
    requires n >= 1 && q >= 0.0
    ensures pos >= 0.0
    ensures q < 1.0 && n >= 2 ==> pos < (n - 1) as real
  {
    var m := (n - 1) as real;
    ScaleMonotone(m, 0.0, q);
    assert q < 1.0 && n >= 2 ==> m * q < m by {
      if q < 1.0 && n >= 2 { BelowScale(m, q); }
    }
    m * q
  }

  lemma BelowScale(m: real, q: real)
    requires m > 0.0 && q < 1.0
    ensures m * q < m
  {}

  /**
   * `quantile(values, q)`: linear interpolation at position `(n - 1) * q` of the
   * sorted finite values. It reads `a[base + 1]`, which is past the end for a
   * single value (or for `q == 1`), and then the result is NaN.
   */
  function Quantile(values: seq<Num>, q: real): (r: Num)
    requires q >= 0.0
    ensures 0.0 <= q < 1.0 ==> (r.NaN? <==> |Finite(values)| <= 1)
  {
    InterpolateAt(SortedFinite(values), q)
  }

  /** The interpolated value at fraction `q` of an ascending sequence; it lies between its ends. */
  function InterpolateAt(a: seq<real>, q: real): (r: Num)
    requires Ascending(a) && q >= 0.0
    ensures 0.0 <= q < 1.0 ==> (r.NaN? <==> |a| <= 1)
    ensures r.Fin? ==> |a| > 1 && a[0] <= r.v <= a[|a| - 1]
  {
    if |a| == 0 then NaN
    else
      var pos := Position(|a|, q);
      var base := pos.Floor;
      if base + 1 >= |a| then NaN
      else
        assert a[0] <= a[base] <= a[base + 1] <= a[|a| - 1];
        Fin(Interpolate(a[base], a[base + 1], pos - base as real))
  }

  /** Interpolated quantiles grow with q: the first quartile never exceeds the third. */
  lemma QuantileMonotone(values: seq<Num>, p: real, q: real)
    requires 0.0 <= p <= q && Quantile(values, p).Fin? && Quantile(values, q).Fin?
    ensures Quantile(values, p).v <= Quantile(values, q).v
  {
    InterpolateMonotone(SortedFinite(values), p, q);
  }

  lemma InterpolateMonotone(a: seq<real>, p: real, q: real)
    requires Ascending(a) && 0.0 <= p <= q && InterpolateAt(a, p).Fin? && InterpolateAt(a, q).Fin?
    ensures InterpolateAt(a, p).v <= InterpolateAt(a, q).v
  {
    var n := |a|;
    InterpolateAtValue(a, p);
    InterpolateAtValue(a, q);
    var pp, pq := Position(n, p), Position(n, q);
    PositionMonotone(n, p, q);
    var bp, bq := pp.Floor, pq.Floor;
    if bp == bq {
      InterpolateGrows(a[bp], a[bp + 1], pp - bp as real, pq - bq as real);
    } else {
      assert a[bp + 1] <= a[bq];
    }
  }

  /** A finite interpolated value sits between the two elements around its position. */
  lemma InterpolateAtValue(a: seq<real>, q: real)
    requires Ascending(a) && q >= 0.0 && InterpolateAt(a, q).Fin?
    ensures var pos := Position(|a|, q); var b := pos.Floor;
      && 0 <= b && b + 1 < |a| && 0.0 <= pos - b as real < 1.0
      && InterpolateAt(a, q).v == Interpolate(a[b], a[b + 1], pos - b as real)
  {}

  lemma PositionMonotone(n: nat, p: real, q: real)
    requires n >= 1 && 0.0 <= p <= q
    ensures Position(n, p) <= Position(n, q)
  {
    ScaleMonotone((n - 1) as real, p, q);
  }

  lemma InterpolateGrows(lo: real, hi: real, s: real, t: real)
    requires lo <= hi && 0.0 <= s <= t <= 1.0
    ensures Interpolate(lo, hi, s) <= Interpolate(lo, hi, t)
  {
    var d := hi - lo;
    ScaleMonotone(d, s, t);
    assert d * s <= d * t;
    assert Interpolate(lo, hi, s) == lo + d * s;
    assert Interpolate(lo, hi, t) == lo + d * t;
    ShiftMonotone(lo, d * s, d * t, Interpolate(lo, hi, s), Interpolate(lo, hi, t));
  }

  lemma ShiftMonotone(lo: real, u: real, v: real, x: real, y: real)
    requires u <= v && x == lo + u && y == lo + v
    ensures x <= y
  {}

  // ------------------------------------------------------------------ per-product statistics

  /** The statistics the price pass keeps per product: median, and a MAD that is never 0. */
  datatype PriceStats = PriceStats(med: Num, mad: real)

  /** `{ med, mad: m || 1e-9 }` (AnomalyDetector.js:58-59): a MAD of 0 becomes 1e-9. */
  function PriceStatsOf(values: seq<Num>): (st: PriceStats)
    ensures st.med == Median(values)
    ensures st.mad > 0.0
    ensures Mad(values) != 0.0 ==> st.mad == Mad(values)
    ensures Mad(values) == 0.0 ==> st.mad == 0.000000001
  {
    var m := Mad(values);
    PriceStats(Median(values), if m == 0.0 then 0.000000001 else m)
  }

  /** `Math.abs((price - med) / (1.4826 * mad))`. */
  function RobustZ(price: Num, st: PriceStats): (z: Num)
    requires st.mad > 0.0
    ensures z.Fin? <==> price.Fin? && st.med.Fin?
    ensures z.Fin? ==> z.v >= 0.0
  {
    Abs(Div(Sub(price, st.med), Fin(1.4826 * st.mad)))
  }

  /** The quantity bounds of a product: `[q1 - k * iqr, q3 + k * iqr]`. */
  datatype Bounds = Bounds(lo: Num, hi: Num)

  /** `(q3 - q1) || 1`: a zero or NaN spread is replaced by 1. */
  function Iqr(q1: Num, q3: Num): (r: real)
    ensures r != 0.0
    ensures q1.Fin? && q3.Fin? && q3.v != q1.v ==> r == q3.v - q1.v
    ensures q1.NaN? || q3.NaN? || q3.v == q1.v ==> r == 1.0
  {
    var d := Sub(q3, q1);
    if d.NaN? || d.v == 0.0 then 1.0 else d.v
  }

  /**
   * The bounds of AnomalyDetector.js:88-90. They are NaN exactly when the group
   * has at most one finite quantity, and otherwise ordered when `k >= 0`.
   */
  function BoundsOf(values: seq<Num>, k: real): (b: Bounds)
    ensures b.lo.NaN? <==> |Finite(values)| <= 1
    ensures b.hi.NaN? <==> |Finite(values)| <= 1
    ensures b.lo.Fin? && b.hi.Fin? && k >= 0.0 ==> b.lo.v <= b.hi.v
  {
    var q1 := Quantile(values, 0.25);
    var q3 := Quantile(values, 0.75);
    var iqr := Iqr(q1, q3);
    assert q1.Fin? && q3.Fin? ==> q1.v <= q3.v by {
      if q1.Fin? && q3.Fin? { QuantileMonotone(values, 0.25, 0.75); }
    }
    assert q1.Fin? && q3.Fin? && k >= 0.0 ==> k * iqr >= 0.0;
    Bounds(Sub(q1, Fin(k * iqr)), Add(q3, Fin(k * iqr)))
  }

  // ------------------------------------------------------------------ examples

  /**
   * When the MAD of a product is 0 (most of its prices equal), PriceStatsOf
   * replaces it by 1e-9, and then every finite price at least 1e-8 away from the
   * median gets a robust z above 3.5, the default threshold.
   */
  lemma TinyMadFlags(st: PriceStats, price: real)
    requires st.mad == 0.000000001 && st.med.Fin?
    requires price - st.med.v >= 0.00000001 || st.med.v - price >= 0.00000001
    ensures RobustZ(Fin(price), st).v > 3.5
  {
    var k := 1.4826 * 0.000000001;
    assert RobustZ(Fin(price), st) == Abs(Fin((price - st.med.v) / k));
    QuotientLarge(price - st.med.v, k);
  }

  /** A product whose prices are 10, 10, 10 and 100. */
  predicate MostlyTen(v: seq<Num>) {
    v == [Fin(10.0), Fin(10.0), Fin(10.0), Fin(100.0)]
  }

  /**
   * Prices 10, 10, 10 and 100: the median is 10 and the MAD is 0, so it
   * becomes 1e-9; the price 10 scores z = 0 and the price 100 is flagged.
   */
  lemma MostlyTenFlagged(v: seq<Num>)
    requires MostlyTen(v)
    ensures Median(v) == Fin(10.0) && Mad(v) == 0.0
    ensures PriceStatsOf(v) == PriceStats(Fin(10.0), 0.000000001)
    ensures RobustZ(Fin(10.0), PriceStatsOf(v)) == Fin(0.0)
    ensures RobustZ(Fin(100.0), PriceStatsOf(v)).v > 3.5
  {
    MostlyTenMedian(v);
    MostlyTenMad(v);
    TinyMadFlags(PriceStatsOf(v), 100.0);
  }

  lemma MostlyTenMedian(v: seq<Num>)
    requires MostlyTen(v)
    ensures Median(v) == Fin(10.0)
  {
    MedianOfFour(v, 10.0, 10.0, 10.0, 100.0);
  }

  lemma MostlyTenMad(v: seq<Num>)
    requires MostlyTen(v)
    ensures Mad(v) == 0.0
  {
    MostlyTenMedian(v);
    FiniteOfFour(v, 10.0, 10.0, 10.0, 100.0);
    var dev := Deviations([10.0, 10.0, 10.0, 100.0], Fin(10.0));
    MostlyTenDeviations(dev);
    MedianOfFour(dev, 0.0, 0.0, 0.0, 90.0);
  }

  lemma MostlyTenDeviations(dev: seq<Num>)
    requires dev == Deviations([10.0, 10.0, 10.0, 100.0], Fin(10.0))
    ensures dev == [Fin(0.0), Fin(0.0), Fin(0.0), Fin(90.0)]
  {
    var xs := [10.0, 10.0, 10.0, 100.0];
    assert xs[1..] == [10.0, 10.0, 100.0];
    assert xs[1..][1..] == [10.0, 100.0];
    assert xs[1..][1..][1..] == [100.0];
    assert Deviations([100.0], Fin(10.0)) == [Fin(90.0)];
  }

  /** Four finite values in ascending order have the mean of the middle two as their median. */
  lemma MedianOfFour(v: seq<Num>, a: real, b: real, c: real, d: real)
    requires v == [Fin(a), Fin(b), Fin(c), Fin(d)] && a <= b <= c <= d
    ensures Median(v) == Fin((b + c) / 2.0)
  {
    FiniteOfFour(v, a, b, c, d);
    AscendingFour(a, b, c, d);
    MedianOfAscending(v);
    MiddleOfFour(a, b, c, d);
  }

  lemma AscendingFour(a: real, b: real, c: real, d: real)
    requires a <= b <= c <= d
    ensures Ascending([a, b, c, d])
  {}

  lemma MiddleOfFour(a: real, b: real, c: real, d: real)
    requires Ascending([a, b, c, d])
    ensures MiddleOf([a, b, c, d]) == Fin((b + c) / 2.0)
  {
    var s := [a, b, c, d];
    assert |s| / 2 == 2 && s[1] == b && s[2] == c;
  }

  lemma FiniteOfFour(v: seq<Num>, a: real, b: real, c: real, d: real)
    requires v == [Fin(a), Fin(b), Fin(c), Fin(d)]
    ensures Finite(v) == [a, b, c, d]
  {
    AllFinite(v);
  }

  /** When the finite values are already ascending, the median is their middle. */
  lemma MedianOfAscending(v: seq<Num>)
    requires Ascending(Finite(v))
    ensures Median(v) == MiddleOf(Finite(v))
  {
    AscendingUnique(SortedFinite(v), Finite(v));
  }

  lemma QuotientLarge(x: real, k: real)
    requires k == 1.4826 * 0.000000001
    requires x >= 0.00000001 || -x >= 0.00000001
    ensures x / k > 3.5 || -(x / k) > 3.5
  {}

  /** Over finite values already in ascending order, the quantile interpolates them directly. */
  lemma QuantileOfAscending(values: seq<Num>, q: real)
    requires q >= 0.0 && Ascending(Finite(values))
    ensures Quantile(values, q) == InterpolateAt(Finite(values), q)
  {
    SortAscending(Finite(values));
  }

  /** Quantities 1..8: Q1 = 2.75 and Q3 = 6.25. */
  lemma OneToEightQuartiles()
    ensures InterpolateAt([1.0, 2.0, 3.0, 4.0, 5.0, 6.0, 7.0, 8.0], 0.25) == Fin(2.75)
    ensures InterpolateAt([1.0, 2.0, 3.0, 4.0, 5.0, 6.0, 7.0, 8.0], 0.75) == Fin(6.25)
  {
    assert Position(8, 0.25) == 1.75;
    assert Position(8, 0.75) == 5.25;
  }

  /** The quantity column 1..8 of one product. */
  predicate OneToEight(v: seq<Num>) {
    v == [Fin(1.0), Fin(2.0), Fin(3.0), Fin(4.0), Fin(5.0), Fin(6.0), Fin(7.0), Fin(8.0)]
  }

  /** A product whose quantities are 1..8 gets Q1 = 2.75 and Q3 = 6.25. */
  lemma OneToEightQuantiles(v: seq<Num>)
    requires OneToEight(v)
    ensures Quantile(v, 0.25) == Fin(2.75) && Quantile(v, 0.75) == Fin(6.25)
  {
    OneToEightFinite(v);
    OneToEightAscending();
    QuantileOfAscending(v, 0.25);
    QuantileOfAscending(v, 0.75);
    OneToEightQuartiles();
  }

  /** With the default factor 1.5 the fences of the quantities 1..8 are [-2.5, 11.5]. */
  lemma OneToEightFences(v: seq<Num>)
    requires OneToEight(v)
    ensures BoundsOf(v, 1.5) == Bounds(Fin(-2.5), Fin(11.5))
  {
    OneToEightQuantiles(v);
    assert Iqr(Fin(2.75), Fin(6.25)) == 3.5;
  }

  lemma OneToEightAscending()
    ensures Ascending([1.0, 2.0, 3.0, 4.0, 5.0, 6.0, 7.0, 8.0])
  {}

  /** The finite values of the column 1..8 are 1..8. */
  lemma OneToEightFinite(v: seq<Num>)
    requires OneToEight(v)
    ensures Finite(v) == [1.0, 2.0, 3.0, 4.0, 5.0, 6.0, 7.0, 8.0]
  {
    AllFinite(v);
  }

  /** Where every value is finite, the filter keeps them all, in order. */
  lemma {:induction false} AllFinite(v: seq<Num>)
    requires forall i :: 0 <= i < |v| ==> v[i].Fin?
    ensures |Finite(v)| == |v| && forall i :: 0 <= i < |v| ==> Finite(v)[i] == v[i].v
    decreases |v|
  {
    if v != [] {
      AllFinite(v[1..]);
      assert forall i :: 1 <= i < |v| ==> Finite(v)[i] == Finite(v[1..])[i - 1];
    }
  }

  /** A single quantity has NaN bounds, so nothing compares outside them. */
  lemma SingleQuantityBounds(x: Num, k: real)
    ensures BoundsOf([x], k).lo.NaN? && BoundsOf([x], k).hi.NaN?
  {
    assert |Finite([x])| <= 1;
  }
}
