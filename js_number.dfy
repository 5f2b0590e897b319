/**
 * JavaScript numbers as the pipeline uses them: a finite real or NaN, with the
 * NaN-propagating operators, `Math.max`/`Math.min`, `x || 0`, `Math.round`,
 * `toFixed` and the two number-to-text conversions the reason messages use.
 * Reals do not overflow, so no infinity is ever produced.
 */
module JsNumber {

  /** A JavaScript number: a finite real, or NaN. */
  datatype Num = Fin(v: real) | NaN

  function Add(a: Num, b: Num): Num {
    if a.Fin? && b.Fin? then Fin(a.v + b.v) else NaN
  }

  function Sub(a: Num, b: Num): Num {
    if a.Fin? && b.Fin? then Fin(a.v - b.v) else NaN
  }

  function Mul(a: Num, b: Num): Num {
    if a.Fin? && b.Fin? then Fin(a.v * b.v) else NaN
  }

  /** Division; every divisor in the core is a positive real or NaN. */
  function Div(a: Num, b: Num): Num
    requires b.Fin? ==> b.v != 0.0
  {
    if a.Fin? && b.Fin? then Fin(a.v / b.v) else NaN
  }

  function Abs(a: Num): Num {
    if a.NaN? then NaN else if a.v < 0.0 then Fin(-a.v) else a
  }

  /** `a < b`: false whenever either side is NaN. */
  predicate Less(a: Num, b: Num) {
    a.Fin? && b.Fin? && a.v < b.v
  }

  /** `Math.max(a, b)`: NaN if either argument is NaN, else the larger one. */
  function Max(a: Num, b: Num): (r: Num)
    ensures r.Fin? <==> a.Fin? && b.Fin?
    ensures r.Fin? ==> r.v >= a.v && r.v >= b.v && (r.v == a.v || r.v == b.v)
  {
    if a.NaN? || b.NaN? then NaN else if a.v >= b.v then a else b
  }

  /** `Math.min(a, b)`: NaN if either argument is NaN, else the smaller one. */
  function Min(a: Num, b: Num): (r: Num)
    ensures r.Fin? <==> a.Fin? && b.Fin?
    ensures r.Fin? ==> r.v <= a.v && r.v <= b.v && (r.v == a.v || r.v == b.v)
  {
    if a.NaN? || b.NaN? then NaN else if a.v <= b.v then a else b
  }

  /**
   * `clamp(v, lo, hi) = Math.max(lo, Math.min(hi, v))` (AnomalyDetector.js:1):
   * it does not absorb NaN, and otherwise lands in `[lo, hi]`, leaving values
   * already in range untouched.
   */
  function Clamp(x: Num, lo: real, hi: real): (r: Num)
    ensures r.NaN? <==> x.NaN?
    ensures r.Fin? && lo <= hi ==> lo <= r.v <= hi
    ensures r.Fin? && lo <= x.v <= hi ==> r == x
  {
    Max(Fin(lo), Min(Fin(hi), x))
  }

  /** `x || 0` on a number: NaN (and 0) become 0. */
  function OrZero(x: Num): real {
    if x.Fin? then x.v else 0.0
  }

  /** `Math.round(x)`: the nearest integer, halves rounded up; NaN stays NaN. */
  function Round(x: Num): (r: Num)
    ensures r.Fin? <==> x.Fin?
    ensures r.Fin? ==> r.v == r.v.Floor as real && x.v - 0.5 < r.v <= x.v + 0.5
  {
    if x.NaN? then NaN else Fin((x.v + 0.5).Floor as real)
  }

  function Pow10(d: nat): (p: nat)
    ensures p >= 1
  {
    if d == 0 then 1 else 10 * Pow10(d - 1)
  }

  /**
   * The integer n closest to `x * 10^d`, the larger one on a tie: the digits
   * `toFixed(d)` writes for a non-negative `x`.
   */
  function ScaledDigits(x: real, d: nat): nat
    requires x >= 0.0
  {
    (x * Pow10(d) as real + 0.5).Floor
  }

  /** `r` has at most `d` decimals: it is a whole number of units of `10^-d`. */
  predicate HasDecimals(r: real, d: nat) {
    Whole(r * Pow10(d) as real)
  }

  /** `x` is an integer. */
  predicate Whole(x: real) {
    x.Floor as real == x
  }

  /**
   * `+x.toFixed(d)`: `x` rounded to `d` decimals, ties away from zero (toFixed
   * rounds the magnitude and writes the sign separately). The result has at
   * most `d` decimals and is within half a unit of the last one, strictly
   * below the half above a non-negative `x` and above the half below a
   * negative one, so a tie goes away from zero; rounding keeps the unit
   * interval.
   */
  function ToFixed(x: real, d: nat): (r: real)
    ensures HasDecimals(r, d)
    ensures x - 1.0 / (2 * Pow10(d)) as real <= r <= x + 1.0 / (2 * Pow10(d)) as real
    ensures x >= 0.0 ==> x - 1.0 / (2 * Pow10(d)) as real < r
    ensures x < 0.0 ==> r < x + 1.0 / (2 * Pow10(d)) as real
    ensures 0.0 <= x <= 1.0 ==> 0.0 <= r <= 1.0
  {
    var p := Pow10(d) as real;
    var a := if x < 0.0 then -x else x;
    var n := ScaledDigits(a, d);
    ScaledDigitsBounds(a, d);
    var m := n as real / p;
    assert a - 1.0 / (2.0 * p) < m <= a + 1.0 / (2.0 * p);
    WholeUnits(n, d);
    if x < 0.0 then -m else m
  }

  /**
   * The contract of `ToFixed` determines it: a number with at most `d`
   * decimals in the same half-open window around `x` is the rounded value.
   */
  lemma ToFixedUnique(x: real, d: nat, r: real)
    requires HasDecimals(r, d)
    requires x >= 0.0 ==> x - 1.0 / (2 * Pow10(d)) as real < r <= x + 1.0 / (2 * Pow10(d)) as real
    requires x < 0.0 ==> x - 1.0 / (2 * Pow10(d)) as real <= r < x + 1.0 / (2 * Pow10(d)) as real
    ensures r == ToFixed(x, d)
  {
    SameRounding(x, d, r, ToFixed(x, d));
  }

  /** Two numbers with at most `d` decimals in the same rounding window around `x` are equal. */
  lemma SameRounding(x: real, d: nat, r: real, f: real)
    requires HasDecimals(r, d) && HasDecimals(f, d)
    requires x >= 0.0 ==> x - 1.0 / (2 * Pow10(d)) as real < r <= x + 1.0 / (2 * Pow10(d)) as real
    requires x >= 0.0 ==> x - 1.0 / (2 * Pow10(d)) as real < f <= x + 1.0 / (2 * Pow10(d)) as real
    requires x < 0.0 ==> x - 1.0 / (2 * Pow10(d)) as real <= r < x + 1.0 / (2 * Pow10(d)) as real
    requires x < 0.0 ==> x - 1.0 / (2 * Pow10(d)) as real <= f < x + 1.0 / (2 * Pow10(d)) as real
    ensures r == f
  {
    ScaleOf(d);
    ScaledRounding(x, r, f, Pow10(d) as real, 1.0 / (2 * Pow10(d)) as real);
  }

  lemma ScaleOf(d: nat)
    ensures 1.0 / (2 * Pow10(d)) as real == 1.0 / (2.0 * Pow10(d) as real)
  {
    assert (2 * Pow10(d)) as real == 2.0 * Pow10(d) as real;
  }


  /** The same with the scale `p` left abstract. */
  lemma ScaledRounding(x: real, r: real, f: real, p: real, h: real)
    requires p > 0.0 && h == 1.0 / (2.0 * p)
    requires Whole(r * p) && Whole(f * p)
    requires x >= 0.0 ==> x - h < r <= x + h && x - h < f <= x + h
    requires x < 0.0 ==> x - h <= r < x + h && x - h <= f < x + h
    ensures r == f
  {
    ScaleWindow(x, r, p, h);
    ScaleWindow(x, f, p, h);
    SameWhole(x * p, r * p, f * p, x >= 0.0);
    CancelScale(r, f, p);
  }

  /** Scaling by `p` turns a window of half-width `1/(2p)` into one of half-width 1/2. */
  lemma ScaleWindow(x: real, r: real, p: real, h: real)
    requires p > 0.0 && h == 1.0 / (2.0 * p)
    ensures x - h < r ==> x * p - 0.5 < r * p
    ensures r <= x + h ==> r * p <= x * p + 0.5
    ensures x - h <= r ==> x * p - 0.5 <= r * p
    ensures r < x + h ==> r * p < x * p + 0.5
  {
    assert h * p == 0.5;
  }

  /** Two whole numbers in the same half-open window of width 1 around `s` are equal. */
  lemma SameWhole(s: real, a: real, b: real, up: bool)
    requires Whole(a) && Whole(b)
    requires up ==> s - 0.5 < a <= s + 0.5 && s - 0.5 < b <= s + 0.5
    requires !up ==> s - 0.5 <= a < s + 0.5 && s - 0.5 <= b < s + 0.5
    ensures a == b
  {
    var i, j := a.Floor, b.Floor;
    assert -1.0 < a - b < 1.0;
    assert (i - j) as real == a - b;
    assert -1 < i - j < 1;
  }

  lemma CancelScale(r: real, f: real, p: real)
    requires p > 0.0 && r * p == f * p
    ensures r == f
  {}

  /** `n / 10^d` and its negation have at most `d` decimals. */
  lemma WholeUnits(n: int, d: nat)
    ensures HasDecimals(n as real / Pow10(d) as real, d)
    ensures HasDecimals(-(n as real / Pow10(d) as real), d)
  {
    WholeOver(n, Pow10(d) as real);
  }

  lemma WholeOver(n: int, p: real)
    requires p > 0.0
    ensures var m := n as real / p; Whole(m * p) && Whole(-m * p)
  {
    var m := n as real / p;
    assert m * p == n as real;
    assert -m * p == (-n) as real;
  }

  lemma ScaledDigitsBounds(a: real, d: nat)
    requires a >= 0.0
    ensures var p := Pow10(d) as real; var m := ScaledDigits(a, d) as real / p;
      a - 1.0 / (2.0 * p) < m <= a + 1.0 / (2.0 * p) && (a <= 1.0 ==> m <= 1.0)
  {
    var p := Pow10(d) as real;
    var n := ScaledDigits(a, d);
    assert a * p - 0.5 < n as real <= a * p + 0.5;
    RoundBounds(a, p, n as real);
    if a <= 1.0 {
      UnitBound(a, p, n);
    }
  }

  lemma RoundBounds(a: real, p: real, n: real)
    requires p > 0.0 && a * p - 0.5 < n <= a * p + 0.5
    ensures a - 1.0 / (2.0 * p) < n / p <= a + 1.0 / (2.0 * p)
  {
    var m := n / p;
    var h := 1.0 / (2.0 * p);
    assert n == m * p;
    assert h * p == 0.5;
    assert (m - a) * p <= h * p;
    CancelFactor(m - a, h, p);
    assert (a - m) * p < h * p;
    CancelFactorStrict(a - m, h, p);
  }

  lemma CancelFactor(u: real, w: real, p: real)
    requires p > 0.0 && u * p <= w * p
    ensures u <= w
  {}

  lemma CancelFactorStrict(u: real, w: real, p: real)
    requires p > 0.0 && u * p < w * p
    ensures u < w
  {}

  lemma UnitBound(a: real, p: real, n: int)
    requires p > 0.0 && 0.0 <= a <= 1.0 && n as real <= a * p + 0.5 && p == p.Floor as real
    ensures n as real / p <= 1.0
  {
    assert a * p <= p;
    assert n <= p.Floor;
  }

  // ---------------------------------------------------------------- text

  function DigitChar(d: nat): (c: char)
    requires d < 10
    ensures '0' <= c <= '9'
  {
    (48 + d) as char
  }

  /** The decimal digits of `n`, without leading zeros. */
  function NatText(n: nat): (s: string)
    ensures |s| >= 1
    ensures forall i :: 0 <= i < |s| ==> '0' <= s[i] <= '9'
  {
    if n < 10 then [DigitChar(n)] else NatText(n / 10) + [DigitChar(n % 10)]
  }

  function PadZeros(s: string, width: nat): (r: string)
    ensures |r| >= width
    decreases width - |s|
  {
    if |s| >= width then s else PadZeros("0" + s, width)
  }

  /** The text of `x.toFixed(d)`: sign, integer digits, `.` and exactly `d` decimals. */
  function FixedText(x: real, d: nat): string {
    var a := if x < 0.0 then -x else x;
    (if x < 0.0 then "-" else "") + ScaledText(ScaledDigits(a, d), d)
  }

  /** The text of `n / 10^d` with exactly `d` decimals. */
  function ScaledText(n: nat, d: nat): string {
    var p := Pow10(d);
    NatText(Quotient(n, p)) + (if d == 0 then "" else "." + PadZeros(NatText(Remainder(n, p)), d))
  }

  function Quotient(n: nat, p: nat): nat
    requires p >= 1
  {
    n / p
  }

  function Remainder(n: nat, p: nat): nat
    requires p >= 1
  {
    n % p
  }

  /**
   * `String(k / 100)`: the shortest decimal text of a number with at most two
   * decimals (`30`, `29.5`, `0.05`, `-12.34`).
   */
  function HundredthsText(k: int): string {
    var a := if k < 0 then -k else k;
    var frac := a % 100;
    (if k < 0 then "-" else "")
      + NatText(a / 100)
      + (if frac == 0 then ""
         else if frac % 10 == 0 then "." + NatText(frac / 10)
         else "." + PadZeros(NatText(frac), 2))
  }
}
