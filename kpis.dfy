/**
 * The numeric part of `computeKPIs` (src/utils/dataCleaner.js:51-63): the
 * revenue, the order count, the anomaly rate and the quality score of the
 * annotated view, each a `reduce` over the rows.
 */
module Kpis {
  import opened JsNumber
  import opened Records

  /** A row of the view carries at least one reason. */
  predicate Flagged(v: ViewRow) {
    v.reasons != []
  }

  /**
   * What one row adds to the revenue: its total when finite, else price times
   * quantity when both are finite, else nothing.
   */
  function RowRevenue(r: Row): real {
    if r.totalAmount.Fin? then r.totalAmount.v
    else if r.price.Fin? && r.quantity.Fin? then r.price.v * r.quantity.v
    else 0.0
  }

  /** The part of a row's revenue the daily sales also count: a finite total. */
  function FiniteTotal(r: Row): real {
    if r.totalAmount.Fin? then r.totalAmount.v else 0.0
  }

  /** The part only the revenue counts: price times quantity standing in for a missing total. */
  function Fallback(r: Row): real {
    if r.totalAmount.NaN? && r.price.Fin? && r.quantity.Fin? then r.price.v * r.quantity.v else 0.0
  }

  /** `revenueNum`: the sum of the rows' contributions, left to right. */
  function Revenue(view: seq<ViewRow>): real
    decreases |view|
  {
    if view == [] then 0.0
    else Revenue(view[..|view| - 1]) + RowRevenue(view[|view| - 1].row)
  }

  /** The sum of the finite totals. */
  function TotalsSum(view: seq<ViewRow>): real
    decreases |view|
  {
    if view == [] then 0.0
    else TotalsSum(view[..|view| - 1]) + FiniteTotal(view[|view| - 1].row)
  }

  /** The sum of the price-times-quantity stand-ins. */
  function FallbackSum(view: seq<ViewRow>): real
    decreases |view|
  {
    if view == [] then 0.0
    else FallbackSum(view[..|view| - 1]) + Fallback(view[|view| - 1].row)
  }

  /** Every row of the view has a finite `total_amount`. */
  predicate TotalsFinite(view: seq<ViewRow>) {
    forall i :: 0 <= i < |view| ==> view[i].row.totalAmount.Fin?
  }

  /**
   * The revenue splits into the finite totals and the stand-ins, and the
   * stand-ins vanish when every total is finite.
   */
  lemma {:induction false} RevenueSplit(view: seq<ViewRow>)
    ensures Revenue(view) == TotalsSum(view) + FallbackSum(view)
    ensures TotalsFinite(view) ==> FallbackSum(view) == 0.0
    decreases |view|
  {
    if view != [] {
      var init := view[..|view| - 1];
      RevenueSplit(init);
      assert TotalsFinite(view) ==> TotalsFinite(init) by {
        if TotalsFinite(view) {
          forall i | 0 <= i < |init| ensures init[i].row.totalAmount.Fin? {
            assert init[i] == view[i];
          }
        }
      }
    }
  }

  /** The revenue is additive over a split of the view. */
  lemma {:induction false} RevenueAppend(a: seq<ViewRow>, b: seq<ViewRow>)
    ensures Revenue(a + b) == Revenue(a) + Revenue(b)
    decreases |b|
  {
    if b != [] {
      var ab := a + b;
      assert ab[..|ab| - 1] == a + b[..|b| - 1];
      assert ab[|ab| - 1] == b[|b| - 1];
      RevenueAppend(a, b[..|b| - 1]);
    } else {
      assert a + b == a;
    }
  }

  /** `VIEW.filter(r => (r._reasons || []).length).length`. */
  function AnomalyCount(view: seq<ViewRow>): (n: nat)
    ensures n <= |view|
    ensures n == 0 <==> forall i :: 0 <= i < |view| ==> !Flagged(view[i])
    ensures n == |view| <==> forall i :: 0 <= i < |view| ==> Flagged(view[i])
    decreases |view|
  {
    if view == [] then 0
    else
      var init := view[..|view| - 1];
      var n := AnomalyCount(init);
      assert forall i :: 0 <= i < |init| ==> init[i] == view[i];
      n + (if Flagged(view[|view| - 1]) then 1 else 0)
  }

  /** Every `_score` of the view lies in [0, 1]. */
  predicate ScoresInUnit(view: seq<ViewRow>) {
    forall i :: 0 <= i < |view| ==> 0.0 <= view[i].score <= 1.0
  }

  /** `VIEW.reduce((s, r) => s + (r._score || 0), 0)`; `_score` is always a number. */
  function ScoreTotal(view: seq<ViewRow>): (t: real)
    ensures ScoresInUnit(view) ==> 0.0 <= t <= |view| as real
    decreases |view|
  {
    if view == [] then 0.0
    else
      var init := view[..|view| - 1];
      assert ScoresInUnit(view) ==> ScoresInUnit(init) by {
        assert forall i :: 0 <= i < |init| ==> init[i] == view[i];
      }
      ScoreTotal(init) + view[|view| - 1].score
  }

  /**
   * The KPIs: `revenueNum`, `orders` as a count, the anomaly rate and the
   * quality score both as numbers and as their `toFixed(1)` texts. The
   * currency and thousands formatting of `revenue` and `orders` is not modelled.
   */
  datatype Kpis = Kpis(
    revenueNum: real,
    orders: nat,
    anomalyCount: nat,
    rate: real,
    globalScore: real,
    quality: real,
    anomalyRate: string,
    qualityScore: string)

  /** `orders ? (anomCount / orders) * 100 : 0`. */
  function Rate(anom: nat, orders: nat): (rate: real)
    requires anom <= orders
    ensures 0.0 <= rate <= 100.0
    ensures orders == 0 ==> rate == 0.0
    ensures orders > 0 ==> rate * orders as real == 100.0 * anom as real
    ensures rate == 100.0 <==> orders > 0 && anom == orders
  {
    if orders > 0 then
      var q := anom as real / orders as real;
      RatioAtMostOne(anom as real, orders as real);
      assert q * orders as real == anom as real;
      q * 100.0
    else 0.0
  }

  /** `total / (orders || 1)`: the mean score, 0 for an empty view. */
  function MeanScore(total: real, orders: nat): (g: real)
    ensures g * (if orders == 0 then 1.0 else orders as real) == total
    ensures 0.0 <= total <= orders as real ==> 0.0 <= g <= 1.0
  {
    if orders == 0 then total
    else
      assert 0.0 <= total <= orders as real ==> total / orders as real <= 1.0 by {
        if 0.0 <= total <= orders as real { RatioAtMostOne(total, orders as real); }
      }
      total / orders as real
  }

  /** `computeKPIs(VIEW)`. */
  function ComputeKpis(view: seq<ViewRow>): (k: Kpis)
    ensures k.revenueNum == Revenue(view) && k.orders == |view|
    ensures k.anomalyCount == AnomalyCount(view) <= k.orders
    ensures k.rate == Rate(k.anomalyCount, k.orders) && 0.0 <= k.rate <= 100.0
    ensures k.rate == 100.0 <==> k.orders > 0 && forall i :: 0 <= i < |view| ==> Flagged(view[i])
    ensures k.globalScore == MeanScore(ScoreTotal(view), k.orders)
    ensures k.orders == 0 ==> k.rate == 0.0 && k.globalScore == 0.0 && k.quality == 100.0
    ensures k.quality == 100.0 * (1.0 - k.globalScore)
    ensures ScoresInUnit(view) ==> 0.0 <= k.globalScore <= 1.0 && 0.0 <= k.quality <= 100.0
    ensures k.anomalyRate == FixedText(k.rate, 1) + "%"
    ensures k.qualityScore == FixedText(k.quality, 1) + " / 100"
  {
    var orders := |view|;
    var anom := AnomalyCount(view);
    var rate := Rate(anom, orders);
    var global := MeanScore(ScoreTotal(view), orders);
    var quality := 100.0 * (1.0 - global);
    Kpis(Revenue(view), orders, anom, rate, global, quality,
      FixedText(rate, 1) + "%", FixedText(quality, 1) + " / 100")
  }

  lemma RatioAtMostOne(a: real, n: real)
    requires 0.0 <= a <= n && n > 0.0
    ensures a / n <= 1.0
  {}
}
