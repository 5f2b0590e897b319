/**
 * `buildChartsData` (src/utils/dataCleaner.js:66-97): the daily sales and
 * anomaly series over the sorted day keys, and the day-by-country heatmap of
 * flagged rows, built with Maps in loops as the source does. The functions
 * below say what each Map entry and each cell holds; the lemmas show that the
 * series and the grid account for every flagged row exactly once.
 */
module Charts {
  import opened JsNumber
  import opened Records
  import opened Sorting
  import opened Kpis

  /** `r.order_date_str || 'Invalide'`. */
  function DayKey(v: ViewRow): string {
    if v.row.orderDateStr == "" then "Invalide" else v.row.orderDateStr
  }

  /** A row whose date text has no `|` has a day key without one: 'Invalide' has none. */
  lemma DayKeyOf(v: ViewRow)
    requires '|' !in v.row.orderDateStr
    ensures '|' !in DayKey(v)
  {
    var w := "Invalide";
    assert forall k :: 0 <= k < |w| ==> w[k] != '|';
  }

  /** `r.country || 'Inconnu'`. */
  function CountryKey(v: ViewRow): string {
    if v.row.country == "" then "Inconnu" else v.row.country
  }

  /** The key of a heatmap cell, `day + '||' + country`. */
  function CellKey(day: string, country: string): string {
    day + "||" + country
  }

  /** The day keys occurring in the view. */
  function DaySet(view: seq<ViewRow>): set<string>
    decreases |view|
  {
    if view == [] then {} else DaySet(view[..|view| - 1]) + {DayKey(view[|view| - 1])}
  }

  /** The country keys occurring in the view. */
  function CountrySet(view: seq<ViewRow>): set<string>
    decreases |view|
  {
    if view == [] then {} else CountrySet(view[..|view| - 1]) + {CountryKey(view[|view| - 1])}
  }

  /** The finite totals of the rows of day `d`: the final `byDay` entry of `d`. */
  function DaySales(view: seq<ViewRow>, d: string): real
    decreases |view|
  {
    if view == [] then 0.0
    else
      var v := view[|view| - 1];
      DaySales(view[..|view| - 1], d) + (if DayKey(v) == d then FiniteTotal(v.row) else 0.0)
  }

  /** The number of flagged rows of day `d`: the final `byDayAnom` entry of `d`. */
  function DayAnomalies(view: seq<ViewRow>, d: string): nat
    decreases |view|
  {
    if view == [] then 0
    else
      var v := view[|view| - 1];
      DayAnomalies(view[..|view| - 1], d) + (if DayKey(v) == d && Flagged(v) then 1 else 0)
  }

  /** The number of flagged rows whose cell key is `key`: the final `countMap` entry. */
  function CellCount(view: seq<ViewRow>, key: string): nat
    decreases |view|
  {
    if view == [] then 0
    else
      var v := view[|view| - 1];
      CellCount(view[..|view| - 1], key)
        + (if Flagged(v) && CellKey(DayKey(v), CountryKey(v)) == key then 1 else 0)
  }

  /** One heatmap point: day index `x`, country index `y`, count `v`. */
  datatype Cell = Cell(x: nat, y: nat, v: nat)

  /** The cells of country `c` at row `y`, one per day in order. */
  function GridRow(view: seq<ViewRow>, days: seq<string>, y: nat, c: string): (row: seq<Cell>)
    ensures |row| == |days|
  {
    seq(|days|, xi requires 0 <= xi < |days| => Cell(xi, y, CellCount(view, CellKey(days[xi], c))))
  }

  /** The whole matrix, country by country. */
  function Grid(view: seq<ViewRow>, days: seq<string>, countries: seq<string>): (g: seq<Cell>)
    decreases |countries|
  {
    if countries == [] then []
    else
      var n := |countries| - 1;
      Grid(view, days, countries[..n]) + GridRow(view, days, n, countries[n])
  }

  /** The value `buildChartsData` returns. */
  datatype ChartsData = ChartsData(
    days: seq<string>,
    sales: seq<real>,
    anomalies: seq<nat>,
    countries: seq<string>,
    matrix: seq<Cell>)

  /** `keys` is the set `s` in strictly increasing string order. */
  ghost predicate SortedKeys(keys: seq<string>, s: set<string>) {
    StrictlyInOrder(keys) && forall k :: k in keys <==> k in s
  }

  /**
   * The daily series: the sorted day keys, and aligned with them the day's
   * finite totals rounded to two decimals and the day's flagged rows.
   */
  ghost predicate Daily(view: seq<ViewRow>, c: ChartsData) {
    && SortedKeys(c.days, DaySet(view))
    && |c.sales| == |c.days| && |c.anomalies| == |c.days|
    && (forall k :: 0 <= k < |c.days| ==> c.sales[k] == ToFixed(DaySales(view, c.days[k]), 2))
    && (forall k :: 0 <= k < |c.days| ==> c.anomalies[k] == DayAnomalies(view, c.days[k]))
  }

  /** The heatmap: the sorted country keys and the grid over days and countries. */
  ghost predicate Heatmap(view: seq<ViewRow>, c: ChartsData) {
    SortedKeys(c.countries, CountrySet(view)) && c.matrix == Grid(view, c.days, c.countries)
  }

  // ------------------------------------------------------------------ the loops

  lemma DaySetSnoc(view: seq<ViewRow>, i: int)
    requires 0 <= i < |view|
    ensures DaySet(view[..i + 1]) == DaySet(view[..i]) + {DayKey(view[i])}
    ensures CountrySet(view[..i + 1]) == CountrySet(view[..i]) + {CountryKey(view[i])}
  {
    assert view[..i + 1][..i] == view[..i];
  }

  /**
   * What the first loop of `buildChartsData` has built after the rows `seen`:
   * one entry per day key in both Maps, inserted in the order `dayOrder`,
   * holding the day's finite totals and its flagged rows.
   */
  ghost predicate Tallied(byDay: map<string, real>, byDayAnom: map<string, nat>, dayOrder: seq<string>, seen: seq<ViewRow>) {
    Keyed(byDay, byDayAnom, dayOrder, DaySet(seen)) && Summed(byDay, byDayAnom, seen)
  }

  /** Both Maps have the keys `keys`, and `dayOrder` lists each of them once. */
  ghost predicate Keyed(byDay: map<string, real>, byDayAnom: map<string, nat>, dayOrder: seq<string>, keys: set<string>) {
    && Distinct(dayOrder)
    && (forall d :: d in dayOrder <==> d in keys)
    && (forall d :: d in byDay <==> d in keys)
    && (forall d :: d in byDayAnom <==> d in keys)
  }

  /** Each entry holds its day's finite totals and flagged rows among `seen`. */
  ghost predicate Summed(byDay: map<string, real>, byDayAnom: map<string, nat>, seen: seq<ViewRow>) {
    && (forall d :: d in byDay ==> byDay[d] == DaySales(seen, d))
    && (forall d :: d in byDayAnom ==> byDayAnom[d] == DayAnomalies(seen, d))
  }

  lemma KeyedStep(byDay: map<string, real>, byDayAnom: map<string, nat>, dayOrder: seq<string>, keys: set<string>, day: string, x: real, n: nat)
    requires Keyed(byDay, byDayAnom, dayOrder, keys)
    ensures Keyed(byDay[day := x], byDayAnom[day := n], if day in byDay then dayOrder else dayOrder + [day], keys + {day})
  {
    var order := if day in byDay then dayOrder else dayOrder + [day];
    if day !in byDay {
      assert day !in dayOrder;
      forall a, b | 0 <= a < b < |order| ensures order[a] != order[b] {
        if b == |dayOrder| { assert order[a] in dayOrder; }
        else { assert order[a] == dayOrder[a] && order[b] == dayOrder[b]; }
      }
    }
  }

  lemma SummedStep(byDay: map<string, real>, byDayAnom: map<string, nat>, view: seq<ViewRow>, i: int)
    requires 0 <= i < |view|
    requires Summed(byDay, byDayAnom, view[..i])
    requires forall d :: d in byDay <==> d in byDayAnom
    requires forall d :: d in byDay <==> d in DaySet(view[..i])
    ensures var v := view[i]; var day := DayKey(v);
      Summed(
        byDay[day := (if day in byDay then byDay[day] else 0.0) + FiniteTotal(v.row)],
        byDayAnom[day := (if day in byDayAnom then byDayAnom[day] else 0) + (if Flagged(v) then 1 else 0)],
        view[..i + 1])
  {
    PrefixSnoc(view, i);
    var day := DayKey(view[i]);
    assert day !in byDay ==> DaySales(view[..i], day) == 0.0 && DayAnomalies(view[..i], day) == 0 by {
      if day !in byDay { Unseen(view[..i], day); }
    }
  }

  /** A day with no row has no sales and no anomalies. */
  lemma {:induction false} Unseen(seen: seq<ViewRow>, d: string)
    requires d !in DaySet(seen)
    ensures DaySales(seen, d) == 0.0 && DayAnomalies(seen, d) == 0
    decreases |seen|
  {
    if seen != [] { Unseen(seen[..|seen| - 1], d); }
  }

  /** One iteration of the first loop, from the Maps `byDay`, `byDayAnom` to `byDay'`, `byDayAnom'`, keeps `Tallied`. */
  lemma TalliedStep(
    byDay: map<string, real>, byDayAnom: map<string, nat>, dayOrder: seq<string>,
    byDay': map<string, real>, byDayAnom': map<string, nat>, dayOrder': seq<string>,
    view: seq<ViewRow>, i: int)
    requires 0 <= i < |view|
    requires Tallied(byDay, byDayAnom, dayOrder, view[..i])
    requires var day := DayKey(view[i]);
      && byDay' == byDay[day := (if day in byDay then byDay[day] else 0.0) + FiniteTotal(view[i].row)]
      && byDayAnom' == byDayAnom[day := (if day in byDayAnom then byDayAnom[day] else 0) + (if Flagged(view[i]) then 1 else 0)]
      && dayOrder' == if day in byDay then dayOrder else dayOrder + [day]
    ensures Tallied(byDay', byDayAnom', dayOrder', view[..i + 1])
  {
    var v := view[i];
    var day := DayKey(v);
    DaySetSnoc(view, i);
    KeyedStep(byDay, byDayAnom, dayOrder, DaySet(view[..i]), day, byDay'[day], byDayAnom'[day]);
    SummedStep(byDay, byDayAnom, view, i);
  }

  /** The first loop: `byDay`, `byDayAnom` and the order their keys were inserted in. */
  method DailyTotals(view: seq<ViewRow>)
    returns (byDay: map<string, real>, byDayAnom: map<string, nat>, dayOrder: seq<string>)
    ensures Tallied(byDay, byDayAnom, dayOrder, view)
  {
    byDay, byDayAnom, dayOrder := map[], map[], [];
    var i := 0;
    while i < |view|
      invariant 0 <= i <= |view|
      invariant Tallied(byDay, byDayAnom, dayOrder, view[..i])
    {
      byDay, byDayAnom, dayOrder := AddDay(byDay, byDayAnom, dayOrder, view, i);
      i := i + 1;
    }
    assert view[..|view|] == view;
  }

  /** The body of the first loop: row `i` adds its total and its flag to its day. */
  method AddDay(byDay: map<string, real>, byDayAnom: map<string, nat>, dayOrder: seq<string>, view: seq<ViewRow>, i: int)
    returns (byDay': map<string, real>, byDayAnom': map<string, nat>, dayOrder': seq<string>)
    requires 0 <= i < |view| && Tallied(byDay, byDayAnom, dayOrder, view[..i])
    ensures Tallied(byDay', byDayAnom', dayOrder', view[..i + 1])
  {
    var r := view[i];
    var day := DayKey(r);
    dayOrder' := if day in byDay then dayOrder else dayOrder + [day];
    byDay' := byDay[day := (if day in byDay then byDay[day] else 0.0) + FiniteTotal(r.row)];
    byDayAnom' := byDayAnom[day := (if day in byDayAnom then byDayAnom[day] else 0) + (if Flagged(r) then 1 else 0)];
    TalliedStep(byDay, byDayAnom, dayOrder, byDay', byDayAnom', dayOrder', view, i);
  }

  /** `[...new Set(VIEW.map(r => r.country || 'Inconnu'))]`: the countries in order of first appearance. */
  method CountryOrder(view: seq<ViewRow>) returns (order: seq<string>)
    ensures Distinct(order)
    ensures forall c :: c in order <==> c in CountrySet(view)
  {
    var seen: set<string> := {};
    order := [];
    var i := 0;
    while i < |view|
      invariant 0 <= i <= |view|
      invariant Distinct(order)
      invariant forall c :: c in order <==> c in CountrySet(view[..i])
      invariant forall c :: c in seen <==> c in order
    {
      var r := view[i];
      var country := if r.row.country == "" then "Inconnu" else r.row.country;
      DaySetSnoc(view, i);
      if country !in seen {
        seen := seen + {country};
        order := order + [country];
      }
      i := i + 1;
    }
    assert view[..|view|] == view;
  }

  /** The `countMap` loop: flagged rows counted by cell key. */
  method CountCells(view: seq<ViewRow>) returns (countMap: map<string, nat>)
    ensures forall key :: key in countMap ==> countMap[key] == CellCount(view, key)
    ensures forall key :: key !in countMap ==> CellCount(view, key) == 0
  {
    countMap := map[];
    var i := 0;
    while i < |view|
      invariant 0 <= i <= |view|
      invariant forall key :: key in countMap ==> countMap[key] == CellCount(view[..i], key)
      invariant forall key :: key !in countMap ==> CellCount(view[..i], key) == 0
    {
      var r := view[i];
      PrefixSnoc(view, i);
      if r.reasons != [] {
        var dkey := if r.row.orderDateStr == "" then "Invalide" else r.row.orderDateStr;
        var ckey := if r.row.country == "" then "Inconnu" else r.row.country;
        var key := dkey + "||" + ckey;
        countMap := countMap[key := (if key in countMap then countMap[key] else 0) + 1];
      }
      i := i + 1;
    }
    assert view[..|view|] == view;
  }

  /** The nested loops that push one point per (country, day), country-major. */
  method Matrix(view: seq<ViewRow>, days: seq<string>, countries: seq<string>, countMap: map<string, nat>)
    returns (matrix: seq<Cell>)
    requires forall key :: key in countMap ==> countMap[key] == CellCount(view, key)
    requires forall key :: key !in countMap ==> CellCount(view, key) == 0
    ensures matrix == Grid(view, days, countries)
  {
    matrix := [];
    var yi := 0;
    while yi < |countries|
      invariant 0 <= yi <= |countries|
      invariant matrix == Grid(view, days, countries[..yi])
    {
      var country := countries[yi];
      var xi := 0;
      while xi < |days|
        invariant 0 <= xi <= |days|
        invariant matrix == Grid(view, days, countries[..yi]) + GridRow(view, days, yi, country)[..xi]
      {
        var day := days[xi];
        var key := day + "||" + country;
        matrix := matrix + [Cell(xi, yi, if key in countMap then countMap[key] else 0)];
        assert GridRow(view, days, yi, country)[..xi + 1]
          == GridRow(view, days, yi, country)[..xi] + [GridRow(view, days, yi, country)[xi]];
        xi := xi + 1;
      }
      assert countries[..yi + 1][..yi] == countries[..yi];
      assert GridRow(view, days, yi, country)[..|days|] == GridRow(view, days, yi, country);
      yi := yi + 1;
    }
    assert countries[..|countries|] == countries;
  }

  /** `days.map(...)` twice: each day's rounded sales and its flagged-row count. */
  method Series(view: seq<ViewRow>, days: seq<string>, byDay: map<string, real>, byDayAnom: map<string, nat>)
    returns (sales: seq<real>, anomalies: seq<nat>)
    requires forall d :: d in byDay ==> byDay[d] == DaySales(view, d)
    requires forall d :: d in byDayAnom ==> byDayAnom[d] == DayAnomalies(view, d)
    requires forall d :: d in days ==> d in byDay && d in byDayAnom
    ensures |sales| == |days| && |anomalies| == |days|
    ensures forall k :: 0 <= k < |days| ==> sales[k] == ToFixed(DaySales(view, days[k]), 2)
    ensures forall k :: 0 <= k < |days| ==> anomalies[k] == DayAnomalies(view, days[k])
  {
    sales, anomalies := [], [];
    var k := 0;
    while k < |days|
      invariant 0 <= k <= |days|
      invariant |sales| == k && |anomalies| == k
      invariant forall j :: 0 <= j < k ==> sales[j] == ToFixed(DaySales(view, days[j]), 2)
      invariant forall j :: 0 <= j < k ==> anomalies[j] == DayAnomalies(view, days[j])
    {
      var d := days[k];
      sales := sales + [ToFixed(if d in byDay then byDay[d] else 0.0, 2)];
      anomalies := anomalies + [if d in byDayAnom then byDayAnom[d] else 0];
      k := k + 1;
    }
  }

  /** `buildChartsData(VIEW)`. */
  method BuildChartsData(view: seq<ViewRow>) returns (c: ChartsData)
    ensures Daily(view, c)
    ensures Heatmap(view, c)
  {
    var byDay, byDayAnom, dayOrder := DailyTotals(view);
    var days := SortStrings(dayOrder);
    SortDistinct(dayOrder);
    var sales, anomalies := Series(view, days, byDay, byDayAnom);
    var countryOrder := CountryOrder(view);
    var countries := SortStrings(countryOrder);
    SortDistinct(countryOrder);
    var countMap := CountCells(view);
    var matrix := Matrix(view, days, countries, countMap);
    c := ChartsData(days, sales, anomalies, countries, matrix);
  }

  // ------------------------------------------------------------------ the daily series account for every row

  /** How many times `x` occurs in `ks`. */
  function Occurs(ks: seq<string>, x: string): nat
    decreases |ks|
  {
    if ks == [] then 0
    else Occurs(ks[..|ks| - 1], x) + (if ks[|ks| - 1] == x then 1 else 0)
  }

  lemma {:induction false} OccursDistinct(ks: seq<string>, x: string)
    requires Distinct(ks)
    ensures Occurs(ks, x) == if x in ks then 1 else 0
    decreases |ks|
  {
    if ks != [] {
      var init := ks[..|ks| - 1];
      DistinctInit(ks);
      OccursDistinct(init, x);
      assert ks == init + [ks[|ks| - 1]];
    }
  }

  /** Strictly increasing keys are pairwise distinct. */
  lemma StrictDistinct(ks: seq<string>)
    requires StrictlyInOrder(ks)
    ensures Distinct(ks)
  {
    forall a, b | 0 <= a < b < |ks| ensures ks[a] != ks[b] {
      BelowIrreflexive(ks[a]);
    }
  }

  /** The flagged rows of the days `ks`, day by day. */
  function AnomaliesOver(view: seq<ViewRow>, ks: seq<string>): nat
    decreases |ks|
  {
    if ks == [] then 0
    else AnomaliesOver(view, ks[..|ks| - 1]) + DayAnomalies(view, ks[|ks| - 1])
  }

  /** The finite totals of the days `ks`, day by day. */
  function SalesOver(view: seq<ViewRow>, ks: seq<string>): real
    decreases |ks|
  {
    if ks == [] then 0.0
    else SalesOver(view, ks[..|ks| - 1]) + DaySales(view, ks[|ks| - 1])
  }

  lemma {:induction false} AnomaliesOverSnoc(view: seq<ViewRow>, v: ViewRow, ks: seq<string>)
    ensures AnomaliesOver(view + [v], ks) == AnomaliesOver(view, ks) + (if Flagged(v) then Occurs(ks, DayKey(v)) else 0)
    decreases |ks|
  {
    if ks != [] {
      AnomaliesOverSnoc(view, v, ks[..|ks| - 1]);
      DailySales(view, v, ks[|ks| - 1]);
    }
  }

  lemma {:induction false} SalesOverSnoc(view: seq<ViewRow>, v: ViewRow, ks: seq<string>)
    requires Distinct(ks)
    ensures SalesOver(view + [v], ks) == SalesOver(view, ks) + (if DayKey(v) in ks then FiniteTotal(v.row) else 0.0)
    decreases |ks|
  {
    if ks != [] {
      var init, k := ks[..|ks| - 1], ks[|ks| - 1];
      DistinctInit(ks);
      SalesOverSnoc(view, v, init);
      DailySales(view, v, k);
      assert ks == init + [k];
      assert k !in init;
    }
  }

  lemma DistinctInit(ks: seq<string>)
    requires Distinct(ks) && ks != []
    ensures Distinct(ks[..|ks| - 1]) && ks[|ks| - 1] !in ks[..|ks| - 1]
  {
    var init := ks[..|ks| - 1];
    forall a, b | 0 <= a < b < |init| ensures init[a] != init[b] {
      assert init[a] == ks[a] && init[b] == ks[b];
    }
  }

  lemma DailySales(seen: seq<ViewRow>, v: ViewRow, d: string)
    ensures DaySales(seen + [v], d) == DaySales(seen, d) + (if DayKey(v) == d then FiniteTotal(v.row) else 0.0)
    ensures DayAnomalies(seen + [v], d) == DayAnomalies(seen, d) + (if DayKey(v) == d && Flagged(v) then 1 else 0)
  {
    assert (seen + [v])[..|seen|] == seen;
  }

  /**
   * Summed over distinct keys that include every day of the view, the
   * per-day counts give the flagged rows and the per-day sales give the
   * finite totals: each row lands in exactly one day.
   */
  lemma {:induction false} DailyPartition(view: seq<ViewRow>, ks: seq<string>)
    requires Distinct(ks)
    requires forall d :: d in DaySet(view) ==> d in ks
    ensures AnomaliesOver(view, ks) == AnomalyCount(view)
    ensures SalesOver(view, ks) == TotalsSum(view)
    decreases |view|
  {
    if view == [] {
      EmptyOver(ks);
    } else {
      var init, v := view[..|view| - 1], view[|view| - 1];
      assert view == init + [v];
      DailyPartition(init, ks);
      AnomaliesOverSnoc(init, v, ks);
      SalesOverSnoc(init, v, ks);
      OccursDistinct(ks, DayKey(v));
    }
  }

  lemma {:induction false} EmptyOver(ks: seq<string>)
    ensures AnomaliesOver([], ks) == 0 && SalesOver([], ks) == 0.0
    decreases |ks|
  {
    if ks != [] { EmptyOver(ks[..|ks| - 1]); }
  }

  /** `anomalies.reduce((a, b) => a + b, 0)`. */
  function NatSum(s: seq<nat>): nat
    decreases |s|
  {
    if s == [] then 0 else NatSum(s[..|s| - 1]) + s[|s| - 1]
  }

  /** `sales.reduce((a, b) => a + (+b || 0), 0)`: the sales are numbers, never NaN. */
  function RealSum(s: seq<real>): real
    decreases |s|
  {
    if s == [] then 0.0 else RealSum(s[..|s| - 1]) + s[|s| - 1]
  }

  lemma {:induction false} AnomaliesAligned(view: seq<ViewRow>, ks: seq<string>, a: seq<nat>)
    requires |a| == |ks|
    requires forall k :: 0 <= k < |ks| ==> a[k] == DayAnomalies(view, ks[k])
    ensures NatSum(a) == AnomaliesOver(view, ks)
    decreases |ks|
  {
    if ks != [] {
      AnomaliesAligned(view, ks[..|ks| - 1], a[..|a| - 1]);
    }
  }

  /** Rounding each day to two decimals moves the sum by at most half a cent per day. */
  lemma {:induction false} SalesAligned(view: seq<ViewRow>, ks: seq<string>, s: seq<real>)
    requires |s| == |ks|
    requires forall k :: 0 <= k < |ks| ==> s[k] == ToFixed(DaySales(view, ks[k]), 2)
    ensures SalesOver(view, ks) - |ks| as real / 200.0 <= RealSum(s) <= SalesOver(view, ks) + |ks| as real / 200.0
    decreases |ks|
  {
    if ks != [] {
      SalesAligned(view, ks[..|ks| - 1], s[..|s| - 1]);
      CentBound(DaySales(view, ks[|ks| - 1]));
    }
  }

  /** Rounding to cents moves a number by at most half a cent. */
  lemma CentBound(x: real)
    ensures x - 1.0 / 200.0 <= ToFixed(x, 2) <= x + 1.0 / 200.0
  {
    assert Pow10(2) == 100 by { assert Pow10(1) == 10; }
  }

  /** The anomaly series sums to the number of flagged rows. */
  lemma AnomaliesTotal(view: seq<ViewRow>, c: ChartsData)
    requires Daily(view, c)
    ensures NatSum(c.anomalies) == AnomalyCount(view)
  {
    StrictDistinct(c.days);
    DailyPartition(view, c.days);
    AnomaliesAligned(view, c.days, c.anomalies);
  }

  /**
   * The sales series sums to the finite totals of the view, up to half a cent
   * of rounding per day.
   */
  lemma SalesTotal(view: seq<ViewRow>, c: ChartsData)
    requires Daily(view, c)
    ensures TotalsSum(view) - |c.days| as real / 200.0 <= RealSum(c.sales) <= TotalsSum(view) + |c.days| as real / 200.0
  {
    StrictDistinct(c.days);
    DailyPartition(view, c.days);
    SalesAligned(view, c.days, c.sales);
  }

  // ------------------------------------------------------------------ the heatmap

  /** No day key of the view contains `|`, so a cell key splits back into its day and country. */
  predicate UnbarredDays(view: seq<ViewRow>) {
    forall i :: 0 <= i < |view| ==> '|' !in DayKey(view[i])
  }

  /** With days free of `|`, equal cell keys have equal days and equal countries. */
  lemma CellKeyInjective(d1: string, c1: string, d2: string, c2: string)
    requires '|' !in d1 && '|' !in d2
    ensures CellKey(d1, c1) == CellKey(d2, c2) <==> d1 == d2 && c1 == c2
  {
    var k1, k2 := CellKey(d1, c1), CellKey(d2, c2);
    if |d1| < |d2| {
      BarAt(d1, c1, d2, c2);
    } else if |d2| < |d1| {
      BarAt(d2, c2, d1, c1);
    } else if k1 == k2 {
      assert d1 == k1[..|d1|] && d2 == k2[..|d2|];
      assert c1 == k1[|d1| + 2..] && c2 == k2[|d2| + 2..];
    }
  }

  /** A shorter day puts a `|` where a longer unbarred day has a character of its own. */
  lemma BarAt(d1: string, c1: string, d2: string, c2: string)
    requires |d1| < |d2| && '|' !in d2
    ensures CellKey(d1, c1) != CellKey(d2, c2)
  {
    assert CellKey(d1, c1)[|d1|] == '|';
    assert CellKey(d2, c2)[|d1|] == d2[|d1|];
  }

  /** The number of flagged rows of day `d` and country `c`. */
  function PairCount(view: seq<ViewRow>, d: string, c: string): nat
    decreases |view|
  {
    if view == [] then 0
    else
      var v := view[|view| - 1];
      PairCount(view[..|view| - 1], d, c) + (if Flagged(v) && DayKey(v) == d && CountryKey(v) == c then 1 else 0)
  }

  lemma CellCountSnoc(view: seq<ViewRow>, v: ViewRow, key: string)
    ensures CellCount(view + [v], key) == CellCount(view, key) + (if Flagged(v) && CellKey(DayKey(v), CountryKey(v)) == key then 1 else 0)
  {
    assert (view + [v])[..|view|] == view;
  }

  /** Each heatmap value counts the flagged rows of its day and its country. */
  lemma {:induction false} CellMeaning(view: seq<ViewRow>, d: string, c: string)
    requires UnbarredDays(view) && '|' !in d
    ensures CellCount(view, CellKey(d, c)) == PairCount(view, d, c)
    decreases |view|
  {
    if view != [] {
      var init, v := view[..|view| - 1], view[|view| - 1];
      assert UnbarredDays(init) by {
        forall i | 0 <= i < |init| ensures '|' !in DayKey(init[i]) { assert init[i] == view[i]; }
      }
      CellMeaning(init, d, c);
      CellKeyInjective(DayKey(v), CountryKey(v), d, c);
    }
  }

  /** The values of the cells of country `c` over the days `ks`. */
  function RowTally(view: seq<ViewRow>, ks: seq<string>, c: string): nat
    decreases |ks|
  {
    if ks == [] then 0
    else RowTally(view, ks[..|ks| - 1], c) + CellCount(view, CellKey(ks[|ks| - 1], c))
  }

  /** The values of all cells, country by country. */
  function GridTally(view: seq<ViewRow>, days: seq<string>, cs: seq<string>): nat
    decreases |cs|
  {
    if cs == [] then 0
    else GridTally(view, days, cs[..|cs| - 1]) + RowTally(view, days, cs[|cs| - 1])
  }

  /** The days free of `|`. */
  predicate Unbarred(ks: seq<string>) {
    forall k :: 0 <= k < |ks| ==> '|' !in ks[k]
  }

  lemma {:induction false} RowTallySnoc(view: seq<ViewRow>, v: ViewRow, ks: seq<string>, c: string)
    requires Unbarred(ks) && '|' !in DayKey(v)
    ensures RowTally(view + [v], ks, c)
      == RowTally(view, ks, c) + (if Flagged(v) && CountryKey(v) == c then Occurs(ks, DayKey(v)) else 0)
    decreases |ks|
  {
    if ks != [] {
      var init, k := ks[..|ks| - 1], ks[|ks| - 1];
      RowTallySnoc(view, v, init, c);
      CellCountSnoc(view, v, CellKey(k, c));
      CellKeyInjective(DayKey(v), CountryKey(v), k, c);
    }
  }

  lemma {:induction false} GridTallySnoc(view: seq<ViewRow>, v: ViewRow, days: seq<string>, cs: seq<string>)
    requires Unbarred(days) && '|' !in DayKey(v)
    ensures GridTally(view + [v], days, cs)
      == GridTally(view, days, cs) + (if Flagged(v) then Occurs(cs, CountryKey(v)) * Occurs(days, DayKey(v)) else 0)
    decreases |cs|
  {
    if cs != [] {
      var init, c := cs[..|cs| - 1], cs[|cs| - 1];
      GridTallySnoc(view, v, days, init);
      RowTallySnoc(view, v, days, c);
      var o, n := Occurs(init, CountryKey(v)), Occurs(days, DayKey(v));
      assert Occurs(cs, CountryKey(v)) == o + (if c == CountryKey(v) then 1 else 0);
      assert (o + 1) * n == o * n + n;
    }
  }

  lemma {:induction false} EmptyGridTally(days: seq<string>, cs: seq<string>)
    ensures GridTally([], days, cs) == 0
    decreases |cs|
  {
    if cs != [] {
      EmptyGridTally(days, cs[..|cs| - 1]);
      EmptyRowTally(days, cs[|cs| - 1]);
    }
  }

  lemma {:induction false} EmptyRowTally(ks: seq<string>, c: string)
    ensures RowTally([], ks, c) == 0
    decreases |ks|
  {
    if ks != [] { EmptyRowTally(ks[..|ks| - 1], c); }
  }

  /**
   * Over distinct days and distinct countries that include every day and
   * every country of the view, the cells count each flagged row exactly once.
   */
  lemma {:induction false} GridPartition(view: seq<ViewRow>, days: seq<string>, cs: seq<string>)
    requires Distinct(days) && Distinct(cs) && Unbarred(days) && UnbarredDays(view)
    requires forall d :: d in DaySet(view) ==> d in days
    requires forall c :: c in CountrySet(view) ==> c in cs
    ensures GridTally(view, days, cs) == AnomalyCount(view)
    decreases |view|
  {
    if view == [] {
      EmptyGridTally(days, cs);
    } else {
      var init, v := view[..|view| - 1], view[|view| - 1];
      assert view == init + [v];
      assert UnbarredDays(init) by {
        forall i | 0 <= i < |init| ensures '|' !in DayKey(init[i]) { assert init[i] == view[i]; }
      }
      GridPartition(init, days, cs);
      GridTallySnoc(init, v, days, cs);
      OccursDistinct(days, DayKey(v));
      OccursDistinct(cs, CountryKey(v));
    }
  }

  /** The sum of the `v` of the cells. */
  function CellSum(cells: seq<Cell>): nat
    decreases |cells|
  {
    if cells == [] then 0 else CellSum(cells[..|cells| - 1]) + cells[|cells| - 1].v
  }

  lemma {:induction false} CellSumAppend(a: seq<Cell>, b: seq<Cell>)
    ensures CellSum(a + b) == CellSum(a) + CellSum(b)
    decreases |b|
  {
    if b == [] {
      assert a + b == a;
    } else {
      assert (a + b)[..|a + b| - 1] == a + b[..|b| - 1];
      CellSumAppend(a, b[..|b| - 1]);
    }
  }

  lemma {:induction false} CellSumRow(view: seq<ViewRow>, days: seq<string>, y: nat, c: string)
    ensures CellSum(GridRow(view, days, y, c)) == RowTally(view, days, c)
    decreases |days|
  {
    if days != [] {
      var init := days[..|days| - 1];
      assert GridRow(view, days, y, c)[..|days| - 1] == GridRow(view, init, y, c);
      CellSumRow(view, init, y, c);
    }
  }

  lemma {:induction false} CellSumGrid(view: seq<ViewRow>, days: seq<string>, cs: seq<string>)
    ensures CellSum(Grid(view, days, cs)) == GridTally(view, days, cs)
    decreases |cs|
  {
    if cs != [] {
      var n := |cs| - 1;
      CellSumGrid(view, days, cs[..n]);
      CellSumRow(view, days, n, cs[n]);
      CellSumAppend(Grid(view, days, cs[..n]), GridRow(view, days, n, cs[n]));
    }
  }

  /** Where row `y` starts in a grid laid out row after row, `width` cells to a row. */
  function Offset(y: nat, width: nat): nat {
    if y == 0 then 0 else Offset(y - 1, width) + width
  }

  /** The offset of row `y` is `y * width`. */
  lemma {:induction false} OffsetProduct(y: nat, width: nat)
    ensures Offset(y, width) == y * width
  {
    if y > 0 {
      OffsetProduct(y - 1, width);
      assert (y - 1) * width + width == y * width;
    }
  }

  /** An earlier row ends before a later one starts. */
  lemma {:induction false} OffsetBelow(y: nat, x: nat, n: nat, width: nat)
    requires y < n && x < width
    ensures Offset(y, width) + x < Offset(n, width)
    decreases n
  {
    if y < n - 1 {
      OffsetBelow(y, x, n - 1, width);
    }
  }

  /** A grid laid out row after row, `width` cells to a row, has a cell `x` in row `y`. */
  predicate InGrid(g: seq<Cell>, width: nat, y: nat, x: nat) {
    x < width && Offset(y, width) + x < |g|
  }

  /** Cell `x` of row `y` of a grid laid out row after row, `width` cells to a row. */
  function At(g: seq<Cell>, width: nat, y: nat, x: nat): Cell
    requires InGrid(g, width, y, x)
  {
    g[Offset(y, width) + x]
  }

  /**
   * `g` has one cell per (country, day), zero counts included, stored
   * country-major: cell `x` of row `y` is day `x` of country `y`.
   */
  ghost predicate Laid(g: seq<Cell>, view: seq<ViewRow>, days: seq<string>, cs: seq<string>) {
    && |g| == Offset(|cs|, |days|)
    && forall y: nat, x: nat {:trigger InGrid(g, |days|, y, x)} {:trigger At(g, |days|, y, x)} :: y < |cs| && x < |days| ==>
      InGrid(g, |days|, y, x) && At(g, |days|, y, x) == Cell(x, y, CellCount(view, CellKey(days[x], cs[y])))
  }

  /** The grid of `buildChartsData` is laid out country by country, day by day. */
  lemma {:induction false} GridShape(view: seq<ViewRow>, days: seq<string>, cs: seq<string>)
    ensures Laid(Grid(view, days, cs), view, days, cs)
    decreases |cs|
  {
    if cs != [] {
      var n := |cs| - 1;
      var g, G := Grid(view, days, cs[..n]), Grid(view, days, cs);
      GridShape(view, days, cs[..n]);
      assert G == g + GridRow(view, days, n, cs[n]);
      assert |G| == Offset(|cs|, |days|);
      forall y: nat, x: nat | y < |cs| && x < |days|
        ensures InGrid(G, |days|, y, x) && At(G, |days|, y, x) == Cell(x, y, CellCount(view, CellKey(days[x], cs[y])))
      {
        GridCellAt(view, days, cs, g, G, y, x);
      }
    }
  }

  /** One step of `GridShape`: a cell of the last row, or one of the grid before it. */
  lemma GridCellAt(view: seq<ViewRow>, days: seq<string>, cs: seq<string>, g: seq<Cell>, G: seq<Cell>, y: nat, x: nat)
    requires y < |cs| && x < |days|
    requires Laid(g, view, days, cs[..|cs| - 1]) && G == g + GridRow(view, days, |cs| - 1, cs[|cs| - 1])
    ensures InGrid(G, |days|, y, x)
    ensures At(G, |days|, y, x) == Cell(x, y, CellCount(view, CellKey(days[x], cs[y])))
  {
    var n := |cs| - 1;
    if y < n {
      OffsetBelow(y, x, n, |days|);
      assert At(g, |days|, y, x) == Cell(x, y, CellCount(view, CellKey(days[x], cs[..n][y])));
      assert cs[..n][y] == cs[y];
    } else {
      assert Offset(y, |days|) + x - |g| == x;
    }
  }

  /**
   * The heatmap of `buildChartsData` has `|countries| * |days|` cells, each
   * counting the flagged rows of its day and country, and its values sum to
   * the number of flagged rows.
   */
  lemma MatrixTotal(view: seq<ViewRow>, c: ChartsData)
    requires Daily(view, c) && Heatmap(view, c) && UnbarredDays(view)
    ensures |c.matrix| == |c.countries| * |c.days|
    ensures forall y: nat, x: nat {:trigger InGrid(c.matrix, |c.days|, y, x)} {:trigger At(c.matrix, |c.days|, y, x)} :: y < |c.countries| && x < |c.days| ==>
      InGrid(c.matrix, |c.days|, y, x) && At(c.matrix, |c.days|, y, x) == Cell(x, y, PairCount(view, c.days[x], c.countries[y]))
    ensures CellSum(c.matrix) == AnomalyCount(view)
  {
    DaysUnbarred(view, c.days);
    GridShape(view, c.days, c.countries);
    OffsetProduct(|c.countries|, |c.days|);
    LaidCounts(c.matrix, view, c.days, c.countries);
    GridSum(view, c.days, c.countries);
  }

  /** Over unbarred days, each cell of a laid-out grid holds its day's and country's pair count. */
  lemma LaidCounts(g: seq<Cell>, view: seq<ViewRow>, days: seq<string>, cs: seq<string>)
    requires Laid(g, view, days, cs) && Unbarred(days) && UnbarredDays(view)
    ensures forall y: nat, x: nat {:trigger InGrid(g, |days|, y, x)} {:trigger At(g, |days|, y, x)} :: y < |cs| && x < |days| ==>
      InGrid(g, |days|, y, x) && At(g, |days|, y, x) == Cell(x, y, PairCount(view, days[x], cs[y]))
  {
    forall y: nat, x: nat | y < |cs| && x < |days|
      ensures InGrid(g, |days|, y, x) && At(g, |days|, y, x) == Cell(x, y, PairCount(view, days[x], cs[y]))
    {
      OffsetBelow(y, x, |cs|, |days|);
      CellMeaning(view, days[x], cs[y]);
    }
  }

  /** Over sorted keys covering every day and country, the grid's cells sum to the flagged rows. */
  lemma GridSum(view: seq<ViewRow>, days: seq<string>, cs: seq<string>)
    requires StrictlyInOrder(days) && StrictlyInOrder(cs) && Unbarred(days) && UnbarredDays(view)
    requires forall d :: d in DaySet(view) ==> d in days
    requires forall c :: c in CountrySet(view) ==> c in cs
    ensures CellSum(Grid(view, days, cs)) == AnomalyCount(view)
  {
    StrictDistinct(days);
    StrictDistinct(cs);
    CellSumGrid(view, days, cs);
    GridPartition(view, days, cs);
  }

  lemma DaysUnbarred(view: seq<ViewRow>, days: seq<string>)
    requires UnbarredDays(view) && forall d :: d in days ==> d in DaySet(view)
    ensures Unbarred(days)
  {
    forall k | 0 <= k < |days| ensures '|' !in days[k] {
      DayKeyUnbarred(view, days[k]);
    }
  }

  lemma {:induction false} DayKeyUnbarred(view: seq<ViewRow>, d: string)
    requires UnbarredDays(view) && d in DaySet(view)
    ensures '|' !in d
    decreases |view|
  {
    var init := view[..|view| - 1];
    if d != DayKey(view[|view| - 1]) {
      assert UnbarredDays(init) by {
        forall i | 0 <= i < |init| ensures '|' !in DayKey(init[i]) { assert init[i] == view[i]; }
      }
      DayKeyUnbarred(init, d);
    }
  }
}
