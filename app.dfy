/**
 * The computations of src/App.jsx that sit outside React: `recompute`, which
 * runs a fresh `AnomalyDetector` and annotates every row (lines 40-44), the
 * `caDiff` consistency indicator between the revenue KPI and the daily sales
 * (lines 68-69), and the `reasonsCount` tally of the most frequent reasons
 * (lines 72-80).
 */
module App {
  import opened Outcomes
  import opened JsNumber
  import opened Records
  import opened Sorting
  import opened Rules
  import opened DetectorState
  import opened Passes
  import opened Detector
  import opened ReasonProperties
  import opened ScoreProperties
  import opened DataCleaner
  import opened Kpis
  import opened Charts

  // ------------------------------------------------------------------ recompute

  /** The message texts of a reason list, as `_reasons` holds them. */
  function Texts(ms: seq<Reason>): (ts: seq<string>)
    ensures |ts| == |ms|
    ensures forall k :: 0 <= k < |ms| ==> ts[k] == ms[k].Text()
  {
    if ms == [] then [] else [ms[0].Text()] + Texts(ms[1..])
  }

  /** The texts of two lists in turn are the texts of their concatenation. */
  lemma TextsAppend(a: seq<Reason>, b: seq<Reason>)
    ensures Texts(a + b) == Texts(a) + Texts(b)
  {
    assert forall k :: 0 <= k < |a + b| ==> Texts(a + b)[k] == (Texts(a) + Texts(b))[k];
  }

  /**
   * `{...r, _reasons: det.reasons.get(id) || [], _score: +(det.scores.get(id) || 0).toFixed(3)}`:
   * the score is the stored one rounded to three decimals, an absent or NaN
   * score reading as 0, so it stays in [0, 1]; a tie at half a thousandth
   * rounds up for a non-negative score.
   */
  function Annotate(a: Annotations, r: Row): (v: ViewRow)
    ensures Valid(a) ==> 0.0 <= v.score <= 1.0
    ensures Whole(v.score * 1000.0)
    ensures Prior(a, r.orderId) - 0.0005 <= v.score <= Prior(a, r.orderId) + 0.0005
    ensures Prior(a, r.orderId) >= 0.0 ==> Prior(a, r.orderId) - 0.0005 < v.score
    ensures r.orderId !in a.reasons ==> v.reasons == []
  {
    assert Pow10(3) == 1000 by { assert Pow10(2) == 100 by { assert Pow10(1) == 10; } }
    ViewRow(r, Texts(ReasonsOf(a, r.orderId)), ToFixed(Prior(a, r.orderId), 3))
  }

  /** `baseRows.map(...)`: every row in place, annotated from the detector's state. */
  function AttachAll(a: Annotations, rows: seq<Row>): (view: seq<ViewRow>)
    ensures |view| == |rows|
    ensures forall i :: 0 <= i < |rows| ==> view[i].row == rows[i] && view[i] == Annotate(a, rows[i])
    ensures Valid(a) ==> ScoresInUnit(view)
  {
    seq(|rows|, i requires 0 <= i < |rows| => Annotate(a, rows[i]))
  }

  /**
   * `recompute(baseRows, opts)`: a detector built on the rows and the merged
   * options runs the price, quantity and format passes in that order; every
   * row comes out in place, unchanged, with its identifier's reasons and
   * rounded score, and every score lies in [0, 1].
   */
  method Recompute(baseRows: seq<Row>, opts: Overrides) returns (view: seq<ViewRow>)
    ensures view == AttachAll(Detect(baseRows, Merge(opts)), baseRows)
    ensures ScoresInUnit(view)
  {
    var det := new AnomalyDetector(baseRows, opts);
    var price := det.DetectPriceAnomalies();
    var quantity := det.DetectQuantityAnomalies();
    var format := det.DetectFormatAnomalies();
    var a := det.State();
    DetectValid(baseRows, Merge(opts));
    view := AttachAll(a, baseRows);
  }

  /**
   * With distinct identifiers, a row's `_reasons` are its price reasons, then
   * its quantity reasons, then its format reasons, in the order each pass
   * notes them.
   */
  lemma ReasonsInPassOrder(rows: seq<Row>, o: Options, i: int)
    requires DistinctIds(rows) && 0 <= i < |rows|
    ensures var r := rows[i];
      Annotate(Detect(rows, o), r).reasons
        == Texts(PriceReasons(r, StatsFor(rows, r.productName), o))
           + Texts(QuantityReasons(r, BoundsFor(rows, r.productName, o.iqrFactor), o))
           + Texts(FormatReasons(r, false, o))
  {
    var r := rows[i];
    PhaseOrder(rows, o, i);
    var p, q, f := PriceReasons(r, StatsFor(rows, r.productName), o),
      QuantityReasons(r, BoundsFor(rows, r.productName, o.iqrFactor), o), FormatReasons(r, false, o);
    TextsAppend(p + q, f);
    TextsAppend(p, q);
  }

  /** Rows that `normalizeRows` produced have day keys free of `|`, as the heatmap keys need. */
  lemma NormalizedUnbarred(raw: seq<RawRecord>, cal: Calendar, view: seq<ViewRow>)
    requires forall i :: 0 <= i < |view| ==> view[i].row in Dedup(NormalizeAll(raw, cal))
    ensures UnbarredDays(view)
  {
    forall i | 0 <= i < |view| ensures '|' !in DayKey(view[i]) {
      KeptDayUnbarred(raw, cal, view[i]);
    }
  }

  lemma KeptDayUnbarred(raw: seq<RawRecord>, cal: Calendar, v: ViewRow)
    requires v.row in Dedup(NormalizeAll(raw, cal))
    ensures '|' !in DayKey(v)
  {
    var all := NormalizeAll(raw, cal);
    DedupMember(all, v.row);
    NormalizedDateUnbarred(raw, cal, all, v.row);
    DayKeyOf(v);
  }

  lemma NormalizedDateUnbarred(raw: seq<RawRecord>, cal: Calendar, all: seq<Row>, r: Row)
    requires all == NormalizeAll(raw, cal) && r in all
    ensures '|' !in r.orderDateStr
  {
    var j :| 0 <= j < |all| && all[j] == r;
    assert r == NormalizeRecord(raw[j], cal);
  }

  // ------------------------------------------------------------------ caDiff

  /** `Math.abs((kpis.revenueNum || 0) - salesSum)`; the revenue is never NaN. */
  function CaDiff(k: Kpis, c: ChartsData): (d: real)
    ensures d >= 0.0
    ensures d == k.revenueNum - RealSum(c.sales) || d == RealSum(c.sales) - k.revenueNum
  {
    var x := k.revenueNum - RealSum(c.sales);
    if x < 0.0 then -x else x
  }

  /**
   * The indicator measures the price-times-quantity stand-ins the revenue
   * counts and the daily sales do not, up to half a cent of rounding per day.
   */
  lemma CaDiffGap(view: seq<ViewRow>, c: ChartsData)
    requires Daily(view, c)
    ensures var f := FallbackSum(view); var g := if f < 0.0 then -f else f;
      var slack := |c.days| as real / 200.0;
      g - slack <= CaDiff(ComputeKpis(view), c) <= g + slack
  {
    RevenueSplit(view);
    SalesTotal(view, c);
  }

  /** When every total is finite, the indicator is only the per-day rounding. */
  lemma CaDiffRounding(view: seq<ViewRow>, c: ChartsData)
    requires Daily(view, c) && TotalsFinite(view)
    ensures CaDiff(ComputeKpis(view), c) <= |c.days| as real / 200.0
  {
    RevenueSplit(view);
    CaDiffGap(view, c);
  }

  /** A row with no total but a price of 10 and a quantity of 3. */
  function MissingTotalRow(): Row {
    Row("ORD1", None, "", "C1", "a@b.fr", Fin(30.0), "P", "K",
      Fin(10.0), Fin(3.0), NaN, "France", "Carte", "Livr\U{00E9}e")
  }

  /**
   * The daily sales skip the stand-in the revenue uses: for a single row with
   * a missing total, price 10 and quantity 3, the revenue is 30, the sales are
   * 0 and the indicator is 30.
   */
  lemma CaDiffMissingTotal(c: ChartsData)
    requires Daily([ViewRow(MissingTotalRow(), [], 0.0)], c)
    ensures CaDiff(ComputeKpis([ViewRow(MissingTotalRow(), [], 0.0)]), c) == 30.0
  {
    var view := [ViewRow(MissingTotalRow(), [], 0.0)];
    assert view[..0] == [];
    assert DaySet(view) == {"Invalide"};
    assert "Invalide" in c.days;
    assert |c.days| <= 1 by {
      if |c.days| > 1 {
        assert c.days[0] in DaySet(view) && c.days[1] in DaySet(view);
        BelowIrreflexive(c.days[0]);
      }
    }
    assert c.days == ["Invalide"];
    assert DaySales(view, "Invalide") == 0.0;
    assert c.sales == [ToFixed(0.0, 2)];
    assert ToFixed(0.0, 2) == 0.0;
    assert RealSum(c.sales) == 0.0 by { assert c.sales[..0] == []; }
    assert Revenue(view) == 30.0;
  }

  // ------------------------------------------------------------------ reasonsCount

  /** Every reason text of the view, row after row: what the nested loops visit. */
  function AllReasons(view: seq<ViewRow>): seq<string>
    decreases |view|
  {
    if view == [] then [] else AllReasons(view[..|view| - 1]) + view[|view| - 1].reasons
  }

  lemma AllReasonsSnoc(view: seq<ViewRow>, i: int)
    requires 0 <= i < |view|
    ensures AllReasons(view[..i + 1]) == AllReasons(view[..i]) + view[i].reasons
  {
    assert view[..i + 1][..i] == view[..i];
  }

  /** One `[why, count]` entry of the tally. */
  datatype Entry = Entry(reason: string, count: nat)

  /**
   * The tally after the texts `ws`: `order` lists the Map's keys once each in
   * insertion order, the keys are the texts seen, each mapped to how often it
   * was seen.
   */
  ghost predicate Counted(counts: map<string, nat>, order: seq<string>, ws: seq<string>) {
    && Distinct(order)
    && (forall w :: w in order <==> w in counts)
    && (forall w :: w in counts <==> w in ws)
    && (forall w :: w in counts ==> counts[w] == Occurs(ws, w))
  }

  lemma {:induction false} OccursAbsent(ks: seq<string>, x: string)
    requires x !in ks
    ensures Occurs(ks, x) == 0
    decreases |ks|
  {
    if ks != [] { OccursAbsent(ks[..|ks| - 1], x); }
  }

  /** `map.set(why, (map.get(why) || 0) + 1)` keeps `Counted`. */
  lemma CountedStep(
    counts: map<string, nat>, order: seq<string>, ws: seq<string>,
    counts': map<string, nat>, order': seq<string>, w: string)
    requires Counted(counts, order, ws)
    requires counts' == counts[w := (if w in counts then counts[w] else 0) + 1]
    requires order' == if w in counts then order else order + [w]
    ensures Counted(counts', order', ws + [w])
  {
    var ws' := ws + [w];
    assert ws'[..|ws|] == ws;
    if w !in counts {
      OccursAbsent(ws, w);
      forall a, b | 0 <= a < b < |order'| ensures order'[a] != order'[b] {
        if b == |order| { assert order'[a] in order; }
        else { assert order'[a] == order[a] && order'[b] == order[b]; }
      }
    }
  }

  /** The inner loop of `reasonsCount`: one row's reasons added to the tally. */
  method TallyRow(counts0: map<string, nat>, order0: seq<string>, ghost seen: seq<string>, reasons: seq<string>)
    returns (counts: map<string, nat>, order: seq<string>)
    requires Counted(counts0, order0, seen)
    ensures Counted(counts, order, seen + reasons)
  {
    counts, order := counts0, order0;
    assert seen + reasons[..0] == seen;
    var j := 0;
    while j < |reasons|
      invariant 0 <= j <= |reasons|
      invariant Counted(counts, order, seen + reasons[..j])
    {
      var why := reasons[j];
      ghost var before, beforeOrder := counts, order;
      order := if why in counts then order else order + [why];
      counts := counts[why := (if why in counts then counts[why] else 0) + 1];
      CountedStep(before, beforeOrder, seen + reasons[..j], counts, order, why);
      assert seen + reasons[..j + 1] == seen + reasons[..j] + [why];
      j := j + 1;
    }
    assert reasons[..j] == reasons;
  }

  /** The nested loops of `reasonsCount`: every reason of every row, counted in a Map. */
  method Tally(view: seq<ViewRow>) returns (counts: map<string, nat>, order: seq<string>)
    ensures Counted(counts, order, AllReasons(view))
  {
    counts, order := map[], [];
    var i := 0;
    while i < |view|
      invariant 0 <= i <= |view|
      invariant Counted(counts, order, AllReasons(view[..i]))
    {
      counts, order := TallyRow(counts, order, AllReasons(view[..i]), view[i].reasons);
      AllReasonsSnoc(view, i);
      i := i + 1;
    }
    assert view[..|view|] == view;
  }

  /** `[...map.entries()]`: the entries in key insertion order. */
  function Entries(order: seq<string>, counts: map<string, nat>): (es: seq<Entry>)
    requires forall w :: w in order ==> w in counts
    ensures |es| == |order|
    ensures forall k :: 0 <= k < |order| ==> es[k] == Entry(order[k], counts[order[k]])
  {
    seq(|order|, k requires 0 <= k < |order| => Entry(order[k], counts[order[k]]))
  }

  /** Counts never increase along the list. */
  predicate NonIncreasing(s: seq<Entry>) {
    forall a, b :: 0 <= a < b < |s| ==> s[a].count >= s[b].count
  }

  /** No reason appears twice. */
  predicate DistinctReasons(s: seq<Entry>) {
    forall a, b :: 0 <= a < b < |s| ==> s[a].reason != s[b].reason
  }

  /**
   * Inserts `e` before the first entry with a strictly smaller count, so
   * after the entries with an equal count: the step of a stable sort.
   */
  function InsertByCount(e: Entry, s: seq<Entry>): (r: seq<Entry>)
    requires NonIncreasing(s)
    ensures NonIncreasing(r)
    ensures multiset(r) == multiset(s) + multiset{e} && |r| == |s| + 1
  {
    if s == [] then [e]
    else if s[0].count < e.count then [e] + s
    else
      var t := InsertByCount(e, s[1..]);
      assert s == [s[0]] + s[1..];
      assert forall k :: 0 <= k < |t| ==> t[k].count <= s[0].count by {
        forall k | 0 <= k < |t| ensures t[k].count <= s[0].count {
          assert t[k] in multiset(t);
          if t[k] != e {
            var m :| 0 <= m < |s[1..]| && s[1..][m] == t[k];
          }
        }
      }
      [s[0]] + t
  }

  /** Inserting an entry whose reason is new keeps the reasons distinct. */
  lemma {:induction false} InsertDistinct(e: Entry, s: seq<Entry>)
    requires NonIncreasing(s) && DistinctReasons(s)
    requires forall k :: 0 <= k < |s| ==> s[k].reason != e.reason
    ensures DistinctReasons(InsertByCount(e, s))
    decreases |s|
  {
    if s != [] && s[0].count >= e.count {
      var t := InsertByCount(e, s[1..]);
      InsertDistinct(e, s[1..]);
      forall k | 0 <= k < |t| ensures t[k].reason != s[0].reason {
        assert t[k] in multiset(t);
        if t[k] != e {
          var m :| 0 <= m < |s[1..]| && s[1..][m] == t[k];
          assert s[m + 1] == t[k];
        }
      }
    }
  }

  /**
   * `entries.sort((a, b) => b[1] - a[1])`: the same entries ordered by
   * non-increasing count.
   */
  function SortByCount(es: seq<Entry>): (r: seq<Entry>)
    ensures NonIncreasing(r)
    ensures multiset(r) == multiset(es) && |r| == |es|
    ensures DistinctReasons(es) ==> DistinctReasons(r)
    decreases |es|
  {
    if es == [] then []
    else
      var init, e := es[..|es| - 1], es[|es| - 1];
      assert es == init + [e];
      var s := SortByCount(init);
      assert DistinctReasons(es) ==> DistinctReasons(InsertByCount(e, s)) by {
        if DistinctReasons(es) {
          OthersReasons(init, e, s);
          InsertDistinct(e, s);
        }
      }
      InsertByCount(e, s)
  }

  /** A rearrangement of the entries before `e` names no reason of `e`'s when all are distinct. */
  lemma OthersReasons(init: seq<Entry>, e: Entry, s: seq<Entry>)
    requires DistinctReasons(init + [e]) && multiset(s) == multiset(init)
    ensures forall k :: 0 <= k < |s| ==> s[k].reason != e.reason
  {
    var es := init + [e];
    forall k | 0 <= k < |s| ensures s[k].reason != e.reason {
      assert s[k] in multiset(init);
      var m :| 0 <= m < |init| && init[m] == s[k];
      assert es[m] == s[k] && es[|init|] == e;
    }
  }

  /** The reasons an entry list names. */
  function Listed(s: seq<Entry>): set<string> {
    set k | 0 <= k < |s| :: s[k].reason
  }

  /**
   * The `reasonsCount` result for the texts `ws`: at most eight distinct
   * reasons with their true counts, by non-increasing count, and any reason
   * left out occurs no more often than the eighth.
   */
  ghost predicate TopEight(top: seq<Entry>, ws: seq<string>) {
    && |top| <= 8
    && (forall k :: 0 <= k < |top| ==> top[k].reason in ws && top[k].count == Occurs(ws, top[k].reason))
    && DistinctReasons(top)
    && NonIncreasing(top)
    && (forall w :: w in ws && w !in Listed(top) ==> |top| == 8 && Occurs(ws, w) <= top[7].count)
  }

  /** The full sorted entry list, truncated to eight, is the top eight. */
  lemma TopOfSorted(sorted: seq<Entry>, ws: seq<string>, n: nat)
    requires NonIncreasing(sorted) && DistinctReasons(sorted)
    requires forall k :: 0 <= k < |sorted| ==> sorted[k].reason in ws && sorted[k].count == Occurs(ws, sorted[k].reason)
    requires forall w :: w in ws ==> w in Listed(sorted)
    requires n == if |sorted| < 8 then |sorted| else 8
    ensures TopEight(sorted[..n], ws)
  {
    var top := sorted[..n];
    forall w | w in ws && w !in Listed(top)
      ensures |top| == 8 && Occurs(ws, w) <= top[7].count
    {
      var k :| 0 <= k < |sorted| && sorted[k].reason == w;
      ListedAt(top, k);
    }
  }

  lemma ListedAt(s: seq<Entry>, k: int)
    ensures 0 <= k < |s| ==> s[k].reason in Listed(s)
  {}

  /** The entries of a complete tally, sorted, have their true counts and cover every text. */
  lemma SortedEntries(counts: map<string, nat>, order: seq<string>, ws: seq<string>)
    requires Counted(counts, order, ws)
    ensures var sorted := SortByCount(Entries(order, counts));
      && DistinctReasons(sorted)
      && (forall k :: 0 <= k < |sorted| ==> sorted[k].reason in ws && sorted[k].count == Occurs(ws, sorted[k].reason))
      && (forall w :: w in ws ==> w in Listed(sorted))
  {
    var es := Entries(order, counts);
    var sorted := SortByCount(es);
    assert DistinctReasons(es);
    forall k | 0 <= k < |sorted|
      ensures sorted[k].reason in ws && sorted[k].count == Occurs(ws, sorted[k].reason)
    {
      assert sorted[k] in multiset(es);
      var m :| 0 <= m < |es| && es[m] == sorted[k];
    }
    forall w | w in ws ensures w in Listed(sorted) {
      var m :| 0 <= m < |order| && order[m] == w;
      assert es[m] in multiset(sorted);
      var k :| 0 <= k < |sorted| && sorted[k] == es[m];
      assert sorted[k].reason == w;
    }
  }

  /**
   * `reasonsCount`: every reason text of every row counted, the entries
   * sorted by descending count (ties in first-seen order) and cut to eight.
   */
  method ReasonsCount(view: seq<ViewRow>) returns (top: seq<Entry>)
    ensures TopEight(top, AllReasons(view))
  {
    var counts, order := Tally(view);
    var sorted := SortByCount(Entries(order, counts));
    var n := if |sorted| < 8 then |sorted| else 8;
    top := sorted[..n];
    SortedEntries(counts, order, AllReasons(view));
    TopOfSorted(sorted, AllReasons(view), n);
  }
}
