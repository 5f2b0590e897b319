/**
 * `class AnomalyDetector` of src/detectors/AnomalyDetector.js: the rows and
 * merged options fixed at construction, the `reasons` and `scores` Maps updated
 * in place by `note` and `setScore`, and the three passes with their loops.
 * Each method is proved to leave the state the functions of passes.dfy name.
 */
module Detector {
  import opened JsNumber
  import opened Records
  import opened Statistics
  import opened Rules
  import opened DetectorState
  import opened Passes

  class AnomalyDetector {
    const rows: seq<Row>
    const opts: Options
    var reasons: map<string, seq<Reason>>
    var reasonOrder: seq<string>
    var scores: map<string, Num>
    var scoreOrder: seq<string>

    /** The two Maps, with their iteration orders, as one value. */
    function State(): Annotations
      reads this
    {
      Annotations(reasons, reasonOrder, scores, scoreOrder)
    }

    /** The Maps are consistent and keyed by identifiers of the rows. */
    predicate Inv()
      reads this
    {
      Valid(State()) && Within(State(), Ids(rows))
    }

    /** `new AnomalyDetector(rows, options)`: empty Maps and the key-wise merged options. */
    constructor(rows: seq<Row>, options: Overrides)
      ensures this.rows == rows && opts == Merge(options)
      ensures State() == Empty && Inv()
    {
      this.rows := rows;
      opts := Merge(options);
      reasons := map[];
      reasonOrder := [];
      scores := map[];
      scoreOrder := [];
      EmptyValid(Ids(rows));
    }

    /** `note(id, msg)`. */
    method Note(id: string, m: Reason)
      modifies this
      ensures State() == DetectorState.Note(old(State()), id, m)
    {
      if id !in reasons {
        reasons := reasons[id := []];
        reasonOrder := reasonOrder + [id];
      }
      reasons := reasons[id := reasons[id] + [m]];
    }

    /** `setScore(id, s)`. */
    method SetScore(id: string, s: Num)
      modifies this
      ensures State() == DetectorState.SetScore(old(State()), id, s)
    {
      if id !in scores {
        scoreOrder := scoreOrder + [id];
      }
      scores := scores[id := Clamp(s, 0.0, 1.0)];
    }

    /** The `note` calls of one row, in order. */
    method NoteEach(id: string, ms: seq<Reason>)
      modifies this
      ensures State() == NoteAll(old(State()), id, ms)
    {
      var k := 0;
      while k < |ms|
        invariant 0 <= k <= |ms|
        invariant State() == NoteAll(old(State()), id, ms[..k])
      {
        Note(id, ms[k]);
        PrefixSnoc(ms, k);
        k := k + 1;
      }
      assert ms[..|ms|] == ms;
    }

    /** `this.scores.get(id) || 0`. */
    method PriorOf(id: string) returns (p: real)
      ensures p == Prior(State(), id)
    {
      p := if id in scores && scores[id].Fin? then scores[id].v else 0.0;
    }

    /** The `byProduct` Map of a pass: each product's values of column `f`, in row order. */
    method GroupBy(f: Measure) returns (byProduct: map<string, seq<Num>>)
      ensures forall p :: p in byProduct <==> p in Names(rows)
      ensures forall p :: p in byProduct ==> byProduct[p] == Column(rows, p, f)
    {
      byProduct := map[];
      var i := 0;
      while i < |rows|
        invariant 0 <= i <= |rows|
        invariant Grouped(byProduct, rows[..i], f)
      {
        var r := rows[i];
        ghost var before := byProduct;
        var k := r.productName;
        // `set(k, [])` when absent, then `push`: one update of the Map.
        var cur := if k in byProduct then byProduct[k] else [];
        byProduct := byProduct[k := cur + [Pick(r, f)]];
        GroupStep(rows, i, f, before, byProduct);
        i := i + 1;
      }
      assert rows[..|rows|] == rows;
    }

    /** One iteration of the last loop of `detectPriceAnomalies` (AnomalyDetector.js:62-68). */
    method PriceRow(r: Row, st: PriceStats)
      requires st == StatsFor(rows, r.productName)
      modifies this
      ensures State() == PriceStep(old(State()), rows, r, opts)
    {
      var id := r.orderId;
      NoteEach(id, PriceReasons(r, st, opts));
      var prior := PriorOf(id);
      SetScore(id, PriceScore(r, st, opts, prior));
    }

    /** One iteration of the last loop of `detectQuantityAnomalies` (AnomalyDetector.js:93-99). */
    method QuantityRow(r: Row, b: Bounds)
      requires b == BoundsFor(rows, r.productName, opts.iqrFactor)
      modifies this
      ensures State() == QuantityStep(old(State()), rows, r, opts)
    {
      var id := r.orderId;
      NoteEach(id, QuantityReasons(r, b, opts));
      var prior := PriorOf(id);
      SetScore(id, QuantityScore(r, b, prior));
    }

    /**
     * One iteration of the loop of `detectFormatAnomalies`
     * (AnomalyDetector.js:109-129), returning the new `seenOrder`.
     */
    method FormatRow(r: Row, seen: set<string>) returns (seen': set<string>)
      modifies this
      ensures Progress(State(), seen') == FormatStep(Progress(old(State()), seen), r, opts)
    {
      var id := r.orderId;
      var ms := FormatReasons(r, id in seen, opts);
      seen' := if opts.rules.duplicateOrderId then seen + {id} else seen;
      NoteEach(id, ms);
      if id in reasons {
        var cur := PriorOf(id);
        SetScore(id, FormatScore(cur, opts));
      }
    }

    /** The `stats` Map of the price pass (AnomalyDetector.js:51-60): each product's median and MAD. */
    method PriceStatsByProduct() returns (stats: map<string, PriceStats>)
      ensures forall p :: p in stats <==> p in Names(rows)
      ensures forall p :: p in stats ==> stats[p] == StatsFor(rows, p)
    {
      var byProduct := GroupBy(PriceColumn);
      stats := map[];
      var todo := byProduct.Keys;
      while todo != {}
        invariant todo <= byProduct.Keys
        invariant forall p :: p in stats <==> p in byProduct && p !in todo
        invariant forall p :: p in stats ==> stats[p] == StatsFor(rows, p)
        decreases todo
      {
        var p :| p in todo;
        var med, m := Median(byProduct[p]), Mad(byProduct[p]);
        stats := stats[p := PriceStats(med, if m == 0.0 then 0.000000001 else m)];
        todo := todo - {p};
      }
    }

    /**
     * `detectPriceAnomalies()` (AnomalyDetector.js:49-71): groups the prices by
     * product, computes each product's median and MAD, then notes and scores
     * every row in order.
     */
    method DetectPriceAnomalies() returns (s: Summary)
      requires Inv()
      modifies this
      ensures Inv() && State() == PricePass(old(State()), rows, opts)
      ensures s == SummaryOf("price", rows, State())
    {
      var stats := PriceStatsByProduct();
      ghost var a0 := State();
      var i := 0;
      while i < |rows|
        invariant 0 <= i <= |rows|
        invariant State() == PriceFold(a0, rows, rows[..i], opts)
      {
        var r := rows[i];
        PriceFoldSnoc(a0, rows, rows, i, opts);
        NameAt(rows, i);
        PriceRow(r, stats[r.productName]);
        i := i + 1;
      }
      assert rows[..|rows|] == rows;
      assert Within(a0, Ids(rows));
      s := Summarize("price");
    }

    /** The `bounds` Map of the quantity pass (AnomalyDetector.js:75-91): each product's IQR fences. */
    method QuantityBoundsByProduct() returns (bounds: map<string, Bounds>)
      ensures forall p :: p in bounds <==> p in Names(rows)
      ensures forall p :: p in bounds ==> bounds[p] == BoundsFor(rows, p, opts.iqrFactor)
    {
      var byProduct := GroupBy(QuantityColumn);
      bounds := map[];
      var todo := byProduct.Keys;
      while todo != {}
        invariant todo <= byProduct.Keys
        invariant forall p :: p in bounds <==> p in byProduct && p !in todo
        invariant forall p :: p in bounds ==> bounds[p] == BoundsFor(rows, p, opts.iqrFactor)
        decreases todo
      {
        var p :| p in todo;
        bounds := bounds[p := BoundsOf(byProduct[p], opts.iqrFactor)];
        todo := todo - {p};
      }
    }

    /**
     * `detectQuantityAnomalies()` (AnomalyDetector.js:73-102): groups the
     * quantities by product, computes each product's IQR fences, then notes and
     * scores every row in order.
     */
    method DetectQuantityAnomalies() returns (s: Summary)
      requires Inv()
      modifies this
      ensures Inv() && State() == QuantityPass(old(State()), rows, opts)
      ensures s == SummaryOf("quantity", rows, State())
    {
      var bounds := QuantityBoundsByProduct();
      ghost var a0 := State();
      var i := 0;
      while i < |rows|
        invariant 0 <= i <= |rows|
        invariant State() == QuantityFold(a0, rows, rows[..i], opts)
      {
        var r := rows[i];
        QuantityFoldSnoc(a0, rows, rows, i, opts);
        NameAt(rows, i);
        QuantityRow(r, bounds[r.productName]);
        i := i + 1;
      }
      assert rows[..|rows|] == rows;
      assert Within(a0, Ids(rows));
      s := Summarize("quantity");
    }

    /**
     * `detectFormatAnomalies()` (AnomalyDetector.js:104-132): one loop over the
     * rows with a `seenOrder` Set for the duplicate rule.
     */
    method DetectFormatAnomalies() returns (s: Summary)
      requires Inv()
      modifies this
      ensures Inv() && State() == FormatPass(old(State()), rows, opts)
      ensures s == SummaryOf("format", rows, State())
    {
      ghost var a0 := State();
      var seen: set<string> := {};
      var i := 0;
      while i < |rows|
        invariant 0 <= i <= |rows|
        invariant Progress(State(), seen) == FormatFold(Progress(a0, {}), rows[..i], opts)
      {
        FormatFoldSnoc(Progress(a0, {}), rows, i, opts);
        seen := FormatRow(rows[i], seen);
        i := i + 1;
      }
      assert rows[..|rows|] == rows;
      assert Within(a0, Ids(rows));
      s := Summarize("format");
    }

    /** `_summary(kind)` (AnomalyDetector.js:134-139). */
    method Summarize(kind: string) returns (s: Summary)
      requires Inv()
      ensures s == SummaryOf(kind, rows, State())
    {
      var idToIndex: map<string, int> := map[];
      var i := 0;
      while i < |rows|
        invariant 0 <= i <= |rows|
        invariant forall id :: id in idToIndex <==> id in Ids(rows[..i])
        invariant forall id :: id in idToIndex ==> idToIndex[id] == LastIndex(rows[..i], id)
      {
        PrefixSnoc(rows, i);
        assert Ids(rows[..i + 1]) == Ids(rows[..i]) + {rows[i].orderId};
        idToIndex := idToIndex[rows[i].orderId := i];
        i := i + 1;
      }
      assert rows[..|rows|] == rows;
      var a := State();
      var indices: seq<int> := [];
      var k := 0;
      while k < |reasonOrder|
        invariant 0 <= k <= |reasonOrder|
        invariant indices == Indices(rows, a, reasonOrder[..k])
      {
        PrefixSnoc(reasonOrder, k);
        var id := reasonOrder[k];
        if reasons[id] != [] {
          indices := indices + [idToIndex[id]];
        }
        k := k + 1;
      }
      assert reasonOrder[..|reasonOrder|] == reasonOrder;
      var total := Fin(0.0);
      k := 0;
      while k < |scoreOrder|
        invariant 0 <= k <= |scoreOrder|
        invariant total == SumScores(a, scoreOrder[..k])
      {
        PrefixSnoc(scoreOrder, k);
        total := Add(total, scores[scoreOrder[k]]);
        k := k + 1;
      }
      assert scoreOrder[..|scoreOrder|] == scoreOrder;
      var avg := if |rows| == 0 then Fin(0.0) else Div(total, Fin(|rows| as real));
      s := Summary(indices, Clamp(avg, 0.0, 1.0), kind + " anomalies");
    }
  }
}
