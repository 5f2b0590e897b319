/**
 * The three `detect*` passes of src/detectors/AnomalyDetector.js and their
 * `_summary`, as functions from the detector's state before a pass to the state
 * after it. The class in detector.dfy runs the same passes with loops and is
 * proved to reach the states these functions name.
 */
module Passes {
  import opened Outcomes
  import opened JsNumber
  import opened Records
  import opened Statistics
  import opened Rules
  import opened DetectorState

  /** A prefix one longer is the prefix with the next element appended. */
  // ------------------------------------------------------------------ grouping by product

  /** The column a pass groups by product. */
  datatype Measure = PriceColumn | QuantityColumn

  function Pick(r: Row, f: Measure): Num {
    match f
    case PriceColumn => r.price
    case QuantityColumn => r.quantity
  }

  /** The product names occurring in `rows`. */
  function Names(rows: seq<Row>): set<string> {
    set r | r in rows :: r.productName
  }

  /**
   * `byProduct.get(p)` once the grouping loop has read `rows`: the values of the
   * rows of product `p`, in row order. It is empty exactly when no row names `p`.
   */
  function Column(rows: seq<Row>, p: string, f: Measure): (vs: seq<Num>)
    ensures |vs| <= |rows|
    ensures vs == [] <==> p !in Names(rows)
    decreases |rows|
  {
    if rows == [] then []
    else
      var init, last := rows[..|rows| - 1], rows[|rows| - 1];
      assert rows == init + [last];
      assert Names(rows) == Names(init) + {last.productName};
      Column(init, p, f) + (if last.productName == p then [Pick(last, f)] else [])
  }

  /** `stats.get(p)`: the median and the MAD of the product's prices, the MAD never 0. */
  function StatsFor(rows: seq<Row>, p: string): (st: PriceStats)
    ensures st.mad > 0.0
  {
    PriceStatsOf(Column(rows, p, PriceColumn))
  }

  /** `bounds.get(p)`: the product's IQR fences for the factor `k`. */
  function BoundsFor(rows: seq<Row>, p: string, k: real): Bounds {
    BoundsOf(Column(rows, p, QuantityColumn), k)
  }

  // ------------------------------------------------------------------ price pass

  /**
   * One iteration of the last loop of `detectPriceAnomalies`
   * (AnomalyDetector.js:61-68): the row's price reasons are noted, then its
   * score is set from the prior score. Only the row's own entries change.
   */
  function PriceStep(a: Annotations, all: seq<Row>, r: Row, o: Options): (b: Annotations)
    ensures ReasonsOf(b, r.orderId) == ReasonsOf(a, r.orderId) + PriceReasons(r, StatsFor(all, r.productName), o)
    ensures r.orderId in b.scores
    ensures b.scores[r.orderId] == Clamp(PriceScore(r, StatsFor(all, r.productName), o, Prior(a, r.orderId)), 0.0, 1.0)
    ensures forall x :: x != r.orderId ==> ReasonsOf(b, x) == ReasonsOf(a, x)
    ensures forall x :: x != r.orderId ==> (x in b.scores <==> x in a.scores)
    ensures forall x :: x != r.orderId && x in a.scores ==> b.scores[x] == a.scores[x]
    ensures Valid(a) ==> Valid(b)
    ensures forall ids: set<string> :: Within(a, ids) && r.orderId in ids ==> Within(b, ids)
  {
    var st := StatsFor(all, r.productName);
    var b := NoteAll(a, r.orderId, PriceReasons(r, st, o));
    SetScore(b, r.orderId, PriceScore(r, st, o, Prior(b, r.orderId)))
  }

  /** The price loop once it has read `rows`, the statistics coming from `all`. */
  function PriceFold(a: Annotations, all: seq<Row>, rows: seq<Row>, o: Options): (b: Annotations)
    ensures Valid(a) ==> Valid(b)
    ensures forall ids: set<string> :: Within(a, ids) && Ids(rows) <= ids ==> Within(b, ids)
    decreases |rows|
  {
    if rows == [] then a
    else
      var init, last := rows[..|rows| - 1], rows[|rows| - 1];
      assert rows == init + [last];
      assert Ids(rows) == Ids(init) + {last.orderId};
      PriceStep(PriceFold(a, all, init, o), all, last, o)
  }

  /** `detectPriceAnomalies()` on the detector's rows. */
  function PricePass(a: Annotations, rows: seq<Row>, o: Options): Annotations {
    PriceFold(a, rows, rows, o)
  }

  // ------------------------------------------------------------------ quantity pass

  /**
   * One iteration of the last loop of `detectQuantityAnomalies`
   * (AnomalyDetector.js:92-99).
   */
  function QuantityStep(a: Annotations, all: seq<Row>, r: Row, o: Options): (b: Annotations)
    ensures ReasonsOf(b, r.orderId) == ReasonsOf(a, r.orderId) + QuantityReasons(r, BoundsFor(all, r.productName, o.iqrFactor), o)
    ensures r.orderId in b.scores
    ensures b.scores[r.orderId] == Clamp(QuantityScore(r, BoundsFor(all, r.productName, o.iqrFactor), Prior(a, r.orderId)), 0.0, 1.0)
    ensures forall x :: x != r.orderId ==> ReasonsOf(b, x) == ReasonsOf(a, x)
    ensures forall x :: x != r.orderId ==> (x in b.scores <==> x in a.scores)
    ensures forall x :: x != r.orderId && x in a.scores ==> b.scores[x] == a.scores[x]
    ensures Valid(a) ==> Valid(b)
    ensures forall ids: set<string> :: Within(a, ids) && r.orderId in ids ==> Within(b, ids)
  {
    var bd := BoundsFor(all, r.productName, o.iqrFactor);
    var b := NoteAll(a, r.orderId, QuantityReasons(r, bd, o));
    assert Prior(b, r.orderId) == Prior(a, r.orderId);
    SetScore(b, r.orderId, QuantityScore(r, bd, Prior(b, r.orderId)))
  }

  function QuantityFold(a: Annotations, all: seq<Row>, rows: seq<Row>, o: Options): (b: Annotations)
    ensures Valid(a) ==> Valid(b)
    ensures forall ids: set<string> :: Within(a, ids) && Ids(rows) <= ids ==> Within(b, ids)
    decreases |rows|
  {
    if rows == [] then a
    else
      var init, last := rows[..|rows| - 1], rows[|rows| - 1];
      assert rows == init + [last];
      assert Ids(rows) == Ids(init) + {last.orderId};
      QuantityStep(QuantityFold(a, all, init, o), all, last, o)
  }

  /** `detectQuantityAnomalies()` on the detector's rows. */
  function QuantityPass(a: Annotations, rows: seq<Row>, o: Options): Annotations {
    QuantityFold(a, rows, rows, o)
  }

  // ------------------------------------------------------------------ format pass

  /** The detector's state and the `seenOrder` Set as the format loop goes. */
  datatype Progress = Progress(ann: Annotations, seen: set<string>)

  /**
   * One iteration of the loop of `detectFormatAnomalies`
   * (AnomalyDetector.js:108-129): the row's format reasons are noted; if its
   * identifier then has any reason, from this pass or an earlier one, the score
   * is bumped. `seenOrder` grows only while the duplicate rule is on.
   */
  function FormatStep(p: Progress, r: Row, o: Options): (q: Progress)
    ensures ReasonsOf(q.ann, r.orderId) == ReasonsOf(p.ann, r.orderId) + FormatReasons(r, r.orderId in p.seen, o)
    ensures forall x :: x != r.orderId ==> ReasonsOf(q.ann, x) == ReasonsOf(p.ann, x)
    ensures forall x :: x != r.orderId ==> (x in q.ann.scores <==> x in p.ann.scores)
    ensures forall x :: x != r.orderId && x in p.ann.scores ==> q.ann.scores[x] == p.ann.scores[x]
    ensures r.orderId in q.ann.reasons ==>
      r.orderId in q.ann.scores && q.ann.scores[r.orderId] == FormatScore(Prior(p.ann, r.orderId), o)
    ensures r.orderId !in q.ann.reasons ==> q.ann.scores == p.ann.scores
    ensures q.seen == if o.rules.duplicateOrderId then p.seen + {r.orderId} else p.seen
    ensures Valid(p.ann) ==> Valid(q.ann)
    ensures forall ids: set<string> :: Within(p.ann, ids) && r.orderId in ids ==> Within(q.ann, ids)
  {
    var id := r.orderId;
    var b := NoteAll(p.ann, id, FormatReasons(r, id in p.seen, o));
    var c := if id in b.reasons then SetScore(b, id, FormatScore(Prior(b, id), o)) else b;
    Progress(c, if o.rules.duplicateOrderId then p.seen + {id} else p.seen)
  }

  /** The format loop once it has read `rows`. */
  function FormatFold(p: Progress, rows: seq<Row>, o: Options): (q: Progress)
    ensures Valid(p.ann) ==> Valid(q.ann)
    ensures forall ids: set<string> :: Within(p.ann, ids) && Ids(rows) <= ids ==> Within(q.ann, ids)
    ensures forall x :: x in q.seen <==> x in p.seen || (o.rules.duplicateOrderId && x in Ids(rows))
    decreases |rows|
  {
    if rows == [] then p
    else
      var init, last := rows[..|rows| - 1], rows[|rows| - 1];
      assert rows == init + [last];
      assert Ids(rows) == Ids(init) + {last.orderId};
      FormatStep(FormatFold(p, init, o), last, o)
  }

  /** `detectFormatAnomalies()` on the detector's rows, with a fresh `seenOrder`. */
  function FormatPass(a: Annotations, rows: seq<Row>, o: Options): Annotations {
    FormatFold(Progress(a, {}), rows, o).ann
  }

  /** The price loop reads one more row by one more step. */
  lemma PriceFoldSnoc(a: Annotations, all: seq<Row>, rows: seq<Row>, i: int, o: Options)
    requires 0 <= i < |rows|
    ensures PriceFold(a, all, rows[..i + 1], o) == PriceStep(PriceFold(a, all, rows[..i], o), all, rows[i], o)
  {
    PrefixSnoc(rows, i);
  }

  /** The quantity loop reads one more row by one more step. */
  lemma QuantityFoldSnoc(a: Annotations, all: seq<Row>, rows: seq<Row>, i: int, o: Options)
    requires 0 <= i < |rows|
    ensures QuantityFold(a, all, rows[..i + 1], o) == QuantityStep(QuantityFold(a, all, rows[..i], o), all, rows[i], o)
  {
    PrefixSnoc(rows, i);
  }

  /** The format loop reads one more row by one more step. */
  lemma FormatFoldSnoc(p: Progress, rows: seq<Row>, i: int, o: Options)
    requires 0 <= i < |rows|
    ensures FormatFold(p, rows[..i + 1], o) == FormatStep(FormatFold(p, rows[..i], o), rows[i], o)
  {
    PrefixSnoc(rows, i);
  }

  /** The product of a row is one of the product names. */
  lemma NameAt(rows: seq<Row>, i: int)
    requires 0 <= i < |rows|
    ensures rows[i].productName in Names(rows)
  {
    assert rows[i] in rows;
  }

  /** The grouping loop reads one more row. */
  lemma GroupSnoc(rows: seq<Row>, i: int, f: Measure)
    requires 0 <= i < |rows|
    ensures Names(rows[..i + 1]) == Names(rows[..i]) + {rows[i].productName}
    ensures forall p :: (
      Column(rows[..i + 1], p, f)
        == Column(rows[..i], p, f) + (if rows[i].productName == p then [Pick(rows[i], f)] else []))
  {
    PrefixSnoc(rows, i);
  }

  /** `m` is the `byProduct` Map once the grouping loop has read `seen`. */
  ghost predicate Grouped(m: map<string, seq<Num>>, seen: seq<Row>, f: Measure) {
    && (forall p :: p in m <==> p in Names(seen))
    && (forall p :: p in m ==> m[p] == Column(seen, p, f))
  }

  /** One row of the grouping loop keeps the Map equal to the columns of the rows read. */
  lemma GroupStep(rows: seq<Row>, i: int, f: Measure, m0: map<string, seq<Num>>, m: map<string, seq<Num>>)
    requires 0 <= i < |rows| && Grouped(m0, rows[..i], f)
    requires var k := rows[i].productName; m == m0[k := (if k in m0 then m0[k] else []) + [Pick(rows[i], f)]]
    ensures Grouped(m, rows[..i + 1], f)
  {
    GroupSnoc(rows, i, f);
  }

  /** The three passes in the order `recompute` runs them, on a fresh detector. */
  function Detect(rows: seq<Row>, o: Options): Annotations {
    FormatPass(QuantityPass(PricePass(Empty, rows, o), rows, o), rows, o)
  }

  // ------------------------------------------------------------------ _summary

  datatype Summary = Summary(indices: seq<int>, score: Num, reason: string)

  /**
   * `idToIndex.get(id)` for `new Map(rows.map((r, i) => [r.order_id, i]))`: a
   * later row overwrites an earlier one, so this is the last row with the id.
   */
  function LastIndex(rows: seq<Row>, id: string): (i: int)
    requires id in Ids(rows)
    ensures 0 <= i < |rows| && rows[i].orderId == id
    ensures forall j :: i < j < |rows| ==> rows[j].orderId != id
    decreases |rows|
  {
    var init, last := rows[..|rows| - 1], rows[|rows| - 1];
    assert rows == init + [last];
    if last.orderId == id then |rows| - 1 else LastIndex(init, id)
  }

  /** The indices `_summary` pushes for the reason keys `keys`, skipping empty lists. */
  function Indices(rows: seq<Row>, a: Annotations, keys: seq<string>): (ix: seq<int>)
    requires forall k :: k in keys ==> k in a.reasons && k in Ids(rows)
    ensures |ix| <= |keys|
    ensures forall k :: k in keys ==> a.reasons[k] != [] ==> LastIndex(rows, k) in ix
    ensures forall i :: i in ix ==> 0 <= i < |rows| && rows[i].orderId in keys
    decreases |keys|
  {
    if keys == [] then []
    else
      var init, last := keys[..|keys| - 1], keys[|keys| - 1];
      assert keys == init + [last];
      Indices(rows, a, init) + (if a.reasons[last] != [] then [LastIndex(rows, last)] else [])
  }

  /** `reduce((x, y) => x + y, 0)` over the scores of `keys`, in order. */
  function SumScores(a: Annotations, keys: seq<string>): (s: Num)
    requires forall k :: k in keys ==> k in a.scores
    ensures s.NaN? <==> exists k :: k in keys && a.scores[k].NaN?
    ensures s.Fin? && (forall k :: k in keys ==> InUnit(a.scores[k])) ==> 0.0 <= s.v <= |keys| as real
    decreases |keys|
  {
    if keys == [] then Fin(0.0)
    else
      var init, last := keys[..|keys| - 1], keys[|keys| - 1];
      assert keys == init + [last];
      Add(SumScores(a, init), a.scores[last])
  }

  /**
   * `_summary(kind)` (AnomalyDetector.js:134-139): one index per identifier
   * with reasons, in the order the identifiers were first noted; the mean
   * score over the rows, clamped, 0 for no rows; and the label.
   */
  function SummaryOf(kind: string, rows: seq<Row>, a: Annotations): (s: Summary)
    requires Valid(a) && Within(a, Ids(rows))
    ensures |s.indices| == |a.reasonOrder|
    ensures forall k :: 0 <= k < |s.indices| ==> s.indices[k] == LastIndex(rows, a.reasonOrder[k])
    ensures InUnit(s.score)
    ensures s.score.NaN? <==> exists id :: id in a.scores && a.scores[id].NaN?
    ensures rows == [] ==> s.score == Fin(0.0)
    ensures s.reason == kind + " anomalies"
  {
    assert forall k :: k in a.reasonOrder ==> k in a.reasons && k in Ids(rows);
    var ix := Indices(rows, a, a.reasonOrder);
    IndicesAll(rows, a, a.reasonOrder);
    var total := SumScores(a, a.scoreOrder);
    var avg := if |rows| == 0 then Fin(0.0) else Div(total, Fin(|rows| as real));
    Summary(ix, Clamp(avg, 0.0, 1.0), kind + " anomalies")
  }

  /** With no empty list, `Indices` keeps one index per key, in key order. */
  lemma {:induction false} IndicesAll(rows: seq<Row>, a: Annotations, keys: seq<string>)
    requires forall k :: k in keys ==> k in a.reasons && k in Ids(rows) && a.reasons[k] != []
    ensures |Indices(rows, a, keys)| == |keys|
    ensures forall k :: 0 <= k < |keys| ==> Indices(rows, a, keys)[k] == LastIndex(rows, keys[k])
    decreases |keys|
  {
    if keys != [] {
      var init, last := keys[..|keys| - 1], keys[|keys| - 1];
      assert keys == init + [last];
      IndicesAll(rows, a, init);
      var prev := Indices(rows, a, init);
      assert Indices(rows, a, keys) == prev + [LastIndex(rows, last)];
      forall k | 0 <= k < |keys|
        ensures Indices(rows, a, keys)[k] == LastIndex(rows, keys[k])
      {
        if k < |init| { assert keys[k] == init[k]; }
      }
    }
  }
}
