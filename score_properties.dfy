/**
 * What the passes of src/detectors/AnomalyDetector.js promise about the scores
 * they leave: which switches a pass's scores depend on, the score a row with a
 * unique identifier ends with, and that every flagged identifier ends with a
 * finite score raised by the format bump.
 */
module ScoreProperties {
  import opened JsNumber
  import opened Records
  import opened Rules
  import opened DetectorState
  import opened Passes
  import opened ReasonProperties

  /** The last row's identifier joins the identifiers of the rows before it. */
  lemma IdsSnoc(rows: seq<Row>)
    requires rows != []
    ensures Ids(rows) == Ids(rows[..|rows| - 1]) + {rows[|rows| - 1].orderId}
  {
    assert rows == rows[..|rows| - 1] + [rows[|rows| - 1]];
  }

  // ------------------------------------------------------------------ which switches scores read

  /** One price step sets the row's score and keeps every other one. */
  lemma PriceStepScores(a: Annotations, all: seq<Row>, r: Row, o: Options)
    ensures PriceStep(a, all, r, o).scores
      == a.scores[r.orderId := Clamp(PriceScore(r, StatsFor(all, r.productName), o, Prior(a, r.orderId)), 0.0, 1.0)]
  {}

  /** One quantity step sets the row's score and keeps every other one. */
  lemma QuantityStepScores(a: Annotations, all: seq<Row>, r: Row, o: Options)
    ensures QuantityStep(a, all, r, o).scores
      == a.scores[r.orderId := Clamp(QuantityScore(r, BoundsFor(all, r.productName, o.iqrFactor), Prior(a, r.orderId)), 0.0, 1.0)]
  {}

  /**
   * The price loop's scores read no switch but `priceNegative`: from equal
   * scores, switching any other rule on or off leaves the same scores.
   */
  lemma {:induction false} PriceFoldScores(a: Annotations, a': Annotations, all: seq<Row>, rows: seq<Row>, o: Options, rs: RuleSet)
    requires a.scores == a'.scores && rs.priceNegative == o.rules.priceNegative
    ensures PriceFold(a, all, rows, o).scores == PriceFold(a', all, rows, o.(rules := rs)).scores
    decreases |rows|
  {
    if rows != [] {
      var init, last := rows[..|rows| - 1], rows[|rows| - 1];
      var o' := o.(rules := rs);
      PriceFoldScores(a, a', all, init, o, rs);
      var b, b' := PriceFold(a, all, init, o), PriceFold(a', all, init, o');
      assert PriceFold(a, all, rows, o) == PriceStep(b, all, last, o);
      assert PriceFold(a', all, rows, o') == PriceStep(b', all, last, o');
      PriceStepScores(b, all, last, o);
      PriceStepScores(b', all, last, o');
      assert Prior(b, last.orderId) == Prior(b', last.orderId);
      PriceScoreRules(last, StatsFor(all, last.productName), o, rs, Prior(b, last.orderId));
    }
  }

  /** A row's price score reads no switch but `priceNegative`. */
  lemma PriceScoreRules(r: Row, st: Statistics.PriceStats, o: Options, rs: RuleSet, prior: real)
    requires st.mad > 0.0 && rs.priceNegative == o.rules.priceNegative
    ensures PriceScore(r, st, o, prior) == PriceScore(r, st, o.(rules := rs), prior)
  {
    assert NegativeFlag(r, o) == NegativeFlag(r, o.(rules := rs));
  }

  /** `detectPriceAnomalies` scores the same with the robust-z rule on or off. */
  lemma PriceScoresIgnoreRobustZ(a: Annotations, rows: seq<Row>, o: Options, on: bool)
    ensures PricePass(a, rows, o).scores == PricePass(a, rows, o.(rules := o.rules.(priceRobustZ := on))).scores
  {
    PriceFoldScores(a, a, rows, rows, o, o.rules.(priceRobustZ := on));
  }

  /** The quantity loop's scores read no switch at all. */
  lemma {:induction false} QuantityFoldScores(a: Annotations, a': Annotations, all: seq<Row>, rows: seq<Row>, o: Options, rs: RuleSet)
    requires a.scores == a'.scores
    ensures QuantityFold(a, all, rows, o).scores == QuantityFold(a', all, rows, o.(rules := rs)).scores
    decreases |rows|
  {
    if rows != [] {
      var init, last := rows[..|rows| - 1], rows[|rows| - 1];
      var o' := o.(rules := rs);
      QuantityFoldScores(a, a', all, init, o, rs);
      var b, b' := QuantityFold(a, all, init, o), QuantityFold(a', all, init, o');
      assert QuantityFold(a, all, rows, o) == QuantityStep(b, all, last, o);
      assert QuantityFold(a', all, rows, o') == QuantityStep(b', all, last, o');
      QuantityStepScores(b, all, last, o);
      QuantityStepScores(b', all, last, o');
      assert Prior(b, last.orderId) == Prior(b', last.orderId);
    }
  }

  /** `detectQuantityAnomalies` scores the same whichever of its two rules are on. */
  lemma QuantityScoresIgnoreRules(a: Annotations, rows: seq<Row>, o: Options, nonPositive: bool, iqr: bool)
    ensures QuantityPass(a, rows, o).scores
      == QuantityPass(a, rows, o.(rules := o.rules.(quantityNonPositive := nonPositive, quantityIqr := iqr))).scores
  {
    QuantityFoldScores(a, a, rows, rows, o, o.rules.(quantityNonPositive := nonPositive, quantityIqr := iqr));
  }

  // ------------------------------------------------------------------ the score of a unique identifier

  /** `a` and `b` agree on the reasons and the score of `id`. */
  predicate SameAt(a: Annotations, b: Annotations, id: string) {
    && ReasonsOf(a, id) == ReasonsOf(b, id)
    && (id in a.scores <==> id in b.scores)
    && (id in a.scores ==> a.scores[id] == b.scores[id])
  }

  /** The price loop leaves an identifier of no row alone. */
  lemma {:induction false} PriceFoldOthers(a: Annotations, all: seq<Row>, rows: seq<Row>, id: string, o: Options)
    requires id !in Ids(rows)
    ensures SameAt(a, PriceFold(a, all, rows, o), id)
    decreases |rows|
  {
    if rows != [] {
      var init, last := rows[..|rows| - 1], rows[|rows| - 1];
      IdsSnoc(rows);
      PriceFoldOthers(a, all, init, id, o);
      assert PriceFold(a, all, rows, o) == PriceStep(PriceFold(a, all, init, o), all, last, o);
      assert id != last.orderId;
    }
  }

  /** The quantity loop leaves an identifier of no row alone. */
  lemma {:induction false} QuantityFoldOthers(a: Annotations, all: seq<Row>, rows: seq<Row>, id: string, o: Options)
    requires id !in Ids(rows)
    ensures SameAt(a, QuantityFold(a, all, rows, o), id)
    decreases |rows|
  {
    if rows != [] {
      var init, last := rows[..|rows| - 1], rows[|rows| - 1];
      IdsSnoc(rows);
      QuantityFoldOthers(a, all, init, id, o);
      assert QuantityFold(a, all, rows, o) == QuantityStep(QuantityFold(a, all, init, o), all, last, o);
      assert id != last.orderId;
    }
  }

  /** The format loop leaves an identifier of no row alone. */
  lemma {:induction false} FormatFoldOthers(p: Progress, rows: seq<Row>, id: string, o: Options)
    requires id !in Ids(rows)
    ensures SameAt(p.ann, FormatFold(p, rows, o).ann, id)
    decreases |rows|
  {
    if rows != [] {
      var init, last := rows[..|rows| - 1], rows[|rows| - 1];
      IdsSnoc(rows);
      FormatFoldOthers(p, init, id, o);
      assert FormatFold(p, rows, o) == FormatStep(FormatFold(p, init, o), last, o);
      assert id != last.orderId;
    }
  }

  /** With unique identifiers, row `i`'s price score is computed from the score it had before the loop. */
  lemma {:induction false} PriceFoldAt(a: Annotations, all: seq<Row>, rows: seq<Row>, i: int, o: Options)
    requires DistinctIds(rows) && 0 <= i < |rows|
    ensures var r, b := rows[i], PriceFold(a, all, rows, o);
      r.orderId in b.scores
      && b.scores[r.orderId] == Clamp(PriceScore(r, StatsFor(all, r.productName), o, Prior(a, r.orderId)), 0.0, 1.0)
    decreases |rows|
  {
    var init, last := rows[..|rows| - 1], rows[|rows| - 1];
    DistinctSnoc(rows);
    if i == |init| {
      PriceFoldOthers(a, all, init, last.orderId, o);
    } else {
      PriceFoldAt(a, all, init, i, o);
    }
  }

  /** With unique identifiers, row `i`'s quantity score is computed from the score it had before the loop. */
  lemma {:induction false} QuantityFoldAt(a: Annotations, all: seq<Row>, rows: seq<Row>, i: int, o: Options)
    requires DistinctIds(rows) && 0 <= i < |rows|
    ensures var r, b := rows[i], QuantityFold(a, all, rows, o);
      r.orderId in b.scores
      && b.scores[r.orderId] == Clamp(QuantityScore(r, BoundsFor(all, r.productName, o.iqrFactor), Prior(a, r.orderId)), 0.0, 1.0)
    decreases |rows|
  {
    var init, last := rows[..|rows| - 1], rows[|rows| - 1];
    DistinctSnoc(rows);
    if i == |init| {
      QuantityFoldOthers(a, all, init, last.orderId, o);
    } else {
      QuantityFoldAt(a, all, init, i, o);
    }
  }

  /**
   * With unique identifiers, row `i` ends the format loop bumped from the score
   * it had before the loop when it has any reason, and untouched otherwise.
   */
  lemma {:induction false} FormatFoldAt(p: Progress, rows: seq<Row>, i: int, o: Options)
    requires DistinctIds(rows) && 0 <= i < |rows|
    ensures Formatted(FormatFold(p, rows, o).ann, p.ann, rows[i].orderId, o)
    decreases |rows|
  {
    var init, last := rows[..|rows| - 1], rows[|rows| - 1];
    DistinctSnoc(rows);
    if i == |init| {
      FormatFoldOthers(p, init, last.orderId, o);
    } else {
      FormatFoldAt(p, init, i, o);
      StepKeepsFormatted(FormatFold(p, init, o), last, rows[i].orderId, p.ann, o);
    }
  }

  /**
   * `id` has, in `q`, the bumped score from `before` when it has a reason, and
   * its entry of `before` otherwise.
   */
  predicate Formatted(q: Annotations, before: Annotations, id: string, o: Options) {
    && (id in q.reasons ==> id in q.scores && q.scores[id] == FormatScore(Prior(before, id), o))
    && (id !in q.reasons ==> (id in q.scores <==> id in before.scores) && (id in q.scores ==> q.scores[id] == before.scores[id]))
  }

  /** A format step on another row keeps an identifier formatted. */
  lemma StepKeepsFormatted(p: Progress, r: Row, id: string, before: Annotations, o: Options)
    requires id != r.orderId && Formatted(p.ann, before, id, o)
    ensures Formatted(FormatStep(p, r, o).ann, before, id, o)
  {
    FormatStepOther(p, r, id, o);
  }

  /** A format step leaves another identifier's entries alone. */
  lemma FormatStepOther(p: Progress, r: Row, id: string, o: Options)
    requires id != r.orderId
    ensures var q := FormatStep(p, r, o).ann;
      && (id in q.reasons <==> id in p.ann.reasons)
      && (id in q.scores <==> id in p.ann.scores)
      && (id in q.scores ==> q.scores[id] == p.ann.scores[id])
  {}

  /**
   * The score a row with a unique identifier ends `detectAll` with: its price
   * score from 0, then its quantity score from that (`|| 0` reading NaN as 0),
   * then, when the identifier has any reason, the format bump from that.
   */
  lemma DetectScore(rows: seq<Row>, o: Options, i: int)
    requires DistinctIds(rows) && 0 <= i < |rows|
    ensures var r, d := rows[i], Detect(rows, o);
      var s1 := Clamp(PriceScore(r, StatsFor(rows, r.productName), o, 0.0), 0.0, 1.0);
      var s2 := Clamp(QuantityScore(r, BoundsFor(rows, r.productName, o.iqrFactor), OrZero(s1)), 0.0, 1.0);
      r.orderId in d.scores
      && d.scores[r.orderId] == if r.orderId in d.reasons then FormatScore(OrZero(s2), o) else s2
  {
    var a1 := PricePass(Empty, rows, o);
    var a2 := QuantityPass(a1, rows, o);
    PriceFoldAt(Empty, rows, rows, i, o);
    QuantityFoldAt(a1, rows, rows, i, o);
    FormatFoldAt(Progress(a2, {}), rows, i, o);
  }

  /**
   * A row with a unique identifier and a NaN quantity loses its price score:
   * it ends with NaN, or, when flagged, with the bare format bump.
   */
  lemma NaNQuantityWipesScore(rows: seq<Row>, o: Options, i: int)
    requires DistinctIds(rows) && 0 <= i < |rows| && rows[i].quantity.NaN?
    ensures var id, d := rows[i].orderId, Detect(rows, o);
      id in d.scores && d.scores[id] == if id in d.reasons then FormatScore(0.0, o) else NaN
  {
    DetectScore(rows, o, i);
  }

  // ------------------------------------------------------------------ flagged identifiers

  /** The least score the format bump guarantees: the bump, capped at 1. */
  function BumpFloor(o: Options): real {
    if o.formatBump < 1.0 then o.formatBump else 1.0
  }

  /** `id` has a finite score, at least the bump floor when the bump is not negative. */
  predicate Bumped(a: Annotations, id: string, o: Options) {
    id in a.scores && a.scores[id].Fin? && (o.formatBump >= 0.0 ==> a.scores[id].v >= BumpFloor(o))
  }

  /** Every identifier of `ids` with a reason is bumped. */
  ghost predicate FlaggedBumped(a: Annotations, ids: set<string>, o: Options) {
    forall id :: id in a.reasons && id in ids ==> Bumped(a, id, o)
  }

  /** The format bump from a score in [0, 1] reaches the bump floor. */
  lemma FormatScoreFloor(prior: real, o: Options)
    requires 0.0 <= prior <= 1.0
    ensures o.formatBump >= 0.0 ==> FormatScore(prior, o).v >= BumpFloor(o)
  {}

  /** A format step bumps its row's identifier when that has a reason. */
  lemma FormatStepBumps(p: Progress, r: Row, o: Options)
    requires Valid(p.ann)
    ensures var q := FormatStep(p, r, o).ann;
      r.orderId in q.reasons ==> Bumped(q, r.orderId, o)
  {
    FormatScoreFloor(Prior(p.ann, r.orderId), o);
  }

  /** A format step keeps every other identifier's reasons and score. */
  lemma FormatStepKeeps(p: Progress, r: Row, ids: set<string>, o: Options)
    requires Valid(p.ann) && FlaggedBumped(p.ann, ids, o)
    ensures FlaggedBumped(FormatStep(p, r, o).ann, ids + {r.orderId}, o)
  {
    var q := FormatStep(p, r, o).ann;
    FormatStepBumps(p, r, o);
    forall id | id != r.orderId
      ensures (id in q.reasons ==> id in p.ann.reasons) && (id in p.ann.scores ==> id in q.scores && q.scores[id] == p.ann.scores[id])
    {
      FormatStepOther(p, r, id, o);
    }
    KeepsBumped(p.ann, q, ids, r.orderId, o);
  }

  /** Identifiers other than `added` whose reasons and scores carry over stay bumped. */
  lemma KeepsBumped(a: Annotations, b: Annotations, ids: set<string>, added: string, o: Options)
    requires FlaggedBumped(a, ids, o)
    requires forall id :: id != added ==> (id in b.reasons ==> id in a.reasons)
    requires forall id :: id != added ==> (id in a.scores ==> id in b.scores && b.scores[id] == a.scores[id])
    requires added in b.reasons ==> Bumped(b, added, o)
    ensures FlaggedBumped(b, ids + {added}, o)
  {
    forall id | id in b.reasons && id in ids + {added}
      ensures Bumped(b, id, o)
    {
      if id != added {
        SameScoreBumped(a, b, id, o);
      }
    }
  }

  /** Being bumped depends on the score alone. */
  lemma SameScoreBumped(a: Annotations, b: Annotations, id: string, o: Options)
    requires Bumped(a, id, o) && id in b.scores && b.scores[id] == a.scores[id]
    ensures Bumped(b, id, o)
  {}

  /**
   * Every identifier the format loop visits and that has a reason, from any
   * pass, ends with a finite score of at least the bump floor.
   */
  lemma {:induction false} FormatFoldBumped(p: Progress, rows: seq<Row>, o: Options)
    requires Valid(p.ann)
    ensures FlaggedBumped(FormatFold(p, rows, o).ann, Ids(rows), o)
    decreases |rows|
  {
    if rows != [] {
      var init, last := rows[..|rows| - 1], rows[|rows| - 1];
      IdsSnoc(rows);
      FormatFoldBumped(p, init, o);
      FormatStepKeeps(FormatFold(p, init, o), last, Ids(init), o);
    }
  }

  /**
   * After `detectAll`, every flagged identifier has a finite score of at least
   * the bump floor: a NaN left by the price or quantity pass never survives on
   * a flagged row.
   */
  lemma DetectFlaggedBumped(rows: seq<Row>, o: Options)
    ensures forall id :: id in Detect(rows, o).reasons ==> Bumped(Detect(rows, o), id, o)
  {
    var a2 := QuantityPass(PricePass(Empty, rows, o), rows, o);
    DetectValid(rows, o);
    FormatFoldBumped(Progress(a2, {}), rows, o);
  }

  /**
   * `detectAll` keeps the detector's invariant: every score NaN or in [0, 1],
   * every reason list non-empty, and every key an identifier of the rows.
   */
  lemma DetectValid(rows: seq<Row>, o: Options)
    ensures var a2 := QuantityPass(PricePass(Empty, rows, o), rows, o);
      Valid(a2) && Within(a2, Ids(rows))
    ensures Valid(Detect(rows, o)) && Within(Detect(rows, o), Ids(rows))
  {
    EmptyValid(Ids(rows));
  }
}
