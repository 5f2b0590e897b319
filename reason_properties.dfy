/**
 * What the three passes of src/detectors/AnomalyDetector.js promise about the
 * reason lists they leave, taken together: which reasons an identifier ends up
 * with and in which order, that a switched-off rule never speaks, how many
 * duplicate reasons repeated identifiers draw, and that rows coming out of
 * `normalizeRows` never draw the duplicate or white-space reasons.
 */
module ReasonProperties {
  import opened Records
  import opened Statistics
  import opened Rules
  import opened DataCleaner
  import opened Email
  import opened DetectorState
  import opened Passes

  // ------------------------------------------------------------------ what each pass notes

  /** Regrouping an append; a lemma, so the fold proofs see only the three lists. */
  lemma AppendAssoc<T>(a: seq<T>, b: seq<T>, c: seq<T>)
    ensures a + b + c == a + (b + c)
  {}

  /** The reasons pass `ph` notes for row `r`; `seen` matters to the format pass only. */
  function RowReasons(ph: Phase, all: seq<Row>, r: Row, seen: bool, o: Options): seq<Reason> {
    match ph
    case PricePhase => PriceReasons(r, StatsFor(all, r.productName), o)
    case QuantityPhase => QuantityReasons(r, BoundsFor(all, r.productName, o.iqrFactor), o)
    case FormatPhase => FormatReasons(r, seen, o)
  }

  /**
   * The reasons a pass that has read `rows` has noted for `id`, row after row;
   * `seen` is `seenOrder` before the first row. A row counts as seen when its
   * identifier was in `seen` or, with the duplicate rule on, on an earlier row.
   */
  function Noted(ph: Phase, all: seq<Row>, rows: seq<Row>, seen: set<string>, id: string, o: Options): seq<Reason>
    decreases |rows|
  {
    if rows == [] then []
    else
      var init, last := rows[..|rows| - 1], rows[|rows| - 1];
      Noted(ph, all, init, seen, id, o)
        + (if last.orderId == id
           then RowReasons(ph, all, last, id in seen || (o.rules.duplicateOrderId && id in Ids(init)), o)
           else [])
  }

  /** `Noted` reads one more row. */
  lemma NotedSnoc(ph: Phase, all: seq<Row>, rows: seq<Row>, seen: set<string>, id: string, o: Options)
    requires rows != []
    ensures var init, last := rows[..|rows| - 1], rows[|rows| - 1];
      Noted(ph, all, rows, seen, id, o)
        == Noted(ph, all, init, seen, id, o)
           + (if last.orderId == id
              then RowReasons(ph, all, last, id in seen || (o.rules.duplicateOrderId && id in Ids(init)), o)
              else [])
  {}

  /** One price step appends the row's price reasons to its own identifier only. */
  lemma PriceStepNoted(b: Annotations, all: seq<Row>, r: Row, id: string, o: Options)
    ensures ReasonsOf(PriceStep(b, all, r, o), id)
      == ReasonsOf(b, id) + (if r.orderId == id then RowReasons(PricePhase, all, r, false, o) else [])
  {}

  /** One quantity step appends the row's quantity reasons to its own identifier only. */
  lemma QuantityStepNoted(b: Annotations, all: seq<Row>, r: Row, id: string, o: Options)
    ensures ReasonsOf(QuantityStep(b, all, r, o), id)
      == ReasonsOf(b, id) + (if r.orderId == id then RowReasons(QuantityPhase, all, r, false, o) else [])
  {}

  /** One format step appends the row's format reasons to its own identifier only. */
  lemma FormatStepNoted(q: Progress, r: Row, id: string, o: Options)
    ensures ReasonsOf(FormatStep(q, r, o).ann, id)
      == ReasonsOf(q.ann, id) + (if r.orderId == id then RowReasons(FormatPhase, [], r, id in q.seen, o) else [])
  {
    if r.orderId == id {
      assert RowReasons(FormatPhase, [], r, id in q.seen, o) == FormatReasons(r, id in q.seen, o);
    } else {
      assert ReasonsOf(q.ann, id) + [] == ReasonsOf(q.ann, id);
    }
  }

  /** The price loop appends to the list of `id` exactly what `Noted` lists. */
  lemma {:induction false} PriceFoldNoted(a: Annotations, all: seq<Row>, rows: seq<Row>, id: string, o: Options)
    ensures ReasonsOf(PriceFold(a, all, rows, o), id) == ReasonsOf(a, id) + Noted(PricePhase, all, rows, {}, id, o)
    decreases |rows|
  {
    if rows != [] {
      var init, last := rows[..|rows| - 1], rows[|rows| - 1];
      PriceFoldNoted(a, all, init, id, o);
      PriceStepNoted(PriceFold(a, all, init, o), all, last, id, o);
      NotedSnoc(PricePhase, all, rows, {}, id, o);
      assert PriceFold(a, all, rows, o) == PriceStep(PriceFold(a, all, init, o), all, last, o);
      assert RowReasons(PricePhase, all, last, id in {} || (o.rules.duplicateOrderId && id in Ids(init)), o)
        == RowReasons(PricePhase, all, last, false, o);
      AppendAssoc(ReasonsOf(a, id), Noted(PricePhase, all, init, {}, id, o),
        if last.orderId == id then RowReasons(PricePhase, all, last, false, o) else []);
    }
  }

  /** The quantity loop appends to the list of `id` exactly what `Noted` lists. */
  lemma {:induction false} QuantityFoldNoted(a: Annotations, all: seq<Row>, rows: seq<Row>, id: string, o: Options)
    ensures ReasonsOf(QuantityFold(a, all, rows, o), id) == ReasonsOf(a, id) + Noted(QuantityPhase, all, rows, {}, id, o)
    decreases |rows|
  {
    if rows != [] {
      var init, last := rows[..|rows| - 1], rows[|rows| - 1];
      QuantityFoldNoted(a, all, init, id, o);
      QuantityStepNoted(QuantityFold(a, all, init, o), all, last, id, o);
      NotedSnoc(QuantityPhase, all, rows, {}, id, o);
      assert QuantityFold(a, all, rows, o) == QuantityStep(QuantityFold(a, all, init, o), all, last, o);
      assert RowReasons(QuantityPhase, all, last, id in {} || (o.rules.duplicateOrderId && id in Ids(init)), o)
        == RowReasons(QuantityPhase, all, last, false, o);
      AppendAssoc(ReasonsOf(a, id), Noted(QuantityPhase, all, init, {}, id, o),
        if last.orderId == id then RowReasons(QuantityPhase, all, last, false, o) else []);
    }
  }

  /** The format loop appends to the list of `id` exactly what `Noted` lists. */
  lemma {:induction false} FormatFoldNoted(p: Progress, rows: seq<Row>, id: string, o: Options)
    ensures ReasonsOf(FormatFold(p, rows, o).ann, id) == ReasonsOf(p.ann, id) + Noted(FormatPhase, [], rows, p.seen, id, o)
    decreases |rows|
  {
    if rows != [] {
      var init, last := rows[..|rows| - 1], rows[|rows| - 1];
      FormatFoldNoted(p, init, id, o);
      var q := FormatFold(p, init, o);
      FormatStepNoted(q, last, id, o);
      NotedSnoc(FormatPhase, [], rows, p.seen, id, o);
      var flag := id in p.seen || (o.rules.duplicateOrderId && id in Ids(init));
      assert id in q.seen <==> flag;
      AppendAssoc(ReasonsOf(p.ann, id), Noted(FormatPhase, [], init, p.seen, id, o),
        if last.orderId == id then RowReasons(FormatPhase, [], last, flag, o) else []);
    }
  }

  /**
   * Phase order: on a fresh detector, an identifier's list holds its price
   * reasons, then its quantity reasons, then its format reasons, each in row order.
   */
  lemma DetectNoted(rows: seq<Row>, id: string, o: Options)
    ensures ReasonsOf(Detect(rows, o), id)
      == Noted(PricePhase, rows, rows, {}, id, o) + Noted(QuantityPhase, rows, rows, {}, id, o)
         + Noted(FormatPhase, [], rows, {}, id, o)
  {
    var a1 := PricePass(Empty, rows, o);
    var a2 := QuantityPass(a1, rows, o);
    PriceFoldNoted(Empty, rows, rows, id, o);
    QuantityFoldNoted(a1, rows, rows, id, o);
    FormatFoldNoted(Progress(a2, {}), rows, id, o);
    assert ReasonsOf(Empty, id) == [];
    var x := Noted(PricePhase, rows, rows, {}, id, o);
    assert [] + x == x;
  }

  /** An identifier of no row draws nothing. */
  lemma {:induction false} NotedAbsent(ph: Phase, all: seq<Row>, rows: seq<Row>, seen: set<string>, id: string, o: Options)
    requires id !in Ids(rows)
    ensures Noted(ph, all, rows, seen, id, o) == []
    decreases |rows|
  {
    if rows != [] {
      var init, last := rows[..|rows| - 1], rows[|rows| - 1];
      assert last in rows;
      assert Ids(init) <= Ids(rows) by {
        forall r | r in init ensures r in rows { }
      }
      NotedAbsent(ph, all, init, seen, id, o);
    }
  }

  /**
   * With pairwise distinct identifiers, the identifier of row `i` draws that
   * row's reasons, judged against `seen` alone.
   */
  lemma {:induction false} DistinctNoted(ph: Phase, all: seq<Row>, rows: seq<Row>, seen: set<string>, i: int, o: Options)
    requires DistinctIds(rows) && 0 <= i < |rows|
    ensures Noted(ph, all, rows, seen, rows[i].orderId, o) == RowReasons(ph, all, rows[i], rows[i].orderId in seen, o)
    decreases |rows|
  {
    var init, last := rows[..|rows| - 1], rows[|rows| - 1];
    var id := rows[i].orderId;
    DistinctSnoc(rows);
    NotedSnoc(ph, all, rows, seen, id, o);
    var n := Noted(ph, all, init, seen, id, o);
    if i == |init| {
      NotedAbsent(ph, all, init, seen, id, o);
      assert n + RowReasons(ph, all, last, id in seen, o) == RowReasons(ph, all, last, id in seen, o);
    } else {
      DistinctNoted(ph, all, init, seen, i, o);
      assert n + [] == n;
    }
  }

  /** With distinct identifiers, the last row's identifier is new and only the last row has it. */
  lemma DistinctSnoc(rows: seq<Row>)
    requires DistinctIds(rows) && rows != []
    ensures var init, last := rows[..|rows| - 1], rows[|rows| - 1];
      && DistinctIds(init)
      && last.orderId !in Ids(init)
      && Ids(rows) == Ids(init) + {last.orderId}
      && (forall i :: 0 <= i < |init| ==> rows[i] == init[i] && rows[i].orderId != last.orderId)
  {
    var init, last := rows[..|rows| - 1], rows[|rows| - 1];
    assert rows == init + [last];
  }

  /**
   * With pairwise distinct identifiers, row `i` ends with its price reasons,
   * then its quantity reasons, then its format reasons, and never a duplicate.
   */
  lemma PhaseOrder(rows: seq<Row>, o: Options, i: int)
    requires DistinctIds(rows) && 0 <= i < |rows|
    ensures var r := rows[i];
      ReasonsOf(Detect(rows, o), r.orderId)
        == PriceReasons(r, StatsFor(rows, r.productName), o)
           + QuantityReasons(r, BoundsFor(rows, r.productName, o.iqrFactor), o)
           + FormatReasons(r, false, o)
  {
    var r := rows[i];
    DetectNoted(rows, r.orderId, o);
    DistinctNoted(PricePhase, rows, rows, {}, i, o);
    DistinctNoted(QuantityPhase, rows, rows, {}, i, o);
    DistinctNoted(FormatPhase, [], rows, {}, i, o);
    Unseen(r, {}, o);
  }

  /** A row whose identifier was not seen is judged with `seen` false. */
  lemma Unseen(r: Row, seen: set<string>, o: Options)
    requires r.orderId !in seen
    ensures RowReasons(FormatPhase, [], r, r.orderId in seen, o) == FormatReasons(r, false, o)
  {}

  // ------------------------------------------------------------------ gating

  /** Every list holds only reasons of switched-on rules. */
  ghost predicate Gated(a: Annotations, rules: RuleSet) {
    forall id :: AllEnabled(rules, ReasonsOf(a, id))
  }

  lemma {:induction false} NotedGated(ph: Phase, all: seq<Row>, rows: seq<Row>, seen: set<string>, id: string, o: Options)
    ensures AllEnabled(o.rules, Noted(ph, all, rows, seen, id, o))
    decreases |rows|
  {
    if rows != [] {
      var init, last := rows[..|rows| - 1], rows[|rows| - 1];
      NotedGated(ph, all, init, seen, id, o);
      if last.orderId == id {
        var flag := id in seen || (o.rules.duplicateOrderId && id in Ids(init));
        EnabledAppend(o.rules, Noted(ph, all, init, seen, id, o), RowReasons(ph, all, last, flag, o));
      } else {
        EnabledAppend(o.rules, Noted(ph, all, init, seen, id, o), []);
      }
    }
  }

  /** A switched-off rule never contributes a reason to `detectAll`. */
  lemma DetectGated(rows: seq<Row>, o: Options)
    ensures Gated(Detect(rows, o), o.rules)
    ensures forall id, m :: m in ReasonsOf(Detect(rows, o), id) ==> o.rules.On(m.Rule())
  {
    forall id
      ensures AllEnabled(o.rules, ReasonsOf(Detect(rows, o), id))
    {
      DetectNoted(rows, id, o);
      var p, q, f := Noted(PricePhase, rows, rows, {}, id, o), Noted(QuantityPhase, rows, rows, {}, id, o),
        Noted(FormatPhase, [], rows, {}, id, o);
      NotedGated(PricePhase, rows, rows, {}, id, o);
      NotedGated(QuantityPhase, rows, rows, {}, id, o);
      NotedGated(FormatPhase, [], rows, {}, id, o);
      EnabledAppend(o.rules, p, q);
      EnabledAppend(o.rules, p + q, f);
    }
  }

  // ------------------------------------------------------------------ duplicates

  /** The number of rows with identifier `id`. */
  function Occurrences(rows: seq<Row>, id: string): (n: nat)
    ensures n == 0 <==> id !in Ids(rows)
    decreases |rows|
  {
    if rows == [] then 0
    else
      var init, last := rows[..|rows| - 1], rows[|rows| - 1];
      assert rows == init + [last];
      assert Ids(rows) == Ids(init) + {last.orderId};
      Occurrences(init, id) + (if last.orderId == id then 1 else 0)
  }

  /** A gate yields a duplicate reason once when it gates that reason and lets it through. */
  lemma GateDuplicates(rules: RuleSet, c: bool, m: Reason)
    ensures multiset(Gate(rules, c, m))[DuplicateId] == if m == DuplicateId && rules.On(m.Rule()) && c then 1 else 0
  {}

  lemma MultisetAppend<T>(a: seq<T>, b: seq<T>, c: seq<T>, d: seq<T>, x: T)
    ensures multiset(a + b)[x] == multiset(a)[x] + multiset(b)[x]
    ensures multiset(a + b + c)[x] == multiset(a)[x] + multiset(b)[x] + multiset(c)[x]
    ensures multiset(a + b + c + d)[x] == multiset(a)[x] + multiset(b)[x] + multiset(c)[x] + multiset(d)[x]
  {
    calc {
      multiset(a + b + c + d);
      multiset(a + b + c) + multiset(d);
      multiset(a + b) + multiset(c) + multiset(d);
    }
  }

  /** The identifier, date, e-mail and country rules draw one duplicate reason exactly for a seen row. */
  lemma RecordDuplicates(r: Row, seen: bool, emailOk: bool, o: Options)
    ensures multiset(RecordReasons(r, seen, emailOk, o))[DuplicateId] == if o.rules.duplicateOrderId && seen then 1 else 0
  {
    var a := Gate(o.rules, seen, DuplicateId);
    var b := Gate(o.rules, r.orderDate.None?, BadDate);
    var c := Gate(o.rules, !emailOk, MalformedEmail);
    var d := Gate(o.rules, r.country !in o.allowedCountries, SuspectCountry(r.country));
    GateDuplicates(o.rules, seen, DuplicateId);
    GateDuplicates(o.rules, r.orderDate.None?, BadDate);
    GateDuplicates(o.rules, !emailOk, MalformedEmail);
    GateDuplicates(o.rules, r.country !in o.allowedCountries, SuspectCountry(r.country));
    MultisetAppend(a, b, c, d, DuplicateId);
  }

  /** The white-space and total rules never draw a duplicate reason. */
  lemma ContentDuplicates(r: Row, o: Options)
    ensures multiset(ContentReasons(r, o))[DuplicateId] == 0
  {
    var a := Gate(o.rules, Polluted(r.paymentMethod), SpuriousSpaces("payment_method"));
    var b := Gate(o.rules, Polluted(r.category), SpuriousSpaces("category"));
    var c := if r.price.Fin? && r.quantity.Fin? then Gate(o.rules, Incoherent(r), IncoherentTotal(Expected(r))) else [];
    GateDuplicates(o.rules, Polluted(r.paymentMethod), SpuriousSpaces("payment_method"));
    GateDuplicates(o.rules, Polluted(r.category), SpuriousSpaces("category"));
    if r.price.Fin? && r.quantity.Fin? {
      GateDuplicates(o.rules, Incoherent(r), IncoherentTotal(Expected(r)));
    }
    MultisetAppend(a, b, c, [], DuplicateId);
  }

  /** A row draws one duplicate reason when its rule is on and the identifier was seen, none otherwise. */
  lemma RowDuplicates(r: Row, seen: bool, o: Options)
    ensures multiset(FormatReasons(r, seen, o))[DuplicateId] == if o.rules.duplicateOrderId && seen then 1 else 0
  {
    var head, tail := RecordReasons(r, seen, ValidEmail(r.customerEmail), o), ContentReasons(r, o);
    RecordDuplicates(r, seen, ValidEmail(r.customerEmail), o);
    ContentDuplicates(r, o);
    MultisetAppend(head, tail, [], [], DuplicateId);
  }

  /**
   * From an empty `seenOrder` with the duplicate rule on, an identifier on `n`
   * rows draws `n - 1` duplicate reasons: every row but the first.
   */
  lemma {:induction false} NotedDuplicates(rows: seq<Row>, id: string, o: Options)
    ensures multiset(Noted(FormatPhase, [], rows, {}, id, o))[DuplicateId]
      == if o.rules.duplicateOrderId && Occurrences(rows, id) > 0 then Occurrences(rows, id) - 1 else 0
    decreases |rows|
  {
    if rows != [] {
      var init, last := rows[..|rows| - 1], rows[|rows| - 1];
      NotedDuplicates(init, id, o);
      NotedDuplicatesSnoc(rows, id, o);
      assert Occurrences(rows, id) == Occurrences(init, id) + (if last.orderId == id then 1 else 0);
    }
  }

  /** The format pass's duplicate reasons for `id` after one more row. */
  lemma NotedDuplicatesSnoc(rows: seq<Row>, id: string, o: Options)
    requires rows != []
    ensures var init, last := rows[..|rows| - 1], rows[|rows| - 1];
      multiset(Noted(FormatPhase, [], rows, {}, id, o))[DuplicateId]
        == multiset(Noted(FormatPhase, [], init, {}, id, o))[DuplicateId]
           + (if last.orderId == id && o.rules.duplicateOrderId && id in Ids(init) then 1 else 0)
  {
    var init, last := rows[..|rows| - 1], rows[|rows| - 1];
    var seen := o.rules.duplicateOrderId && id in Ids(init);
    var add := if last.orderId == id then FormatReasons(last, seen, o) else [];
    var n0 := Noted(FormatPhase, [], init, {}, id, o);
    assert Noted(FormatPhase, [], rows, {}, id, o) == n0 + add;
    MultisetAppend(n0, add, [], [], DuplicateId);
    if last.orderId == id {
      RowDuplicates(last, seen, o);
    }
  }

  /** Price and quantity reasons are never duplicate reasons. */
  lemma {:induction false} NotedNoDuplicate(ph: Phase, all: seq<Row>, rows: seq<Row>, id: string, o: Options)
    requires ph != FormatPhase
    ensures DuplicateId !in Noted(ph, all, rows, {}, id, o)
    decreases |rows|
  {
    if rows != [] {
      NotedNoDuplicate(ph, all, rows[..|rows| - 1], id, o);
    }
  }

  /**
   * After `detectAll`, an identifier on `n` rows carries `n - 1` duplicate
   * reasons when the rule is on, and none when it is off.
   */
  lemma DetectDuplicates(rows: seq<Row>, id: string, o: Options)
    ensures multiset(ReasonsOf(Detect(rows, o), id))[DuplicateId]
      == if o.rules.duplicateOrderId && id in Ids(rows) then Occurrences(rows, id) - 1 else 0
  {
    DetectNoted(rows, id, o);
    NotedNoDuplicate(PricePhase, rows, rows, id, o);
    NotedNoDuplicate(QuantityPhase, rows, rows, id, o);
    NotedDuplicates(rows, id, o);
    DuplicatesFromLast(Noted(PricePhase, rows, rows, {}, id, o), Noted(QuantityPhase, rows, rows, {}, id, o),
      Noted(FormatPhase, [], rows, {}, id, o));
  }

  /** Only the last of three reason lists holds duplicate reasons. */
  lemma DuplicatesFromLast(a: seq<Reason>, b: seq<Reason>, c: seq<Reason>)
    requires DuplicateId !in a && DuplicateId !in b
    ensures multiset(a + b + c)[DuplicateId] == multiset(c)[DuplicateId]
  {
    assert multiset(a + b + c) == multiset(a) + multiset(b) + multiset(c);
  }

  // ------------------------------------------------------------------ normalized rows

  /** Every kept row is one of the input rows. */
  lemma DedupSubset(rows: seq<Row>)
    ensures forall r :: r in Dedup(rows) ==> r in rows
  {
    forall r | r in Dedup(rows)
      ensures r in rows
    {
      DedupMember(rows, r);
    }
  }


  /** No identifier carries a duplicate reason or a white-space reason. */
  ghost predicate Clean(a: Annotations) {
    forall id, m :: m in ReasonsOf(a, id) ==> !m.DuplicateId? && !m.SpuriousSpaces?
  }

  /** A first-seen row with tidy `payment_method` and `category` draws neither reason. */
  lemma TidyRowReasons(r: Row, st: PriceStats, b: Bounds, o: Options)
    requires st.mad > 0.0 && Tidy(r.paymentMethod) && Tidy(r.category)
    ensures forall m :: m in PriceReasons(r, st, o) + QuantityReasons(r, b, o) + FormatReasons(r, false, o) ==>
      !m.DuplicateId? && !m.SpuriousSpaces?
  {
    var p, q, f := PriceReasons(r, st, o), QuantityReasons(r, b, o), FormatReasons(r, false, o);
    FormatRecordFlags(r, false, o);
    FormatContentFlags(r, false, o);
    InTwo(p, q);
    InTwo(p + q, f);
  }

  /**
   * Rows with distinct identifiers and tidy `payment_method` and `category`
   * draw neither a duplicate reason nor a white-space reason, whatever the options.
   */
  lemma DistinctTidyClean(rows: seq<Row>, o: Options)
    requires DistinctIds(rows)
    requires forall r :: r in rows ==> Tidy(r.paymentMethod) && Tidy(r.category)
    ensures Clean(Detect(rows, o))
  {
    forall id
      ensures forall m :: m in ReasonsOf(Detect(rows, o), id) ==> !m.DuplicateId? && !m.SpuriousSpaces?
    {
      if id in Ids(rows) {
        var i :| 0 <= i < |rows| && rows[i].orderId == id;
        CleanRow(rows, o, i);
      } else {
        AbsentClean(rows, o, id);
      }
    }
  }

  /** Under the premises of `DistinctTidyClean`, the identifier of row `i`. */
  lemma CleanRow(rows: seq<Row>, o: Options, i: int)
    requires DistinctIds(rows) && 0 <= i < |rows|
    requires Tidy(rows[i].paymentMethod) && Tidy(rows[i].category)
    ensures forall m :: m in ReasonsOf(Detect(rows, o), rows[i].orderId) ==> !m.DuplicateId? && !m.SpuriousSpaces?
  {
    var r := rows[i];
    PhaseOrder(rows, o, i);
    TidyRowReasons(r, StatsFor(rows, r.productName), BoundsFor(rows, r.productName, o.iqrFactor), o);
  }

  /** An identifier of no row has no reasons at all. */
  lemma AbsentClean(rows: seq<Row>, o: Options, id: string)
    requires id !in Ids(rows)
    ensures ReasonsOf(Detect(rows, o), id) == []
  {
    DetectNoted(rows, id, o);
    NotedAbsent(PricePhase, rows, rows, {}, id, o);
    NotedAbsent(QuantityPhase, rows, rows, {}, id, o);
    NotedAbsent(FormatPhase, [], rows, {}, id, o);
  }

  /**
   * Rows as `normalizeRows` returns them draw neither a duplicate reason nor a
   * white-space reason, whatever the options: identifiers are unique and the
   * two checked fields are already trimmed and single-spaced.
   */
  lemma NormalizedRowsClean(raw: seq<RawRecord>, cal: Calendar, o: Options)
    ensures Clean(Detect(Dedup(NormalizeAll(raw, cal)), o))
  {
    var all := NormalizeAll(raw, cal);
    var rows := Dedup(all);
    DedupIds(all);
    assert forall r :: r in rows ==> Tidy(r.paymentMethod) && Tidy(r.category) by {
      DedupSubset(all);
      NormalizedTidy(raw, cal);
    }
    DistinctTidyClean(rows, o);
  }

  /** `normalizeRows` trims and collapses `payment_method` and `category` of every row. */
  lemma NormalizedTidy(raw: seq<RawRecord>, cal: Calendar)
    ensures forall r :: r in NormalizeAll(raw, cal) ==> Tidy(r.paymentMethod) && Tidy(r.category)
  {
    var all := NormalizeAll(raw, cal);
    forall r | r in all
      ensures Tidy(r.paymentMethod) && Tidy(r.category)
    {
      var k :| 0 <= k < |all| && all[k] == r;
      assert r == NormalizeRecord(raw[k], cal);
    }
  }
}
