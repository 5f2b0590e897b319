/**
 * The rule engine of src/detectors/AnomalyDetector.js, row by row: the
 * options and their merge with the defaults, the reasons a row can be given,
 * the white-space check, and what each pass notes and scores for
 * one row once the per-product statistics are known.
 */
module Rules {
  import opened Outcomes
  import opened JsNumber
  import opened JsText
  import opened Records
  import opened Statistics
  import opened DataCleaner
  import opened Email

  // ------------------------------------------------------------------ options

  /** The ten rule switches of `opts.rules`. */
  datatype RuleName =
    | PriceNegative | PriceRobustZ | QuantityNonPositive | QuantityIqr | DuplicateOrderId
    | InvalidDate | InvalidEmail | CountryWhitelist | WhitespaceFields | TotalIncoherent
  {
    /** The pass that applies the rule. */
    function Phase(): Phase {
      match this
      case PriceNegative | PriceRobustZ => PricePhase
      case QuantityNonPositive | QuantityIqr => QuantityPhase
      case _ => FormatPhase
    }
  }

  /** The three passes of `detectAll`, in the order it runs them. */
  datatype Phase = PricePhase | QuantityPhase | FormatPhase

  datatype RuleSet = RuleSet(
    priceNegative: bool, priceRobustZ: bool, quantityNonPositive: bool, quantityIqr: bool,
    duplicateOrderId: bool, invalidDate: bool, invalidEmail: bool, countryWhitelist: bool,
    whitespaceFields: bool, totalIncoherent: bool)
  {
    /** `rules[name]`. */
    function On(name: RuleName): bool {
      match name
      case PriceNegative => priceNegative
      case PriceRobustZ => priceRobustZ
      case QuantityNonPositive => quantityNonPositive
      case QuantityIqr => quantityIqr
      case DuplicateOrderId => duplicateOrderId
      case InvalidDate => invalidDate
      case InvalidEmail => invalidEmail
      case CountryWhitelist => countryWhitelist
      case WhitespaceFields => whitespaceFields
      case TotalIncoherent => totalIncoherent
    }
  }

  /** The options the detector reads (`this.opts`). */
  datatype Options = Options(
    priceZThreshold: real,
    negativePriceBump: real,
    iqrFactor: real,
    formatBump: real,
    rules: RuleSet,
    allowedCountries: seq<string>)

  const AllRules: RuleSet := RuleSet(true, true, true, true, true, true, true, true, true, true)

  /** `DEFAULT_OPTIONS` (AnomalyDetector.js:19-37). */
  const Defaults: Options := Options(
    3.5, 0.3, 1.5, 0.2, AllRules,
    ["France", "Germany", "Italy", "Italia", "Spain", "Belgium", "Netherlands"])

  /**
   * The `options` argument of the constructor: each key may be absent; `rules`
   * holds only the switches it sets (an absent `options.rules` is `{}`).
   */
  datatype Overrides = Overrides(
    priceZThreshold: Option<real>,
    negativePriceBump: Option<real>,
    iqrFactor: Option<real>,
    formatBump: Option<real>,
    rules: map<RuleName, bool>,
    allowedCountries: Option<seq<string>>)

  const NoOverrides: Overrides := Overrides(None, None, None, None, map[], None)

  /** The switch `name` after merging `ov` over the defaults, which are all on. */
  function MergedRule(ov: map<RuleName, bool>, name: RuleName): (on: bool)
    ensures on <==> name !in ov || ov[name]
  {
    if name in ov then ov[name] else Defaults.rules.On(name)
  }

  function MergedRules(ov: map<RuleName, bool>): (rs: RuleSet)
    ensures forall name :: rs.On(name) == MergedRule(ov, name)
  {
    RuleSet(
      MergedRule(ov, PriceNegative), MergedRule(ov, PriceRobustZ),
      MergedRule(ov, QuantityNonPositive), MergedRule(ov, QuantityIqr),
      MergedRule(ov, DuplicateOrderId), MergedRule(ov, InvalidDate),
      MergedRule(ov, InvalidEmail), MergedRule(ov, CountryWhitelist),
      MergedRule(ov, WhitespaceFields), MergedRule(ov, TotalIncoherent))
  }

  /**
   * `{ ...DEFAULT_OPTIONS, ...options, rules: { ...DEFAULT_OPTIONS.rules, ...(options.rules||{}) } }`:
   * every key given wins, every key missing keeps its default, and a rule
   * switch that is not given is on.
   */
  function Merge(ov: Overrides): (o: Options)
    ensures forall name :: o.rules.On(name) <==> (name !in ov.rules || ov.rules[name])
    ensures o.priceZThreshold == ov.priceZThreshold.GetOr(Defaults.priceZThreshold)
    ensures o.negativePriceBump == ov.negativePriceBump.GetOr(Defaults.negativePriceBump)
    ensures o.iqrFactor == ov.iqrFactor.GetOr(Defaults.iqrFactor)
    ensures o.formatBump == ov.formatBump.GetOr(Defaults.formatBump)
    ensures o.allowedCountries == ov.allowedCountries.GetOr(Defaults.allowedCountries)
  {
    Options(
      ov.priceZThreshold.GetOr(Defaults.priceZThreshold),
      ov.negativePriceBump.GetOr(Defaults.negativePriceBump),
      ov.iqrFactor.GetOr(Defaults.iqrFactor),
      ov.formatBump.GetOr(Defaults.formatBump),
      MergedRules(ov.rules),
      ov.allowedCountries.GetOr(Defaults.allowedCountries))
  }

  /** With no options at all the detector runs with the defaults. */
  lemma MergeNothing()
    ensures Merge(NoOverrides) == Defaults
  {
    var o := Merge(NoOverrides);
    assert o.rules.priceNegative == o.rules.On(PriceNegative);
    assert o.rules.priceRobustZ == o.rules.On(PriceRobustZ);
    assert o.rules.quantityNonPositive == o.rules.On(QuantityNonPositive);
    assert o.rules.quantityIqr == o.rules.On(QuantityIqr);
    assert o.rules.duplicateOrderId == o.rules.On(DuplicateOrderId);
    assert o.rules.invalidDate == o.rules.On(InvalidDate);
    assert o.rules.invalidEmail == o.rules.On(InvalidEmail);
    assert o.rules.countryWhitelist == o.rules.On(CountryWhitelist);
    assert o.rules.whitespaceFields == o.rules.On(WhitespaceFields);
    assert o.rules.totalIncoherent == o.rules.On(TotalIncoherent);
  }

  // ------------------------------------------------------------------ reasons

  /** The reasons a row can be noted with. */
  datatype Reason =
    | NegativePrice
    | AberrantPrice(z: real)
    | NonPositiveQuantity
    | AberrantQuantity
    | DuplicateId
    | BadDate
    | MalformedEmail
    | SuspectCountry(country: string)
    | SpuriousSpaces(field: string)
    | IncoherentTotal(expected: real)
  {
    /** The rule that gates this reason. */
    function Rule(): RuleName {
      match this
      case NegativePrice => PriceNegative
      case AberrantPrice(_) => PriceRobustZ
      case NonPositiveQuantity => QuantityNonPositive
      case AberrantQuantity => QuantityIqr
      case DuplicateId => DuplicateOrderId
      case BadDate => InvalidDate
      case MalformedEmail => InvalidEmail
      case SuspectCountry(_) => CountryWhitelist
      case SpuriousSpaces(_) => WhitespaceFields
      case IncoherentTotal(_) => TotalIncoherent
    }

    /** The message the detector stores (AnomalyDetector.js:64-65, 94-95, 110-123). */
    function Text(): string {
      match this
      case NegativePrice => "Prix n\U{00E9}gatif (retour?)"
      case AberrantPrice(z) => "Prix aberrant (|z|=" + FixedText(z, 2) + ")"
      case NonPositiveQuantity => "Quantit\U{00E9} non positive"
      case AberrantQuantity => "Quantit\U{00E9} aberrante (hors IQR)"
      case DuplicateId => "Doublon order_id"
      case BadDate => "Date invalide"
      case MalformedEmail => "Email malform\U{00E9}"
      case SuspectCountry(c) => "Pays suspect: " + c
      case SpuriousSpaces(k) => k + " avec espaces parasites"
      case IncoherentTotal(e) => "total_amount incoh\U{00E9}rent (attendu " + HundredthsText((e * 100.0).Floor) + ")"
    }
  }

  /** Every reason of `ms` belongs to a switched-on rule. */
  predicate AllEnabled(rules: RuleSet, ms: seq<Reason>) {
    forall m :: m in ms ==> rules.On(m.Rule())
  }

  /**
   * `if (rules.<rule of m> && c) note(m)`: the one-element list when the rule of
   * `m` is on and `c` holds, and nothing otherwise.
   */
  function Gate(rules: RuleSet, c: bool, m: Reason): (ms: seq<Reason>)
    ensures forall x :: x in ms <==> rules.On(m.Rule()) && c && x == m
    ensures AllEnabled(rules, ms)
  {
    if rules.On(m.Rule()) && c then [m] else []
  }

  lemma EnabledAppend(rules: RuleSet, a: seq<Reason>, b: seq<Reason>)
    requires AllEnabled(rules, a) && AllEnabled(rules, b)
    ensures AllEnabled(rules, a + b)
  {}

  /** Membership in two lists in a row. */
  lemma InTwo(a: seq<Reason>, b: seq<Reason>)
    ensures forall x :: x in a + b <==> x in a || x in b
  {}

  /** Membership in four lists in a row. */
  lemma InFour(a: seq<Reason>, b: seq<Reason>, c: seq<Reason>, d: seq<Reason>)
    ensures forall x :: x in a + b + c + d <==> x in a || x in b || x in c || x in d
  {}

  // ------------------------------------------------------------------ white space

  /** `/\s{2,}/.test(v) || /^\s|\s$/.test(v)`: a run of white space, or white space at an end. */
  predicate Polluted(v: string) {
    || (exists i :: 0 <= i < |v| - 1 && IsSpace(v[i]) && IsSpace(v[i + 1]))
    || (v != [] && (IsSpace(v[0]) || IsSpace(v[|v| - 1])))
  }

  /** What `tr` produces never trips the white-space rule. */
  lemma TidyNotPolluted(v: string)
    requires Tidy(v)
    ensures !Polluted(v)
  {
    forall i | 0 <= i < |v| - 1
      ensures !(IsSpace(v[i]) && IsSpace(v[i + 1]))
    {}
  }

  // ------------------------------------------------------------------ price pass, one row

  /** `Math.abs((r.price - st.med) / (1.4826 * st.mad))` for the row's product. */
  function PriceZ(r: Row, st: PriceStats): Num
    requires st.mad > 0.0
  {
    RobustZ(r.price, st)
  }

  /** `rules.priceNegative && r.price < 0`. */
  predicate NegativeFlag(r: Row, o: Options) {
    o.rules.priceNegative && Less(r.price, Fin(0.0))
  }

  /** `robustZ > priceZThreshold`; false for a NaN z. */
  predicate AboveThreshold(z: Num, o: Options) {
    Less(Fin(o.priceZThreshold), z)
  }

  /**
   * The reasons the price pass notes for a row, in call order
   * (AnomalyDetector.js:64-65): a negative price, then a robust z above the
   * threshold, each only when its rule is on.
   */
  function PriceReasons(r: Row, st: PriceStats, o: Options): (ms: seq<Reason>)
    requires st.mad > 0.0
    ensures AllEnabled(o.rules, ms)
    ensures NegativePrice in ms <==> o.rules.priceNegative && Less(r.price, Fin(0.0))
    ensures o.rules.priceRobustZ && AboveThreshold(PriceZ(r, st), o)
      <==> PriceZ(r, st).Fin? && AberrantPrice(PriceZ(r, st).v) in ms
    ensures forall m :: m in ms ==> m == NegativePrice || m.AberrantPrice?
  {
    var z := PriceZ(r, st);
    var a := Gate(o.rules, Less(r.price, Fin(0.0)), NegativePrice);
    var b := if z.Fin? then Gate(o.rules, AboveThreshold(z, o), AberrantPrice(z.v)) else [];
    EnabledAppend(o.rules, a, b);
    a + b
  }

  /**
   * The score the price pass stores for a row before clamping
   * (AnomalyDetector.js:66-68): `max(min(1, z/6), prior) + bump`, the bump
   * being `negativePriceBump` exactly when the negative-price rule fires. It is
   * NaN exactly when the price or the product's median is not finite, and it
   * never falls below the prior unless the bump is negative.
   */
  function PriceScore(r: Row, st: PriceStats, o: Options, prior: real): (s: Num)
    requires st.mad > 0.0
    ensures s.NaN? <==> r.price.NaN? || st.med.NaN?
    ensures s.Fin? && (o.negativePriceBump >= 0.0 || !NegativeFlag(r, o)) ==> s.v >= prior
    ensures s.Fin? && !NegativeFlag(r, o) && prior <= 1.0 ==> s.v <= 1.0
  {
    var z := PriceZ(r, st);
    var base := Min(Fin(1.0), Div(z, Fin(6.0)));
    var bump := if NegativeFlag(r, o) then o.negativePriceBump else 0.0;
    Add(Max(base, Fin(prior)), Fin(bump))
  }

  // ------------------------------------------------------------------ quantity pass, one row

  /** `r.quantity < b.lo || r.quantity > b.hi`; false when either side is NaN. */
  predicate OutsideBounds(q: Num, b: Bounds) {
    Less(q, b.lo) || Less(b.hi, q)
  }

  /**
   * The reasons the quantity pass notes for a row (AnomalyDetector.js:94-95): a
   * quantity at most 0, then a quantity outside the product's bounds. NaN
   * compares false, so a NaN quantity or NaN bounds note nothing.
   */
  function QuantityReasons(r: Row, b: Bounds, o: Options): (ms: seq<Reason>)
    ensures AllEnabled(o.rules, ms)
    ensures NonPositiveQuantity in ms <==> o.rules.quantityNonPositive && r.quantity.Fin? && r.quantity.v <= 0.0
    ensures AberrantQuantity in ms <==> o.rules.quantityIqr && OutsideBounds(r.quantity, b)
    ensures forall m :: m in ms ==> m == NonPositiveQuantity || m == AberrantQuantity
  {
    var q := r.quantity;
    var a := Gate(o.rules, q.Fin? && q.v <= 0.0, NonPositiveQuantity);
    var c := Gate(o.rules, OutsideBounds(q, b), AberrantQuantity);
    EnabledAppend(o.rules, a, c);
    a + c
  }

  /**
   * The score the quantity pass stores for a row (AnomalyDetector.js:96-99):
   * the running maximum of the prior and the distance outside the bounds
   * relative to their span, clamped to [0, 1]. It is NaN when the quantity or a
   * bound is NaN, whatever the prior; otherwise it is at least the prior, and
   * exactly the prior when the quantity lies within the bounds.
   */
  function QuantityScore(r: Row, b: Bounds, prior: real): (s: Num)
    ensures s.NaN? <==> r.quantity.NaN? || b.lo.NaN? || b.hi.NaN?
    ensures s.Fin? ==> s.v >= prior && s.v >= 0.0
    ensures s.Fin? && prior <= 1.0 ==> s.v <= 1.0
    ensures s.Fin? && prior >= 0.0 && b.lo.v <= r.quantity.v <= b.hi.v ==> s.v == prior
  {
    var q := r.quantity;
    var span := Max(Fin(1.0), Sub(b.hi, b.lo));
    var dist := Max(Fin(0.0), Max(Sub(b.lo, q), Sub(q, b.hi)));
    var d := Clamp(Div(dist, span), 0.0, 1.0);
    Max(d, Fin(prior))
  }

  // ------------------------------------------------------------------ format pass, one row

  /** `+(r.price * r.quantity).toFixed(2)` for finite price and quantity. */
  function Expected(r: Row): real
    requires r.price.Fin? && r.quantity.Fin?
  {
    ToFixed(r.price.v * r.quantity.v, 2)
  }

  /** The total is finite and more than 0.01 away from the rounded product of price and quantity. */
  predicate Incoherent(r: Row) {
    r.price.Fin? && r.quantity.Fin? && r.totalAmount.Fin?
      && (Expected(r) - r.totalAmount.v > 0.01 || r.totalAmount.v - Expected(r) > 0.01)
  }

  /**
   * The identifier, date, e-mail and country rules of the format pass
   * (AnomalyDetector.js:110-113); `emailOk` is the verdict of `validEmail` on the
   * row's address.
   */
  function RecordReasons(r: Row, seen: bool, emailOk: bool, o: Options): (ms: seq<Reason>)
    ensures AllEnabled(o.rules, ms)
    ensures DuplicateId in ms <==> o.rules.duplicateOrderId && seen
    ensures BadDate in ms <==> o.rules.invalidDate && r.orderDate.None?
    ensures MalformedEmail in ms <==> o.rules.invalidEmail && !emailOk
    ensures SuspectCountry(r.country) in ms <==> o.rules.countryWhitelist && r.country !in o.allowedCountries
    ensures forall m :: m in ms ==> m.Rule().Phase() == FormatPhase
  {
    var a := Gate(o.rules, seen, DuplicateId);
    var b := Gate(o.rules, r.orderDate.None?, BadDate);
    var c := Gate(o.rules, !emailOk, MalformedEmail);
    var d := Gate(o.rules, r.country !in o.allowedCountries, SuspectCountry(r.country));
    EnabledAppend(o.rules, a, b);
    EnabledAppend(o.rules, a + b, c);
    EnabledAppend(o.rules, a + b + c, d);
    InFour(a, b, c, d);
    a + b + c + d
  }

  /**
   * The white-space and total rules of the format pass (AnomalyDetector.js:114-125):
   * `payment_method`, then `category`, then the total.
   */
  function ContentReasons(r: Row, o: Options): (ms: seq<Reason>)
    ensures AllEnabled(o.rules, ms)
    ensures o.rules.totalIncoherent && Incoherent(r)
      <==> r.price.Fin? && r.quantity.Fin? && IncoherentTotal(Expected(r)) in ms
    ensures forall m :: m in ms ==> m.Rule().Phase() == FormatPhase
    ensures SpuriousSpaces("payment_method") in ms <==> o.rules.whitespaceFields && Polluted(r.paymentMethod)
    ensures SpuriousSpaces("category") in ms <==> o.rules.whitespaceFields && Polluted(r.category)
    ensures Tidy(r.paymentMethod) && Tidy(r.category) ==> forall m :: m in ms ==> !m.SpuriousSpaces?
    ensures forall m :: m in ms ==> m.SpuriousSpaces? || m.IncoherentTotal?
  {
    assert Tidy(r.paymentMethod) ==> !Polluted(r.paymentMethod) by {
      if Tidy(r.paymentMethod) { TidyNotPolluted(r.paymentMethod); }
    }
    assert Tidy(r.category) ==> !Polluted(r.category) by {
      if Tidy(r.category) { TidyNotPolluted(r.category); }
    }
    var fin := r.price.Fin? && r.quantity.Fin?;
    var e := if fin then Expected(r) else 0.0;
    ContentGates(Polluted(r.paymentMethod), Polluted(r.category), fin, Incoherent(r), e, o.rules);
    Gate(o.rules, Polluted(r.paymentMethod), SpuriousSpaces("payment_method"))
      + Gate(o.rules, Polluted(r.category), SpuriousSpaces("category"))
      + (if fin then Gate(o.rules, Incoherent(r), IncoherentTotal(e)) else [])
  }

  /**
   * The two white-space gates and the total's gate (taken only when `fin`):
   * each reason is there exactly when its rule is on and its test fires, and
   * nothing else is.
   */
  lemma ContentGates(pm: bool, cat: bool, fin: bool, inc: bool, e: real, rules: RuleSet)
    ensures var ms := Gate(rules, pm, SpuriousSpaces("payment_method")) + Gate(rules, cat, SpuriousSpaces("category"))
        + (if fin then Gate(rules, inc, IncoherentTotal(e)) else []);
      && AllEnabled(rules, ms)
      && (SpuriousSpaces("payment_method") in ms <==> rules.whitespaceFields && pm)
      && (SpuriousSpaces("category") in ms <==> rules.whitespaceFields && cat)
      && (rules.totalIncoherent && inc && fin <==> fin && IncoherentTotal(e) in ms)
      && (forall m :: m in ms ==> m.SpuriousSpaces? || m.IncoherentTotal?)
      && (forall m :: m in ms ==> m.Rule().Phase() == FormatPhase)
      && (!pm && !cat ==> forall m :: m in ms ==> !m.SpuriousSpaces?)
  {
    var a, b := Gate(rules, pm, SpuriousSpaces("payment_method")), Gate(rules, cat, SpuriousSpaces("category"));
    var c := if fin then Gate(rules, inc, IncoherentTotal(e)) else [];
    FieldNamesDiffer();
    assert rules.On(WhitespaceFields) == rules.whitespaceFields;
    assert rules.On(TotalIncoherent) == rules.totalIncoherent;
    EnabledAppend(rules, a, b);
    EnabledAppend(rules, a + b, c);
    InThree(a, b, c);
  }

  lemma FieldNamesDiffer()
    ensures SpuriousSpaces("payment_method") != SpuriousSpaces("category")
  {
    assert "payment_method"[0] != "category"[0];
  }

  /** Membership in three lists in a row. */
  lemma InThree(a: seq<Reason>, b: seq<Reason>, c: seq<Reason>)
    ensures forall x :: x in a + b + c <==> x in a || x in b || x in c
  {}

  /** The record rules note identifier, date, e-mail and country reasons only. */
  lemma RecordKinds(r: Row, seen: bool, emailOk: bool, o: Options)
    ensures forall m :: m in RecordReasons(r, seen, emailOk, o) ==>
      m.DuplicateId? || m.BadDate? || m.MalformedEmail? || m.SuspectCountry?
  {
    var a := Gate(o.rules, seen, DuplicateId);
    var b := Gate(o.rules, r.orderDate.None?, BadDate);
    var c := Gate(o.rules, !emailOk, MalformedEmail);
    var d := Gate(o.rules, r.country !in o.allowedCountries, SuspectCountry(r.country));
    InFour(a, b, c, d);
  }

  /**
   * The reasons the format pass notes for a row, in call order
   * (AnomalyDetector.js:110-125). `seen` says whether an earlier row of the pass
   * had the same identifier. All of them belong to rules of the format pass.
   */
  function FormatReasons(r: Row, seen: bool, o: Options): (ms: seq<Reason>)
    ensures AllEnabled(o.rules, ms)
    ensures forall m :: m in ms ==> m.Rule().Phase() == FormatPhase
  {
    var head, tail := RecordReasons(r, seen, ValidEmail(r.customerEmail), o), ContentReasons(r, o);
    EnabledAppend(o.rules, head, tail);
    InTwo(head, tail);
    head + tail
  }

  /** Each identifier, date, e-mail and country reason is noted exactly when its rule is on and fires. */
  lemma FormatRecordFlags(r: Row, seen: bool, o: Options)
    ensures var ms := FormatReasons(r, seen, o);
      && (DuplicateId in ms <==> o.rules.duplicateOrderId && seen)
      && (BadDate in ms <==> o.rules.invalidDate && r.orderDate.None?)
      && (MalformedEmail in ms <==> o.rules.invalidEmail && !ValidEmail(r.customerEmail))
      && (SuspectCountry(r.country) in ms <==> o.rules.countryWhitelist && r.country !in o.allowedCountries)
  {
    RecordFlagsWith(r, seen, ValidEmail(r.customerEmail), o);
  }

  lemma RecordFlagsWith(r: Row, seen: bool, emailOk: bool, o: Options)
    ensures var ms := RecordReasons(r, seen, emailOk, o) + ContentReasons(r, o);
      && (DuplicateId in ms <==> o.rules.duplicateOrderId && seen)
      && (BadDate in ms <==> o.rules.invalidDate && r.orderDate.None?)
      && (MalformedEmail in ms <==> o.rules.invalidEmail && !emailOk)
      && (SuspectCountry(r.country) in ms <==> o.rules.countryWhitelist && r.country !in o.allowedCountries)
  {
    RecordKinds(r, seen, emailOk, o);
    Sides(RecordReasons(r, seen, emailOk, o), ContentReasons(r, o));
  }

  /**
   * With record reasons first and white-space or total reasons after, a reason
   * of either kind is in the whole list exactly when it is in its own part.
   */
  lemma Sides(head: seq<Reason>, tail: seq<Reason>)
    requires forall m :: m in head ==> m.DuplicateId? || m.BadDate? || m.MalformedEmail? || m.SuspectCountry?
    requires forall m :: m in tail ==> m.SpuriousSpaces? || m.IncoherentTotal?
    ensures forall x: Reason :: !x.SpuriousSpaces? && !x.IncoherentTotal? ==> (x in head + tail <==> x in head)
    ensures forall x: Reason :: x.SpuriousSpaces? || x.IncoherentTotal? ==> (x in head + tail <==> x in tail)
  {
    InTwo(head, tail);
  }

  /**
   * A white-space reason is noted for `payment_method` or `category` exactly
   * when its rule is on and the field has a run of white space or white space
   * at an end; an incoherent total is noted exactly when its rule is on and the
   * total is off by more than 0.01; tidy fields draw no white-space reason.
   */
  lemma FormatContentFlags(r: Row, seen: bool, o: Options)
    ensures var ms := FormatReasons(r, seen, o);
      && (SpuriousSpaces("payment_method") in ms <==> o.rules.whitespaceFields && Polluted(r.paymentMethod))
      && (SpuriousSpaces("category") in ms <==> o.rules.whitespaceFields && Polluted(r.category))
      && (o.rules.totalIncoherent && Incoherent(r)
          <==> r.price.Fin? && r.quantity.Fin? && IncoherentTotal(Expected(r)) in ms)
      && (Tidy(r.paymentMethod) && Tidy(r.category) ==> forall m :: m in ms ==> !m.SpuriousSpaces?)
  {
    var head, tail := RecordReasons(r, seen, ValidEmail(r.customerEmail), o), ContentReasons(r, o);
    assert FormatReasons(r, seen, o) == head + tail;
    RecordKinds(r, seen, ValidEmail(r.customerEmail), o);
    Sides(head, tail);
  }

  /**
   * `clamp(cur + formatBump, 0, 1)` with `cur = scores.get(id) || 0`: always
   * finite, and in [0, 1].
   */
  function FormatScore(prior: real, o: Options): (s: Num)
    ensures s.Fin? && 0.0 <= s.v <= 1.0
    ensures 0.0 <= prior + o.formatBump <= 1.0 ==> s.v == prior + o.formatBump
  {
    Clamp(Fin(prior + o.formatBump), 0.0, 1.0)
  }
}
