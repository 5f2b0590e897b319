/**
 * `parseCSVText` (src/utils/csvParser.js:3-15): the tokenizer (`Papa.parse`
 * with a header row) is an oracle whose answer is a `Parsed` value; what is
 * modelled is how its errors, fields and records are turned into either the
 * records or an error message.
 */
module CsvParser {
  import opened Outcomes
  import opened Records
  import opened JsText

  /** What `Papa.parse` returns: its errors' messages, `meta.fields` when present, and the records. */
  datatype Parsed = Parsed(errors: seq<string>, fields: Option<seq<string>>, data: seq<RawRecord>)

  /** The columns a file must have; `customer_age` is optional. */
  const Required: seq<string> := ["order_id", "order_date", "customer_id", "customer_email",
    "product_name", "category", "price", "quantity", "total_amount", "country",
    "payment_method", "order_status"]

  /**
   * `parsed.meta?.fields ?? Object.keys(parsed.data?.[0] || {})`, as the set
   * of names `includes` can find: only membership is ever asked of it.
   */
  function Header(p: Parsed): (h: set<string>)
    ensures p.fields.Some? ==> forall k :: k in h <==> k in p.fields.value
    ensures p.fields.None? && p.data != [] ==> forall k :: k in h <==> k in p.data[0]
    ensures p.fields.None? && p.data == [] ==> h == {}
  {
    match p.fields
    case Some(fs) => set k | k in fs
    case None => if p.data == [] then {} else p.data[0].Keys
  }

  /** `a` is `b` with some elements dropped, the rest kept in order. */
  predicate Subsequence(a: seq<string>, b: seq<string>)
    decreases |b|
  {
    if a == [] then true
    else if b == [] then false
    else if a[0] == b[0] then Subsequence(a[1..], b[1..])
    else Subsequence(a, b[1..])
  }

  /**
   * `required.filter(k => !hdr.includes(k))`: exactly the names of `req` the
   * header lacks, in the order of `req`.
   */
  function Missing(req: seq<string>, hdr: set<string>): (m: seq<string>)
    ensures forall k :: k in m <==> k in req && k !in hdr
    ensures Subsequence(m, req)
    ensures m == [] <==> forall k :: k in req ==> k in hdr
    decreases |req|
  {
    if req == [] then []
    else if req[0] in hdr then
      var m := Missing(req[1..], hdr);
      assert forall k :: k in req <==> k == req[0] || k in req[1..];
      m
    else
      var m := Missing(req[1..], hdr);
      assert forall k :: k in req <==> k == req[0] || k in req[1..];
      assert ([req[0]] + m)[1..] == m;
      [req[0]] + m
  }

  /**
   * `parseCSVText(text)` once the tokenizer has answered `p`: a tokenizer
   * error wins; otherwise the records come back unchanged exactly when every
   * required column is in the header, and else the error lists the missing
   * ones, joined by ", ".
   */
  function ParseCsvText(p: Parsed): (r: Result<seq<RawRecord>, string>)
    ensures p.errors != [] ==> r == Err("Erreurs de parsing: " + p.errors[0])
    ensures p.errors == [] && (forall k :: k in Required ==> k in Header(p)) ==> r == Ok(p.data)
    ensures p.errors == [] && (exists k :: k in Required && k !in Header(p)) ==>
      r == Err("Colonnes manquantes: " + Join(Missing(Required, Header(p)), ", "))
    ensures r.Ok? ==> r.value == p.data
  {
    if p.errors != [] then Err("Erreurs de parsing: " + p.errors[0])
    else
      var missing := Missing(Required, Header(p));
      if missing != [] then Err("Colonnes manquantes: " + Join(missing, ", "))
      else Ok(p.data)
  }

  /**
   * Column order and extra columns do not matter: two answers without errors,
   * with the same records, whose headers agree on the required names give
   * the same result.
   */
  lemma OnlyRequiredColumnsMatter(p: Parsed, q: Parsed)
    requires p.errors == [] && q.errors == [] && p.data == q.data
    requires forall k :: k in Required ==> (k in Header(p) <==> k in Header(q))
    ensures ParseCsvText(p) == ParseCsvText(q)
  {
    MissingAgree(Required, Header(p), Header(q));
  }

  lemma {:induction false} MissingAgree(req: seq<string>, h1: set<string>, h2: set<string>)
    requires forall k :: k in req ==> (k in h1 <==> k in h2)
    ensures Missing(req, h1) == Missing(req, h2)
    decreases |req|
  {
    if req != [] {
      assert forall k :: k in req[1..] ==> k in req;
      MissingAgree(req[1..], h1, h2);
    }
  }

  /** Reordering `meta.fields` does not change the result. */
  lemma FieldOrderIrrelevant(p: Parsed, fs: seq<string>)
    requires p.errors == [] && p.fields.Some? && multiset(fs) == multiset(p.fields.value)
    ensures ParseCsvText(p.(fields := Some(fs))) == ParseCsvText(p)
  {
    var q := p.(fields := Some(fs));
    forall k | k in Required ensures k in Header(p) <==> k in Header(q) {
      assert k in fs <==> k in multiset(fs);
      assert k in p.fields.value <==> k in multiset(p.fields.value);
    }
    OnlyRequiredColumnsMatter(p, q);
  }
}
