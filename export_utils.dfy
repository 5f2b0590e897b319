/**
 * src/utils/exportUtils.js: the record each annotated row becomes in
 * `exportCleanCSV` (lines 4-21) and the two lines of `downloadTemplate`
 * (lines 32-33). The CSV writer (`Papa.unparse`) and the browser download
 * are not part of this model.
 */
module ExportUtils {
  import opened Outcomes
  import opened JsNumber
  import opened Records
  import opened JsText
  import opened Kpis
  import opened CsvParser

  /** One output record: the fifteen columns of the cleaned export, in order. */
  datatype ExportRecord = ExportRecord(
    orderId: string,
    orderDate: string,
    customerId: string,
    customerEmail: string,
    customerAge: Num,
    productName: string,
    category: string,
    price: Num,
    quantity: Num,
    totalAmount: real,
    country: string,
    paymentMethod: string,
    orderStatus: string,
    anomalyScore: real,
    anomalyReasons: string)

  /**
   * `total_amount` of the export: price times quantity rounded to cents
   * (half a cent away from zero) when both are finite, else the row's own
   * total with NaN and 0 giving 0.
   */
  function ExportTotal(r: Row): (t: real)
    ensures r.price.Fin? && r.quantity.Fin? ==> Whole(t * 100.0)
    ensures r.price.Fin? && r.quantity.Fin? ==>
      r.price.v * r.quantity.v - 0.005 <= t <= r.price.v * r.quantity.v + 0.005
    ensures r.price.Fin? && r.quantity.Fin? && r.price.v * r.quantity.v >= 0.0 ==>
      r.price.v * r.quantity.v - 0.005 < t
    ensures r.price.Fin? && r.quantity.Fin? && r.price.v * r.quantity.v < 0.0 ==>
      t < r.price.v * r.quantity.v + 0.005
    ensures !(r.price.Fin? && r.quantity.Fin?) ==> t == OrZero(r.totalAmount)
  {
    assert Pow10(2) == 100 by { assert Pow10(1) == 10; }
    if r.price.Fin? && r.quantity.Fin? then ToFixed(r.price.v * r.quantity.v, 2)
    else OrZero(r.totalAmount)
  }

  /**
   * The export total agrees with the row's share of the revenue KPI: exactly
   * when price or quantity is missing, and up to half a cent when the total
   * is missing; when all three are present the export trusts price times
   * quantity over the file's total.
   */
  lemma ExportTotalRevenue(r: Row)
    ensures !(r.price.Fin? && r.quantity.Fin?) ==> ExportTotal(r) == RowRevenue(r)
    ensures r.totalAmount.NaN? && r.price.Fin? && r.quantity.Fin? ==>
      RowRevenue(r) - 0.005 <= ExportTotal(r) <= RowRevenue(r) + 0.005
  {}

  /** `(r._reasons || []).join('; ')`. */
  function ReasonsColumn(reasons: seq<string>): (s: string)
    ensures reasons == [] ==> s == ""
    ensures |reasons| == 1 ==> s == reasons[0]
    ensures reasons != [] && (forall k :: 0 <= k < |reasons| ==> ';' !in reasons[k]) ==> Split(s) == reasons
  {
    assert reasons != [] && (forall k :: 0 <= k < |reasons| ==> ';' !in reasons[k]) ==>
      Split(Join(reasons, "; ")) == reasons by {
      if reasons != [] && (forall k :: 0 <= k < |reasons| ==> ';' !in reasons[k]) {
        SplitJoin(reasons, "; ");
      }
    }
    Join(reasons, "; ")
  }

  /** The record exported for one annotated row. */
  function Project(v: ViewRow): (e: ExportRecord)
    ensures e.orderId == v.row.orderId && e.orderDate == v.row.orderDateStr
    ensures e.customerId == v.row.customerId && e.customerEmail == v.row.customerEmail
    ensures e.customerAge == v.row.customerAge && e.productName == v.row.productName
    ensures e.category == v.row.category && e.price == v.row.price && e.quantity == v.row.quantity
    ensures e.country == v.row.country && e.paymentMethod == v.row.paymentMethod
    ensures e.orderStatus == v.row.orderStatus && e.anomalyScore == v.score
    ensures e.totalAmount == ExportTotal(v.row) && e.anomalyReasons == ReasonsColumn(v.reasons)
  {
    var r := v.row;
    ExportRecord(r.orderId, r.orderDateStr, r.customerId, r.customerEmail, r.customerAge,
      r.productName, r.category, r.price, r.quantity, ExportTotal(r), r.country,
      r.paymentMethod, r.orderStatus, v.score, ReasonsColumn(v.reasons))
  }

  /**
   * The records `exportCleanCSV(VIEW)` hands to the CSV writer: nothing for an
   * empty view, else one record per row, in the view's order.
   */
  function ExportRows(view: seq<ViewRow>): (out: Option<seq<ExportRecord>>)
    ensures out.None? <==> view == []
    ensures out.Some? ==> |out.value| == |view|
    ensures out.Some? ==> forall i :: 0 <= i < |view| ==> out.value[i] == Project(view[i])
  {
    if view == [] then None
    else Some(seq(|view|, i requires 0 <= i < |view| => Project(view[i])))
  }

  /** Exporting a concatenation exports each part in turn. */
  lemma ExportAppend(a: seq<ViewRow>, b: seq<ViewRow>)
    requires a != [] && b != []
    ensures ExportRows(a + b) == Some(ExportRows(a).value + ExportRows(b).value)
  {
    var l, x, y := ExportRows(a + b).value, ExportRows(a).value, ExportRows(b).value;
    assert |l| == |x + y|;
    forall i | 0 <= i < |l| ensures l[i] == (x + y)[i] {
      if i < |a| { assert (a + b)[i] == a[i]; } else { assert (a + b)[i] == b[i - |a|]; }
    }
    assert l == x + y;
  }

  // ------------------------------------------------------------------ split

  /** The index of the first occurrence of `sep` in `s`, or `|s|` when there is none. */
  function FirstSep(s: string, sep: string): (i: nat)
    requires sep != []
    ensures i <= |s|
    ensures i < |s| ==> i + |sep| <= |s| && s[i..i + |sep|] == sep
    decreases |s|
  {
    if |s| < |sep| then |s|
    else if s[..|sep|] == sep then 0
    else
      var j := FirstSep(s[1..], sep);
      assert j < |s| - 1 ==> s[j + 1..j + 1 + |sep|] == s[1..][j..j + |sep|];
      if j == |s| - 1 then |s| else j + 1
  }

  /** `s.split(sep)` for a non-empty separator. */
  function SplitOn(s: string, sep: string): (parts: seq<string>)
    requires sep != []
    ensures |parts| >= 1
    decreases |s|
  {
    var i := FirstSep(s, sep);
    if i == |s| then [s] else [s[..i]] + SplitOn(s[i + |sep|..], sep)
  }

  /** `s.split('; ')`. */
  function Split(s: string): (parts: seq<string>)
    ensures |parts| >= 1
  {
    SplitOn(s, "; ")
  }

  lemma {:induction false} FirstSepAfter(a: string, rest: string, sep: string)
    requires sep != [] && sep[0] !in a
    ensures FirstSep(a + rest, sep) == |a| + FirstSep(rest, sep)
    decreases |a|
  {
    if a != [] {
      assert (a + rest)[1..] == a[1..] + rest;
      if |a + rest| >= |sep| { assert (a + rest)[..|sep|][0] == a[0]; }
      FirstSepAfter(a[1..], rest, sep);
    } else {
      assert a + rest == rest;
    }
  }

  /** Splitting joined parts gives them back when no part holds the separator's first character. */
  lemma {:induction false} SplitJoin(parts: seq<string>, sep: string)
    requires sep != [] && parts != []
    requires forall k :: 0 <= k < |parts| ==> sep[0] !in parts[k]
    ensures SplitOn(Join(parts, sep), sep) == parts
    decreases |parts|
  {
    var p := parts[0];
    if |parts| == 1 {
      FirstSepAfter(p, "", sep);
      assert p + "" == p;
    } else {
      var rest := Join(parts[1..], sep);
      var s := p + sep + rest;
      assert s == p + (sep + rest);
      FirstSepAfter(p, sep + rest, sep);
      assert (sep + rest)[..|sep|] == sep;
      assert FirstSep(s, sep) == |p|;
      assert s[..|p|] == p;
      assert s[|p| + |sep|..] == rest;
      SplitJoin(parts[1..], sep);
      assert parts == [p] + parts[1..];
    }
  }

  /** A joined line holds a character only if a part or the separator does. */
  lemma {:induction false} JoinAvoids(parts: seq<string>, sep: string, c: char)
    requires c !in sep && forall k :: 0 <= k < |parts| ==> c !in parts[k]
    ensures c !in Join(parts, sep)
    decreases |parts|
  {
    if |parts| > 1 { JoinAvoids(parts[1..], sep, c); }
  }

  // ------------------------------------------------------------------ template

  /** The header line of the template file. */
  const TemplateHeader: seq<string> := ["order_id", "order_date", "customer_id", "customer_email",
    "customer_age", "product_name", "category", "price", "quantity", "total_amount", "country",
    "payment_method", "order_status"]

  /** The example line of the template file. */
  const TemplateExample: seq<string> := ["ORD10001", "2024-01-15", "CUST0001", "user@example.com",
    "32", "Sample Product", "Electronics", "199.99", "2", "399.98", "France", "Credit Card", "Delivered"]

  /** No field holds the character `c`. */
  predicate Avoids(fields: seq<string>, c: char) {
    forall k :: 0 <= k < |fields| ==> c !in fields[k]
  }

  /** No header field holds a ',' or a line break. */
  lemma HeaderPlain()
    ensures Avoids(TemplateHeader, ',') && Avoids(TemplateHeader, '\n')
  {
    forall k | 0 <= k < |TemplateHeader| ensures ',' !in TemplateHeader[k] && '\n' !in TemplateHeader[k] {}
  }

  /** No field of the example line holds a ',' or a line break. */
  lemma ExamplePlain()
    ensures Avoids(TemplateExample, ',') && Avoids(TemplateExample, '\n')
  {
    forall k | 0 <= k < |TemplateExample| ensures ',' !in TemplateExample[k] && '\n' !in TemplateExample[k] {}
  }

  /**
   * `header.join(',') + '\n' + example.join(',') + '\n'`: two lines and
   * nothing after the last line break, each line splitting back at ',' into
   * its thirteen fields.
   */
  function TemplateText(): (csv: string)
    ensures SplitOn(csv, "\n") == [Join(TemplateHeader, ","), Join(TemplateExample, ","), ""]
    ensures SplitOn(Join(TemplateHeader, ","), ",") == TemplateHeader
    ensures SplitOn(Join(TemplateExample, ","), ",") == TemplateExample
  {
    var h, e := Join(TemplateHeader, ","), Join(TemplateExample, ",");
    HeaderPlain();
    ExamplePlain();
    SplitJoin(TemplateHeader, ",");
    SplitJoin(TemplateExample, ",");
    JoinAvoids(TemplateHeader, ",", '\n');
    JoinAvoids(TemplateExample, ",", '\n');
    TwoLines(h, e);
    h + "\n" + e + "\n"
  }

  /** Two lines, each ended by a line break, split back into the lines and an empty tail. */
  lemma TwoLines(h: string, e: string)
    requires '\n' !in h && '\n' !in e
    ensures SplitOn(h + "\n" + e + "\n", "\n") == [h, e, ""]
  {
    var parts := [h, e, ""];
    assert forall k :: 0 <= k < |parts| ==> '\n' !in parts[k];
    SplitJoin(parts, "\n");
    JoinLines(h, e);
  }

  lemma JoinLines(h: string, e: string)
    ensures Join([h, e, ""], "\n") == h + "\n" + e + "\n"
  {
    var tail := Join([e, ""], "\n");
    assert [h, e, ""][1..] == [e, ""];
    assert [e, ""][1..] == [""];
    assert Join([""], "\n") == [""][0] == "";
    assert tail == e + "\n" + "";
    assert tail == e + "\n";
    assert h + "\n" + tail == h + "\n" + e + "\n";
  }

  /**
   * The template is well formed: thirteen columns, one example value per
   * column, the required columns plus `customer_age`, so a file built from
   * it passes the required-column check.
   */
  lemma TemplateShape()
    ensures |TemplateHeader| == 13 && |TemplateExample| == |TemplateHeader|
    ensures forall k :: k in Required ==> k in TemplateHeader
    ensures forall k :: k in TemplateHeader ==> k in Required || k == "customer_age"
    ensures forall p: Parsed :: p.errors == [] && p.fields == Some(TemplateHeader) ==>
      ParseCsvText(p) == Ok(p.data)
  {
    forall p: Parsed | p.errors == [] && p.fields == Some(TemplateHeader)
      ensures ParseCsvText(p) == Ok(p.data)
    {
      assert forall k :: k in Required ==> k in Header(p);
    }
  }
}
