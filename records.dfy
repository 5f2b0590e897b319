/** The records that flow through the pipeline. */
module Records {
  import opened Outcomes
  import opened JsNumber

  /** A parsed CSV record: column name to cell text. An absent column is an absent key. */
  type RawRecord = map<string, string>

  /** The cell of column `name`, or `undefined`. */
  function Field(r: RawRecord, name: string): Option<string> {
    if name in r then Some(r[name]) else None
  }

  /**
   * The text of `Date.prototype.toISOString()`: at least the ten characters of
   * the calendar day, and never a `|`.
   */
  type IsoText = s: string | |s| >= 10 && '|' !in s witness "1970-01-01T00:00:00.000Z"

  /**
   * A canonical order row as `normalizeRows` builds it. `orderDate` is the
   * instant in milliseconds, or None for `null`; numbers may be NaN.
   */
  datatype Row = Row(
    orderId: string,
    orderDate: Option<int>,
    orderDateStr: string,
    customerId: string,
    customerEmail: string,
    customerAge: Num,
    productName: string,
    category: string,
    price: Num,
    quantity: Num,
    totalAmount: Num,
    country: string,
    paymentMethod: string,
    orderStatus: string)

  /** A row of the view: the row with its `_reasons` texts and its `_score`. */
  datatype ViewRow = ViewRow(row: Row, reasons: seq<string>, score: real)

  /** The order identifiers occurring in `rows`. */
  function Ids(rows: seq<Row>): set<string> {
    set r | r in rows :: r.orderId
  }

  /** No two rows share an order identifier. */
  predicate DistinctIds(rows: seq<Row>) {
    forall i, j :: 0 <= i < j < |rows| ==> rows[i].orderId != rows[j].orderId
  }

  // ------------------------------------------------------------------ row prefixes

  /** The prefix one longer is the prefix and the next element; the loops over rows walk it. */
  lemma PrefixSnoc<T>(s: seq<T>, i: int)
    requires 0 <= i < |s|
    ensures s[..i + 1] == s[..i] + [s[i]]
    ensures s[..i + 1][..i] == s[..i] && s[..i + 1][i] == s[i]
  {}
}
