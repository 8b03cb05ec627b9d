/**
 * The transaction table after `pd.read_csv` and type coercion: one record
 * per row, with the coerced numeric columns and the parsed date nullable.
 */
module Records {
  import opened Wrappers

  type Month = m: int | 1 <= m <= 12 witness 1
  type Day = d: int | 1 <= d <= 31 witness 1

  /** A parsed `InvoiceDate`; the time of day is not used by any analysis. */
  datatype Date = Date(year: int, month: Month, day: Day)

  /**
   * One transaction. `quantity` and `price` are the results of
   * `pd.to_numeric(..., errors='coerce')` (None for an unparseable cell),
   * `price` in cents; `amount` is the `Effective_Throughput` column.
   */
  datatype Row = Row(
    invoice: string,
    stockCode: string,
    description: Option<string>,
    quantity: Option<int>,
    price: Option<int>,
    date: Option<Date>,
    customer: Option<int>,
    country: Option<string>,
    amount: Option<int>)

  /** Every row has a parsed date, as the loader guarantees. */
  predicate AllDated(rows: seq<Row>) {
    forall i :: 0 <= i < |rows| ==> rows[i].date.Some?
  }

  /** Product of two nullable numbers: missing if either factor is missing. */
  function Times(a: Option<int>, b: Option<int>): (r: Option<int>)
    ensures r.Some? <==> a.Some? && b.Some?
    ensures r.Some? ==> r.value == a.value * b.value
  {
    if a.Some? && b.Some? then Some(a.value * b.value) else None
  }

  /** A missing value counts as zero in a sum, as pandas' `sum()` skips NaN. */
  function OrZero(a: Option<int>): int {
    if a.Some? then a.value else 0
  }

  /** The key `"Q{q}/{yyyy}"`, kept as the pair it is formatted from. */
  datatype QuarterKey = QuarterKey(quarter: int, year: int)

  /** `dt.quarter` together with `dt.year`: months 1-3 are Q1, 4-6 Q2, and so on. */
  function QuarterOf(d: Date): (k: QuarterKey)
    ensures 1 <= k.quarter <= 4 && k.year == d.year
    ensures 3 * (k.quarter - 1) < d.month <= 3 * k.quarter
  {
    QuarterKey((d.month - 1) / 3 + 1, d.year)
  }

  /** Calendar order on quarter keys: `a` is a strictly earlier quarter than `b`. */
  predicate Earlier(a: QuarterKey, b: QuarterKey) {
    a.year < b.year || (a.year == b.year && a.quarter < b.quarter)
  }

  /** Two dates share a quarter key exactly when they lie in the same three-month block of the same year. */
  lemma SameQuarterKey(d1: Date, d2: Date)
    ensures QuarterOf(d1) == QuarterOf(d2) <==>
            d1.year == d2.year && (d1.month - 1) / 3 == (d2.month - 1) / 3
  {
  }

  /** `dt.date`, the key of the daily grouping. */
  function DayOf(d: Date): (int, int, int) {
    (d.year, d.month, d.day)
  }

  /** `dt.to_period('M')`, the key of the monthly grouping. */
  function MonthOf(d: Date): (int, int) {
    (d.year, d.month)
  }

  // Column projections: `df[name]` as a sequence in row order.

  function Descriptions(rows: seq<Row>): seq<Option<string>> {
    seq(|rows|, i requires 0 <= i < |rows| => rows[i].description)
  }

  function Quantities(rows: seq<Row>): seq<Option<int>> {
    seq(|rows|, i requires 0 <= i < |rows| => rows[i].quantity)
  }

  function Customers(rows: seq<Row>): seq<Option<int>> {
    seq(|rows|, i requires 0 <= i < |rows| => rows[i].customer)
  }

  function Countries(rows: seq<Row>): seq<Option<string>> {
    seq(|rows|, i requires 0 <= i < |rows| => rows[i].country)
  }

  function Amounts(rows: seq<Row>): seq<Option<int>> {
    seq(|rows|, i requires 0 <= i < |rows| => rows[i].amount)
  }

  /** `df['InvoiceDate'].dt.date`, missing for an unparsed date. */
  function Days(rows: seq<Row>): seq<Option<(int, int, int)>> {
    seq(|rows|, i requires 0 <= i < |rows| =>
      if rows[i].date.Some? then Some(DayOf(rows[i].date.value)) else None)
  }

  /** `df['InvoiceDate'].dt.to_period('M')`. */
  function Months(rows: seq<Row>): seq<Option<(int, int)>> {
    seq(|rows|, i requires 0 <= i < |rows| =>
      if rows[i].date.Some? then Some(MonthOf(rows[i].date.value)) else None)
  }

  /** The `InvoiceQuarter` column as `analyze_timeline_sales` builds it. */
  function Quarters(rows: seq<Row>): seq<Option<QuarterKey>> {
    seq(|rows|, i requires 0 <= i < |rows| =>
      if rows[i].date.Some? then Some(QuarterOf(rows[i].date.value)) else None)
  }
}
