/**
 * The reductions `analyze_sales_trends`, `analyze_customer_behavior`,
 * `analyze_country_performance`, `analyze_product_performance` and
 * `analyze_timeline_sales` compute before plotting, as functions of the
 * loaded rows.
 */
module SalesAnalyses {
  import opened Wrappers
  import opened Seqs
  import opened Records
  import opened Aggregates

  /** Length of every top / bottom list the source plots. */
  const TopN: nat := 10

  /** Line 44: sales per calendar day; the days' totals make up all dated sales. */
  function DailySales(rows: seq<Row>): (t: Table<(int, int, int)>)
    ensures KeysOf(t) == GroupKeys(Days(rows))
    ensures Total(t) == KeyedTotal(Days(rows), Amounts(rows))
  {
    GroupSumComplete(Days(rows), Amounts(rows));
    GroupSum(Days(rows), Amounts(rows))
  }

  /** Line 52: the ten products with the largest sales, in descending order of sales. */
  function TopProductsBySales(rows: seq<Row>): (t: Table<string>)
    ensures |t| == Min(TopN, |GroupKeys(Descriptions(rows))|)
    ensures Ranked(t, true)
    ensures multiset(t) <= multiset(GroupSum(Descriptions(rows), Amounts(rows)))
    ensures forall x, y :: x in multiset(GroupSum(Descriptions(rows), Amounts(rows))) - multiset(t) && y in t ==> Precedes(y, x, true)
  {
    Top(GroupSum(Descriptions(rows), Amounts(rows)), TopN, true)
  }

  /** Line 61: purchases per customer; they add up to the rows that carry a customer id. */
  function CustomerFrequency(rows: seq<Row>): (t: Table<int>)
    ensures KeysOf(t) == GroupKeys(Customers(rows))
    ensures Total(t) == CountPresent(Customers(rows))
  {
    GroupSizeComplete(Customers(rows));
    GroupSize(Customers(rows))
  }

  /** Lines 69 and 78: sales per region; the regions' totals make up all sales with a region. */
  function CountrySales(rows: seq<Row>): (t: Table<string>)
    ensures KeysOf(t) == GroupKeys(Countries(rows))
    ensures Total(t) == KeyedTotal(Countries(rows), Amounts(rows))
  {
    GroupSumComplete(Countries(rows), Amounts(rows));
    GroupSum(Countries(rows), Amounts(rows))
  }

  /** Line 81: the ten regions with the largest sales. */
  function TopCountries(rows: seq<Row>): (t: Table<string>)
    ensures |t| == Min(TopN, |GroupKeys(Countries(rows))|)
    ensures Ranked(t, true)
    ensures multiset(t) <= multiset(CountrySales(rows))
    ensures forall x, y :: x in multiset(CountrySales(rows)) - multiset(t) && y in t ==> Precedes(y, x, true)
  {
    Top(CountrySales(rows), TopN, true)
  }

  /** Line 82: the ten regions with the smallest sales. */
  function BottomCountries(rows: seq<Row>): (t: Table<string>)
    ensures |t| == Min(TopN, |GroupKeys(Countries(rows))|)
    ensures Ranked(t, false)
    ensures multiset(t) <= multiset(CountrySales(rows))
    ensures forall x, y :: x in multiset(CountrySales(rows)) - multiset(t) && y in t ==> Precedes(y, x, false)
  {
    Top(CountrySales(rows), TopN, false)
  }

  /**
   * Line 115: distinct customers per region; no region counts more
   * customers than it has rows.
   */
  function CountryCustomers(rows: seq<Row>): (t: Table<string>)
    ensures KeysOf(t) == GroupKeys(Countries(rows))
    ensures forall i :: 0 <= i < |t| ==> t[i].1 <= GroupSize(Countries(rows))[i].1
  {
    var t := GroupNunique(Countries(rows), Customers(rows));
    assert forall i :: 0 <= i < |t| ==> t[i].1 <= GroupSize(Countries(rows))[i].1 by {
      forall i | 0 <= i < |t|
        ensures t[i].1 <= GroupSize(Countries(rows))[i].1
      {
        NuniqueBoundedBySize(Countries(rows), Customers(rows), i);
      }
    }
    t
  }

  /** Line 119: the ten regions with the most distinct customers. */
  function TopCountriesByCustomers(rows: seq<Row>): (t: Table<string>)
    ensures |t| == Min(TopN, |GroupKeys(Countries(rows))|)
    ensures Ranked(t, true)
    ensures multiset(t) <= multiset(CountryCustomers(rows))
    ensures forall x, y :: x in multiset(CountryCustomers(rows)) - multiset(t) && y in t ==> Precedes(y, x, true)
  {
    Top(CountryCustomers(rows), TopN, true)
  }

  /** Line 120: the ten regions with the fewest distinct customers. */
  function BottomCountriesByCustomers(rows: seq<Row>): (t: Table<string>)
    ensures |t| == Min(TopN, |GroupKeys(Countries(rows))|)
    ensures Ranked(t, false)
    ensures multiset(t) <= multiset(CountryCustomers(rows))
    ensures forall x, y :: x in multiset(CountryCustomers(rows)) - multiset(t) && y in t ==> Precedes(y, x, false)
  {
    Top(CountryCustomers(rows), TopN, false)
  }

  /** Line 155: quantity per product; the products' totals make up all quantities with a product. */
  function ProductQuantities(rows: seq<Row>): (t: Table<string>)
    ensures KeysOf(t) == GroupKeys(Descriptions(rows))
    ensures Total(t) == KeyedTotal(Descriptions(rows), Quantities(rows))
  {
    GroupSumComplete(Descriptions(rows), Quantities(rows));
    GroupSum(Descriptions(rows), Quantities(rows))
  }

  /** Line 158: the ten bestselling products by quantity. */
  function TopProductsByQuantity(rows: seq<Row>): (t: Table<string>)
    ensures |t| == Min(TopN, |GroupKeys(Descriptions(rows))|)
    ensures Ranked(t, true)
    ensures multiset(t) <= multiset(ProductQuantities(rows))
    ensures forall x, y :: x in multiset(ProductQuantities(rows)) - multiset(t) && y in t ==> Precedes(y, x, true)
  {
    Top(ProductQuantities(rows), TopN, true)
  }

  /** Line 159: the ten products with the smallest total quantity (the most returned). */
  function BottomProductsByQuantity(rows: seq<Row>): (t: Table<string>)
    ensures |t| == Min(TopN, |GroupKeys(Descriptions(rows))|)
    ensures Ranked(t, false)
    ensures multiset(t) <= multiset(ProductQuantities(rows))
    ensures forall x, y :: x in multiset(ProductQuantities(rows)) - multiset(t) && y in t ==> Precedes(y, x, false)
  {
    Top(ProductQuantities(rows), TopN, false)
  }

  /** Lines 253-255: sales per quarter key; the quarters' totals make up all dated sales. */
  function QuarterlySales(rows: seq<Row>): (t: Table<QuarterKey>)
    ensures KeysOf(t) == GroupKeys(Quarters(rows))
    ensures Total(t) == KeyedTotal(Quarters(rows), Amounts(rows))
  {
    GroupSumComplete(Quarters(rows), Amounts(rows));
    GroupSum(Quarters(rows), Amounts(rows))
  }

  /** Lines 273-274: sales per month; the months' totals make up all dated sales. */
  function MonthlySales(rows: seq<Row>): (t: Table<(int, int)>)
    ensures KeysOf(t) == GroupKeys(Months(rows))
    ensures Total(t) == KeyedTotal(Months(rows), Amounts(rows))
  {
    GroupSumComplete(Months(rows), Amounts(rows));
    GroupSum(Months(rows), Amounts(rows))
  }

  /** On loaded rows every row has a day, a month and a quarter, so no sale is left out of those groupings. */
  lemma DatedGroupingsCoverAllSales(rows: seq<Row>)
    requires AllDated(rows)
    ensures KeyedTotal(Days(rows), Amounts(rows)) == SumAll(Amounts(rows))
    ensures KeyedTotal(Months(rows), Amounts(rows)) == SumAll(Amounts(rows))
    ensures KeyedTotal(Quarters(rows), Amounts(rows)) == SumAll(Amounts(rows))
  {
    AllKeyedTotal(Days(rows), Amounts(rows));
    AllKeyedTotal(Months(rows), Amounts(rows));
    AllKeyedTotal(Quarters(rows), Amounts(rows));
  }
}
