/**
 * The executive dashboard over the country-filtered table: revenue, order and
 * customer counts, and revenue per calendar day (app.py, Dashboard page).
 */
module Dashboard {
  import opened Loader
  import opened Sums
  import opened Grouping

  function TotalPriceOf(r: Row): real { r.totalPrice }

  function InvoiceOf(r: Row): string { r.invoiceNo }

  function CustomerOf(r: Row): nat { r.customerId }

  /** `InvoiceDate.dt.date`: the calendar day of the invoice. */
  function DayOf(r: Row): int { r.invoiceDate.day }

  /** The three headline figures. */
  datatype Headline = Headline(revenue: real, orders: nat, customers: nat)

  /**
   * Revenue per calendar day, `groupby(InvoiceDate.dt.date)['TotalPrice'].sum()`:
   * each day with a sale once, in ascending order, with the revenue of its
   * rows; together the days account for all revenue.
   */
  function DailySales(t: seq<Row>): (r: seq<Group<int>>)
    ensures StrictlyIncreasing(Keys(r))
    ensures KeysOf(Keys(r), t, DayOf)
    ensures forall i :: 0 <= i < |r| ==> r[i].total == SumWhere(t, DayOf, TotalPriceOf, r[i].key)
    ensures Sum(Totals(r)) == SumBy(t, TotalPriceOf)
    ensures |r| <= |t|
  {
    var ks := SortedKeys(t, DayOf);
    IncreasingDistinct(ks);
    GroupSumsReconcile(t, DayOf, TotalPriceOf, ks);
    var r := GroupSums(t, DayOf, TotalPriceOf, ks);
    assert Keys(r) == ks;
    r
  }

  /** Strictly ascending keys are distinct. */
  lemma IncreasingDistinct(ks: seq<int>)
    requires StrictlyIncreasing(ks)
    ensures Distinct(ks)
  {
  }

  /**
   * `TotalPrice.sum()`, `InvoiceNo.nunique()` and `CustomerID.nunique()`:
   * the revenue is what the daily trend adds up to, and each count is the
   * number of distinct invoices or customers, never more than the rows.
   */
  function Headlines(t: seq<Row>): (m: Headline)
    ensures m.revenue == Sum(Totals(DailySales(t)))
    ensures m.orders == |KeySet(t, InvoiceOf)| && m.orders <= |t|
    ensures m.customers == |KeySet(t, CustomerOf)| && m.customers <= |t|
    ensures m.orders == 0 <==> t == []
    ensures m.customers == 0 <==> t == []
  {
    Headline(SumBy(t, TotalPriceOf), CountDistinct(t, InvoiceOf), CountDistinct(t, CustomerOf))
  }
}
