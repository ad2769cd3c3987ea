/** Revenue per product and the ten best-selling products (app.py, Product Analytics page). */
module ProductAnalytics {
  import opened Loader
  import opened Sums
  import opened Grouping
  import opened Ranking
  import opened Dashboard

  function DescriptionOf(r: Row): string { r.description }

  /**
   * `groupby('Description')['TotalPrice'].sum()`: each product sold once,
   * with the revenue of its rows; together the products account for all
   * revenue.
   */
  function ProductTotals(t: seq<Row>): (r: seq<Group<string>>)
    ensures Distinct(Keys(r))
    ensures KeysOf(Keys(r), t, DescriptionOf)
    ensures forall i :: 0 <= i < |r| ==> r[i].total == SumWhere(t, DescriptionOf, TotalPriceOf, r[i].key)
    ensures Sum(Totals(r)) == SumBy(t, TotalPriceOf)
  {
    var ks := DistinctKeys(t, DescriptionOf);
    DistinctKeysSpec(t, DescriptionOf);
    GroupSumsReconcile(t, DescriptionOf, TotalPriceOf, ks);
    var r := GroupSums(t, DescriptionOf, TotalPriceOf, ks);
    assert Keys(r) == ks;
    r
  }

  /** How many products the page shows. */
  const TopProductCount: nat := 10

  /**
   * `.sort_values(ascending=False).head(10)`: min(10, products) products,
   * largest revenue first, each a genuine product total shown once, and no
   * product left out sold more than any product shown.
   */
  function TopProducts(t: seq<Row>): (r: seq<Group<string>>)
    ensures |r| <= TopProductCount
    ensures |r| == if |ProductTotals(t)| < TopProductCount then |ProductTotals(t)| else TopProductCount
    ensures forall i, j :: 0 <= i < j < |r| ==> r[j].total <= r[i].total
    ensures forall g :: g in r ==> g in ProductTotals(t)
    ensures multiset(r) <= multiset(ProductTotals(t))
    ensures Distinct(Keys(r))
    ensures forall g, h :: g in ProductTotals(t) && g !in r && h in r ==> g.total <= h.total
  {
    var r := TopDescending(ProductTotals(t), TopProductCount);
    DistinctKept(ProductTotals(t), r);
    r
  }
}
