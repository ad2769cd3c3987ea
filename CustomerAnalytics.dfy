/**
 * The customer page: the stricter customer view, spending per customer, the
 * top ten and top fifty customers, and the count, mean and highest spend
 * (app.py, Customer Analytics page).
 */
module CustomerAnalytics {
  import opened Wrappers
  import opened Loader
  import opened TableOps
  import opened Sums
  import opened Grouping
  import opened Ranking
  import opened Dashboard
  import opened CustomerIds
  import Algebra

  predicate PositivePrice(r: Row)
  {
    r.totalPrice > 0.0
  }

  /**
   * `clean_data[(TotalPrice > 0) & CustomerID.notnull()]`: the rows with
   * positive revenue, every copy of each, in order. A loaded row always has a customer number,
   * so the second test keeps every row.
   */
  function CustomerView(t: seq<Row>): (v: seq<Row>)
    ensures forall i :: 0 <= i < |v| ==> v[i].totalPrice > 0.0 && v[i] in t
    ensures forall i :: 0 <= i < |t| && t[i].totalPrice > 0.0 ==> t[i] in v
    ensures SubsequenceOf(v, t)
    ensures forall x :: multiset(v)[x] == if x.totalPrice > 0.0 then multiset(t)[x] else 0
  {
    FilterSound(t, PositivePrice);
    FilterComplete(t, PositivePrice);
    FilterOrder(t, PositivePrice);
    FilterCounts(t, PositivePrice);
    Filter(t, PositivePrice)
  }

  /** The grouping key after `astype(str)`: the customer number as text. */
  function CustomerKey(r: Row): string
  {
    IdText(r.customerId)
  }

  /**
   * `clean_data.groupby('CustomerID')['TotalPrice'].sum()` on the text keys:
   * one group per customer of the view, each with a positive total; there
   * are as many groups as distinct customer numbers, and together they
   * account for all revenue of the view.
   */
  function CustomerSpending(t: seq<Row>): (r: seq<Group<string>>)
    ensures Distinct(Keys(r))
    ensures KeysOf(Keys(r), CustomerView(t), CustomerKey)
    ensures forall i :: 0 <= i < |r| ==>
      r[i].total == SumWhere(CustomerView(t), CustomerKey, TotalPriceOf, r[i].key) && r[i].total > 0.0
    ensures |r| == CountDistinct(CustomerView(t), CustomerOf)
    ensures Sum(Totals(r)) == SumBy(CustomerView(t), TotalPriceOf)
  {
    var v := CustomerView(t);
    var ks := DistinctKeys(v, CustomerKey);
    DistinctKeysSpec(v, CustomerKey);
    GroupSumsReconcile(v, CustomerKey, TotalPriceOf, ks);
    TextKeysCount(v);
    KeysPositiveTotals(v, ks);
    var r := GroupSums(v, CustomerKey, TotalPriceOf, ks);
    assert Keys(r) == ks;
    r
  }

  /**
   * Grouping by the text of the customer number neither merges nor splits
   * customers: there are as many text keys as customer numbers.
   */
  lemma TextKeysCount(v: seq<Row>)
    ensures |DistinctKeys(v, CustomerKey)| == CountDistinct(v, CustomerOf)
  {
    forall a: nat
      ensures IdOfText(IdText(a)) == a
    {
      IdTextInjective(a, a);
    }
    DistinctKeysRenamed(v, CustomerOf, IdText, IdOfText, CustomerKey);
  }

  /** Over rows of positive revenue, every key that occurs has a positive total. */
  lemma KeysPositiveTotals(v: seq<Row>, ks: seq<string>)
    requires forall i :: 0 <= i < |v| ==> v[i].totalPrice > 0.0
    requires KeysOf(ks, v, CustomerKey)
    ensures forall k :: k in ks ==> SumWhere(v, CustomerKey, TotalPriceOf, k) > 0.0
  {
    forall k | k in ks
      ensures SumWhere(v, CustomerKey, TotalPriceOf, k) > 0.0
    {
      SumWherePositive(v, CustomerKey, TotalPriceOf, k);
    }
  }

  /** How many customers the top chart shows. */
  const TopCustomerCount: nat := 10

  /** How many customers the spending distribution shows. */
  const DistributionCount: nat := 50

  /**
   * `sort_values(by='TotalPrice', ascending=False).head(10)`: min(10,
   * customers) customers, largest spend first, each a genuine customer total
   * taken no more often than it occurs, and no customer left out spent more
   * than any customer shown.
   */
  function TopCustomers(spending: seq<Group<string>>): (r: seq<Group<string>>)
    ensures |r| <= TopCustomerCount
    ensures |r| == if |spending| < TopCustomerCount then |spending| else TopCustomerCount
    ensures forall i, j :: 0 <= i < j < |r| ==> r[j].total <= r[i].total
    ensures forall g :: g in r ==> g in spending
    ensures multiset(r) <= multiset(spending)
    ensures forall g, h :: g in spending && g !in r && h in r ==> g.total <= h.total
  {
    TopDescending(spending, TopCustomerCount)
  }

  /**
   * `sort_values(by='TotalPrice').tail(50)`: min(50, customers) customers
   * in ascending order of spend, each a genuine customer total taken no more
   * often than it occurs, and no customer left out spent more than any
   * customer shown, so these are the fifty largest.
   */
  function TopFiftySpending(spending: seq<Group<string>>): (r: seq<Group<string>>)
    ensures |r| <= DistributionCount
    ensures |r| == if |spending| < DistributionCount then |spending| else DistributionCount
    ensures forall i, j :: 0 <= i < j < |r| ==> r[i].total <= r[j].total
    ensures forall g :: g in r ==> g in spending
    ensures multiset(r) <= multiset(spending)
    ensures forall g, h :: g in spending && g !in r && h in r ==> g.total <= h.total
  {
    TopAscending(spending, DistributionCount)
  }

  /** Among customers with distinct keys, both charts show each customer at most once. */
  lemma TopCustomersOnce(spending: seq<Group<string>>)
    requires Distinct(Keys(spending))
    ensures Distinct(Keys(TopCustomers(spending)))
    ensures Distinct(Keys(TopFiftySpending(spending)))
  {
    DistinctKept(spending, TopCustomers(spending));
    DistinctKept(spending, TopFiftySpending(spending));
  }

  /**
   * `len(customer_spending)`, `TotalPrice.mean()` and `TotalPrice.max()`;
   * a mean or maximum of no customers is NaN, here None.
   */
  datatype Stats = Stats(count: nat, mean: Option<real>, highest: Option<real>)

  /**
   * The customer metrics: the count of customers, the mean spend (count times
   * mean is the total spend) and the highest spend (a spend some customer
   * reached and nobody exceeded), with mean <= highest, and a positive mean
   * when every customer spent something.
   */
  function SpendingStats(spending: seq<Group<string>>): (s: Stats)
    ensures s.count == |spending|
    ensures s.mean.Some? <==> spending != []
    ensures s.highest.Some? <==> spending != []
    ensures s.mean.Some? ==> s.mean.value == Mean(Totals(spending))
    ensures s.highest.Some? ==>
      (forall g :: g in spending ==> g.total <= s.highest.value) &&
      (exists g :: g in spending && g.total == s.highest.value)
    ensures s.mean.Some? && s.highest.Some? ==> s.mean.value <= s.highest.value
    ensures s.mean.Some? && (forall g :: g in spending ==> g.total > 0.0) ==> s.mean.value > 0.0
  {
    if spending == [] then Stats(0, None, None)
    else
      HighestReached(spending, Max(Totals(spending)));
      MeanBelowHighest(spending);
      PositiveMean(spending);
      Stats(|spending|, Some(Mean(Totals(spending))), Some(Max(Totals(spending))))
  }

  /** The mean of the totals is at most their maximum. */
  lemma MeanBelowHighest(spending: seq<Group<string>>)
    requires spending != []
    ensures Mean(Totals(spending)) <= Max(Totals(spending))
  {
    SumAtMost(Totals(spending), Max(Totals(spending)));
    Algebra.MeanAtMost(Sum(Totals(spending)), |spending| as real, Max(Totals(spending)));
  }

  /** When every customer spent something, the mean spend is positive. */
  lemma PositiveMean(spending: seq<Group<string>>)
    requires spending != []
    ensures (forall g :: g in spending ==> g.total > 0.0) ==> Mean(Totals(spending)) > 0.0
  {
    if forall g :: g in spending ==> g.total > 0.0 {
      var xs := Totals(spending);
      assert forall i :: 0 <= i < |xs| ==> spending[i] in spending;
      SumPositive(xs);
      Algebra.MeanPositive(Sum(xs), |spending| as real);
    }
  }

  /** The maximum of the totals is a total some group reached and none exceeded. */
  lemma HighestReached(spending: seq<Group<string>>, m: real)
    requires spending != [] && m == Max(Totals(spending))
    ensures forall g :: g in spending ==> g.total <= m
    ensures exists g :: g in spending && g.total == m
  {
    var xs := Totals(spending);
    forall g | g in spending
      ensures g.total <= m
    {
      var i :| 0 <= i < |spending| && spending[i] == g;
      assert xs[i] == g.total;
    }
    var i :| 0 <= i < |xs| && xs[i] == m;
    assert spending[i] in spending;
  }

  /** What the customer page shows. */
  datatype CustomerReport = CustomerReport(top: seq<Group<string>>, topFifty: seq<Group<string>>, stats: Stats)

  /** The page shows a warning instead of its charts. */
  datatype PageError = NoData

  /**
   * The customer page as written: it warns only when the filtered table is
   * empty, although its figures come from the stricter customer view.
   */
  function CustomerPageAsWritten(t: seq<Row>): (r: Result<CustomerReport, PageError>)
    ensures r.Failure? <==> t == []
    ensures r.Success? ==> r.value.top == TopCustomers(CustomerSpending(t))
    ensures r.Success? ==> r.value.topFifty == TopFiftySpending(CustomerSpending(t))
    ensures r.Success? ==> r.value.stats == SpendingStats(CustomerSpending(t))
  {
    if t == [] then Failure(NoData)
    else
      var spending := CustomerSpending(t);
      Success(CustomerReport(TopCustomers(spending), TopFiftySpending(spending), SpendingStats(spending)))
  }

  /**
   * A filtered table holding only a returned item (negative quantity) passes
   * the page's guard, yet leaves no customer: the mean and highest spend
   * come out as NaN.
   */
  lemma AsWrittenShowsNoMetrics()
    ensures var t := [Row("C536379", "Discount", -1, Timestamp(0, 0), 27.5, 14527, "United Kingdom", -27.5)];
      && CustomerPageAsWritten(t).Success?
      && CustomerPageAsWritten(t).value.stats.mean.None?
      && CustomerPageAsWritten(t).value.stats.highest.None?
  {
    var t := [Row("C536379", "Discount", -1, Timestamp(0, 0), 27.5, 14527, "United Kingdom", -27.5)];
    assert t[..0] == [];
    assert CustomerView(t) == [];
  }

  /**
   * The customer page with its guard on the customer view: whenever it shows
   * figures, there is at least one customer, so the mean and highest spend
   * exist, and 0 < mean <= highest.
   */
  function CustomerPage(t: seq<Row>): (r: Result<CustomerReport, PageError>)
    ensures r.Failure? <==> CustomerView(t) == []
    ensures r.Success? ==> r.value.top == TopCustomers(CustomerSpending(t))
    ensures r.Success? ==> r.value.topFifty == TopFiftySpending(CustomerSpending(t))
    ensures r.Success? ==> r.value.stats == SpendingStats(CustomerSpending(t))
    ensures r.Success? ==> r.value.stats.count > 0
    ensures r.Success? ==> r.value.stats.mean.Some? && r.value.stats.highest.Some?
    ensures r.Success? ==> 0.0 < r.value.stats.mean.value <= r.value.stats.highest.value
  {
    if CustomerView(t) == [] then Failure(NoData)
    else
      var spending := CustomerSpending(t);
      assert CustomerKey(CustomerView(t)[0]) in Keys(spending);
      assert forall g :: g in spending ==> g.total > 0.0;
      Success(CustomerReport(TopCustomers(spending), TopFiftySpending(spending), SpendingStats(spending)))
  }
}
