/** The sidebar's country selection applied to the loaded table (app.py:42-48). */
module CountryFilter {
  import opened Loader
  import opened TableOps

  /** The countries present in the table: the selection's default, `data['Country'].unique()`. */
  ghost function Countries(t: seq<Row>): set<string>
  {
    set i | 0 <= i < |t| :: t[i].country
  }

  /**
   * `data[data['Country'].isin(countries)]`: the rows whose country is
   * selected, every copy of each, in their original order.
   */
  function FilterCountries(t: seq<Row>, countries: set<string>): (r: seq<Row>)
    ensures forall i :: 0 <= i < |r| ==> r[i].country in countries && r[i] in t
    ensures forall i :: 0 <= i < |t| && t[i].country in countries ==> t[i] in r
    ensures SubsequenceOf(r, t)
    ensures forall x :: multiset(r)[x] == if x.country in countries then multiset(t)[x] else 0
    ensures countries == {} ==> r == []
  {
    var p := (row: Row) => row.country in countries;
    FilterSound(t, p);
    FilterComplete(t, p);
    FilterOrder(t, p);
    FilterCounts(t, p);
    Filter(t, p)
  }

  /** Selecting every country present (the default) leaves the table unchanged. */
  lemma SelectAllIsIdentity(t: seq<Row>, countries: set<string>)
    requires Countries(t) <= countries
    ensures FilterCountries(t, countries) == t
  {
    assert forall i :: 0 <= i < |t| ==> t[i].country in Countries(t);
    FilterAll(t, (row: Row) => row.country in countries);
  }
}
