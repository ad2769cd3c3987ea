/**
 * Ranking grouped results by their total: `sort_values(...).head(n)` and
 * `sort_values().tail(n)`.
 */
module Ranking {
  import opened TableOps
  import opened Grouping

  function TotalOf<K>(g: Group<K>): real { g.total }

  function NegatedTotalOf<K>(g: Group<K>): real { -g.total }

  /**
   * `sort_values(ascending=False).head(n)`: min(n, |gs|) groups, largest total
   * first; they are input groups, none taken more often than it occurs, and
   * any group left out has a total no larger than every group kept.
   */
  function TopDescending<K>(gs: seq<Group<K>>, n: nat): (r: seq<Group<K>>)
    ensures |r| == if |gs| < n then |gs| else n
    ensures forall i, j :: 0 <= i < j < |r| ==> r[j].total <= r[i].total
    ensures forall g :: g in r ==> g in gs
    ensures multiset(r) <= multiset(gs)
    ensures forall g, h :: g in gs && g !in r && h in r ==> g.total <= h.total
  {
    var sorted := SortBy(gs, NegatedTotalOf);
    HeadTailSorted(sorted, NegatedTotalOf, n);
    HeadTailSubmultiset(sorted, n);
    Descending(Head(sorted, n));
    SubmultisetMembers(Head(sorted, n), gs);
    HeadDominates(gs, sorted, n);
    Head(sorted, n)
  }

  /** Groups `head` leaves out of the descending order have totals no larger than those it keeps. */
  lemma HeadDominates<K>(gs: seq<Group<K>>, sorted: seq<Group<K>>, n: nat)
    requires SortedBy(sorted, NegatedTotalOf) && multiset(sorted) == multiset(gs)
    ensures forall g, h :: g in gs && g !in Head(sorted, n) && h in Head(sorted, n) ==> g.total <= h.total
  {
    SameMembers(sorted, gs);
    forall g | g in gs && g !in Head(sorted, n)
      ensures forall h :: h in Head(sorted, n) ==> g.total <= h.total
    {
      HeadOfSorted(sorted, NegatedTotalOf, n, g);
    }
  }

  /**
   * `sort_values(by='TotalPrice').tail(n)`: min(n, |gs|) groups in ascending
   * order of total; they are input groups, none taken more often than it
   * occurs, and any group left out has a total no larger than every group kept.
   */
  function TopAscending<K>(gs: seq<Group<K>>, n: nat): (r: seq<Group<K>>)
    ensures |r| == if |gs| < n then |gs| else n
    ensures forall i, j :: 0 <= i < j < |r| ==> r[i].total <= r[j].total
    ensures forall g :: g in r ==> g in gs
    ensures multiset(r) <= multiset(gs)
    ensures forall g, h :: g in gs && g !in r && h in r ==> g.total <= h.total
  {
    var sorted := SortBy(gs, TotalOf);
    HeadTailSorted(sorted, TotalOf, n);
    HeadTailSubmultiset(sorted, n);
    Ascending(Tail(sorted, n));
    SubmultisetMembers(Tail(sorted, n), gs);
    TailDominates(gs, sorted, n);
    Tail(sorted, n)
  }

  /** Groups `tail` leaves out of the ascending order have totals no larger than those it keeps. */
  lemma TailDominates<K>(gs: seq<Group<K>>, sorted: seq<Group<K>>, n: nat)
    requires SortedBy(sorted, TotalOf) && multiset(sorted) == multiset(gs)
    ensures forall g, h :: g in gs && g !in Tail(sorted, n) && h in Tail(sorted, n) ==> g.total <= h.total
  {
    SameMembers(sorted, gs);
    forall g | g in gs && g !in Tail(sorted, n)
      ensures forall h :: h in Tail(sorted, n) ==> g.total <= h.total
    {
      TailOfSorted(sorted, TotalOf, n, g);
    }
  }

  /** Sorted on the total means non-decreasing in the total. */
  lemma Ascending<K>(r: seq<Group<K>>)
    requires SortedBy(r, TotalOf)
    ensures forall i, j :: 0 <= i < j < |r| ==> r[i].total <= r[j].total
  {
    forall i, j | 0 <= i < j < |r|
      ensures r[i].total <= r[j].total
    {
      assert TotalOf(r[i]) <= TotalOf(r[j]);
    }
  }

  /** Sorted on the negated total means non-increasing in the total. */
  lemma Descending<K>(r: seq<Group<K>>)
    requires SortedBy(r, NegatedTotalOf)
    ensures forall i, j :: 0 <= i < j < |r| ==> r[j].total <= r[i].total
  {
    forall i, j | 0 <= i < j < |r|
      ensures r[j].total <= r[i].total
    {
      assert NegatedTotalOf(r[i]) <= NegatedTotalOf(r[j]);
    }
  }

  /** Taking groups of a result with distinct keys, no more often than they occur, keeps the keys distinct. */
  lemma DistinctKept<K>(gs: seq<Group<K>>, r: seq<Group<K>>)
    requires Distinct(Keys(gs)) && multiset(r) <= multiset(gs)
    ensures Distinct(Keys(r))
  {
    forall i, j | 0 <= i < j < |r|
      ensures Keys(r)[i] != Keys(r)[j]
    {
      if r[i].key == r[j].key {
        assert r[i] in multiset(gs) && r[j] in multiset(gs);
        var a :| 0 <= a < |gs| && gs[a] == r[i];
        var b :| 0 <= b < |gs| && gs[b] == r[j];
        assert Keys(gs)[a] == Keys(gs)[b];
        OccursOnce(gs, r[i]);
        OccursTwice(r, i, j);
        assert false;
      }
    }
  }

  /** In groups with distinct keys, a group occurs at most once. */
  lemma {:induction false} OccursOnce<K>(gs: seq<Group<K>>, g: Group<K>)
    requires Distinct(Keys(gs))
    ensures multiset(gs)[g] <= 1
    decreases |gs|
  {
    if gs != [] {
      var n := |gs| - 1;
      var gs' := gs[..n];
      assert Keys(gs') == Keys(gs)[..n];
      OccursOnce(gs', g);
      assert gs == gs' + [gs[n]];
      if gs[n] == g {
        assert forall i :: 0 <= i < n ==> Keys(gs)[i] != Keys(gs)[n];
        assert g !in gs';
      }
    }
  }

  /** An element found at two positions occurs at least twice. */
  lemma OccursTwice<T>(r: seq<T>, i: nat, j: nat)
    requires i < j < |r| && r[i] == r[j]
    ensures multiset(r)[r[i]] >= 2
  {
    assert r == r[..j] + [r[j]] + r[j + 1..];
    assert r[..j][i] == r[i];
  }

  /** Permutations have the same members. */
  lemma SameMembers<T>(a: seq<T>, b: seq<T>)
    requires multiset(a) == multiset(b)
    ensures forall x :: x in a <==> x in b
  {
    forall x
      ensures x in a <==> x in b
    {
      assert x in a <==> x in multiset(a);
      assert x in b <==> x in multiset(b);
    }
  }
}
