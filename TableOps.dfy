/**
 * Whole-table operations that the dashboard applies to its frames, over
 * sequences of rows: a boolean-mask selection, `sort_values`, `head` and `tail`.
 */
module TableOps {

  /** `a` is `b` with some elements removed and the rest in their original order. */
  ghost predicate SubsequenceOf<T>(a: seq<T>, b: seq<T>)
    decreases |b|
  {
    if a == [] then true
    else if b == [] then false
    else if a[|a| - 1] == b[|b| - 1] then SubsequenceOf(a[..|a| - 1], b[..|b| - 1])
    else SubsequenceOf(a, b[..|b| - 1])
  }

  /** The rows of `s` that satisfy `p`, in order: `frame[mask]`. */
  function Filter<T>(s: seq<T>, p: T -> bool): (r: seq<T>)
    ensures |r| <= |s|
    decreases |s|
  {
    if s == [] then []
    else if p(s[|s| - 1]) then Filter(s[..|s| - 1], p) + [s[|s| - 1]]
    else Filter(s[..|s| - 1], p)
  }

  /** Every selected row is a row of `s` that passes the mask. */
  lemma {:induction false} FilterSound<T>(s: seq<T>, p: T -> bool)
    ensures forall i :: 0 <= i < |Filter(s, p)| ==> Filter(s, p)[i] in s && p(Filter(s, p)[i])
    decreases |s|
  {
    if s != [] {
      var n := |s| - 1;
      FilterSound(s[..n], p);
      assert forall x :: x in s[..n] ==> x in s;
    }
  }

  /** Every row of `s` that passes the mask is selected. */
  lemma {:induction false} FilterComplete<T>(s: seq<T>, p: T -> bool)
    ensures forall i :: 0 <= i < |s| && p(s[i]) ==> s[i] in Filter(s, p)
    decreases |s|
  {
    if s != [] {
      var n := |s| - 1;
      FilterComplete(s[..n], p);
      assert forall i :: 0 <= i < n ==> s[i] == s[..n][i];
    }
  }

  /** The selection keeps the rows in their original order. */
  lemma {:induction false} FilterOrder<T>(s: seq<T>, p: T -> bool)
    ensures SubsequenceOf(Filter(s, p), s)
    decreases |s|
  {
    if s != [] {
      var n := |s| - 1;
      var r' := Filter(s[..n], p);
      FilterOrder(s[..n], p);
      if p(s[n]) {
        assert (r' + [s[n]])[..|r'|] == r';
      } else if r' != [] {
        FilterSound(s[..n], p);
        assert p(r'[|r'| - 1]);
      }
    }
  }

  /** A mask that every row passes selects the whole frame. */
  lemma {:induction false} FilterAll<T>(s: seq<T>, p: T -> bool)
    requires forall i :: 0 <= i < |s| ==> p(s[i])
    ensures Filter(s, p) == s
    decreases |s|
  {
    if s != [] {
      FilterAll(s[..|s| - 1], p);
      assert s == s[..|s| - 1] + [s[|s| - 1]];
    }
  }

  /** A mask that no row passes selects nothing. */
  lemma {:induction false} FilterNone<T>(s: seq<T>, p: T -> bool)
    requires forall i :: 0 <= i < |s| ==> !p(s[i])
    ensures Filter(s, p) == []
    decreases |s|
  {
    if s != [] {
      FilterNone(s[..|s| - 1], p);
    }
  }

  /**
   * The selection keeps every copy of a passing row: each row occurs in it
   * as often as in `s` when it passes the mask, and not at all otherwise.
   */
  lemma {:induction false} FilterCounts<T>(s: seq<T>, p: T -> bool)
    ensures forall x :: multiset(Filter(s, p))[x] == if p(x) then multiset(s)[x] else 0
    decreases |s|
  {
    if s != [] {
      var n := |s| - 1;
      FilterCounts(s[..n], p);
      assert s == s[..n] + [s[n]];
    }
  }

  /** Selecting from a concatenation selects from each part in turn. */
  lemma {:induction false} FilterConcat<T>(a: seq<T>, b: seq<T>, p: T -> bool)
    ensures Filter(a + b, p) == Filter(a, p) + Filter(b, p)
    decreases |b|
  {
    if b == [] {
      assert a + b == a;
    } else {
      var n := |b| - 1;
      assert (a + b)[..|a + b| - 1] == a + b[..n];
      FilterConcat(a, b[..n], p);
    }
  }

  /** `s` ordered by `f` in non-decreasing order. */
  ghost predicate SortedBy<T>(s: seq<T>, f: T -> real)
  {
    forall i, j :: 0 <= i < j < |s| ==> f(s[i]) <= f(s[j])
  }

  /** Places `x` in front of the first element of `s` whose key is not below its own. */
  function Insert<T>(x: T, s: seq<T>, f: T -> real): (r: seq<T>)
    requires SortedBy(s, f)
    ensures SortedBy(r, f)
    ensures multiset(r) == multiset(s) + multiset{x}
    decreases |s|
  {
    if s == [] || f(x) <= f(s[0]) then
      SortedCons(x, s, f);
      [x] + s
    else
      assert s == [s[0]] + s[1..];
      var r' := Insert(x, s[1..], f);
      InsertAbove(x, s, f, r');
      SortedCons(s[0], r', f);
      assert multiset([s[0]] + r') == multiset{s[0]} + multiset(r');
      [s[0]] + r'
  }

  /** An element no larger than the head of sorted `s` can go in front of it. */
  lemma SortedCons<T>(x: T, s: seq<T>, f: T -> real)
    requires SortedBy(s, f)
    requires s == [] || f(x) <= f(s[0])
    ensures SortedBy([x] + s, f)
  {
    var r := [x] + s;
    forall i, j | 0 <= i < j < |r|
      ensures f(r[i]) <= f(r[j])
    {
      if i == 0 {
        assert f(s[0]) <= f(s[j - 1]) || j == 1;
      }
    }
  }

  /** Everything after the head of sorted `s`, with `x` added, sits above that head. */
  lemma InsertAbove<T>(x: T, s: seq<T>, f: T -> real, r': seq<T>)
    requires SortedBy(s, f) && |s| > 0 && f(s[0]) < f(x)
    requires multiset(r') == multiset(s[1..]) + multiset{x}
    ensures forall i :: 0 <= i < |r'| ==> f(s[0]) <= f(r'[i])
  {
    forall i | 0 <= i < |r'|
      ensures f(s[0]) <= f(r'[i])
    {
      assert r'[i] in multiset(r');
      if r'[i] != x {
        assert r'[i] in s[1..];
      }
    }
  }

  /** `sort_values` on the key `f`, ascending: a sorted permutation of `s`. */
  function SortBy<T>(s: seq<T>, f: T -> real): (r: seq<T>)
    ensures SortedBy(r, f)
    ensures multiset(r) == multiset(s)
    ensures |r| == |s|
    decreases |s|
  {
    if s == [] then []
    else
      assert s == [s[0]] + s[1..];
      Insert(s[0], SortBy(s[1..], f), f)
  }

  /** `head(n)`: the first n rows, or all of them when there are fewer. */
  function Head<T>(s: seq<T>, n: nat): (r: seq<T>)
    ensures |r| == if |s| < n then |s| else n
    ensures r == s[..|r|]
  {
    if |s| <= n then s else s[..n]
  }

  /** `tail(n)`: the last n rows, or all of them when there are fewer. */
  function Tail<T>(s: seq<T>, n: nat): (r: seq<T>)
    ensures |r| == if |s| < n then |s| else n
    ensures r == s[|s| - |r|..]
  {
    if |s| <= n then s else s[|s| - n..]
  }

  /** `head` and `tail` of a sorted sequence are sorted. */
  lemma HeadTailSorted<T>(s: seq<T>, f: T -> real, n: nat)
    requires SortedBy(s, f)
    ensures SortedBy(Head(s, n), f)
    ensures SortedBy(Tail(s, n), f)
  {
    var h, t := Head(s, n), Tail(s, n);
    var d := |s| - |t|;
    assert forall i :: 0 <= i < |h| ==> h[i] == s[i];
    assert forall i :: 0 <= i < |t| ==> t[i] == s[d + i];
  }

  /** `head` and `tail` keep at most the copies the sequence has of each element. */
  lemma HeadTailSubmultiset<T>(s: seq<T>, n: nat)
    ensures multiset(Head(s, n)) <= multiset(s)
    ensures multiset(Tail(s, n)) <= multiset(s)
  {
    var h, t := Head(s, n), Tail(s, n);
    assert s == h + s[|h|..];
    assert s == s[..|s| - |t|] + t;
  }

  /** What a sub-multiset of `s` holds are elements of `s`. */
  lemma SubmultisetMembers<T>(r: seq<T>, s: seq<T>)
    requires multiset(r) <= multiset(s)
    ensures forall x :: x in r ==> x in s
  {
    forall x | x in r
      ensures x in s
    {
      assert x in multiset(r);
    }
  }

  /** What `head` leaves out of a sorted sequence has keys no smaller than what it keeps. */
  lemma HeadOfSorted<T>(s: seq<T>, f: T -> real, n: nat, x: T)
    requires SortedBy(s, f)
    requires x in s && x !in Head(s, n)
    ensures forall y :: y in Head(s, n) ==> f(y) <= f(x)
  {
    var h := Head(s, n);
    var i :| 0 <= i < |s| && s[i] == x;
    forall y | y in h
      ensures f(y) <= f(x)
    {
      var j :| 0 <= j < |h| && h[j] == y;
      assert s[j] == y;
    }
  }

  /** What `tail` leaves out of a sorted sequence has keys no larger than what it keeps. */
  lemma TailOfSorted<T>(s: seq<T>, f: T -> real, n: nat, x: T)
    requires SortedBy(s, f)
    requires x in s && x !in Tail(s, n)
    ensures forall y :: y in Tail(s, n) ==> f(x) <= f(y)
  {
    var t := Tail(s, n);
    var d := |s| - |t|;
    var i :| 0 <= i < |s| && s[i] == x;
    forall y | y in t
      ensures f(x) <= f(y)
    {
      var j :| 0 <= j < |t| && t[j] == y;
      assert s[d + j] == y;
    }
  }
}
