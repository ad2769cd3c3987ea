/** Exact sums of real numbers and the facts about them the pipeline needs. */
module Sums {
  import Algebra

  /** The sum of the first n elements of s, accumulated from the front. */
  function SumTo(s: seq<real>, n: nat): real
    requires n <= |s|
    decreases n
  {
    if n == 0 then 0.0 else SumTo(s, n - 1) + s[n - 1]
  }

  /** The sum of a sequence (pandas `sum`). */
  function Sum(s: seq<real>): real
  {
    SumTo(s, |s|)
  }

  /** Dropping the elements past the first n does not change their sum. */
  lemma {:induction false} SumToPrefix(s: seq<real>, m: nat, n: nat)
    requires n <= m <= |s|
    ensures SumTo(s[..m], n) == SumTo(s, n)
    decreases n
  {
    if n > 0 {
      SumToPrefix(s, m, n - 1);
    }
  }

  /** The sum of a non-empty sequence is the sum of all but its last element, plus that element. */
  lemma Unroll(s: seq<real>)
    requires |s| > 0
    ensures Sum(s) == Sum(s[..|s| - 1]) + s[|s| - 1]
  {
    SumToPrefix(s, |s| - 1, |s| - 1);
  }

  /** w is u + v, pointwise. */
  ghost predicate Added(u: seq<real>, v: seq<real>, w: seq<real>)
  {
    |u| == |w| && |v| == |w| && forall i :: 0 <= i < |w| ==> w[i] == u[i] + v[i]
  }

  lemma {:induction false} SumToAdd(u: seq<real>, v: seq<real>, w: seq<real>, n: nat)
    requires Added(u, v, w) && n <= |w|
    ensures SumTo(w, n) == SumTo(u, n) + SumTo(v, n)
    decreases n
  {
    if n > 0 {
      SumToAdd(u, v, w, n - 1);
    }
  }

  /** The sum of pointwise sums is the sum of the sums. */
  lemma SumAdd(u: seq<real>, v: seq<real>, w: seq<real>)
    requires Added(u, v, w)
    ensures Sum(w) == Sum(u) + Sum(v)
  {
    SumToAdd(u, v, w, |w|);
  }

  /** w is u - p - q, pointwise. */
  ghost predicate Differenced(u: seq<real>, p: seq<real>, q: seq<real>, w: seq<real>)
  {
    |u| == |w| && |p| == |w| && |q| == |w| && forall i :: 0 <= i < |w| ==> w[i] == u[i] - p[i] - q[i]
  }

  lemma {:induction false} SumToDifference(u: seq<real>, p: seq<real>, q: seq<real>, w: seq<real>, n: nat)
    requires Differenced(u, p, q, w) && n <= |w|
    ensures SumTo(w, n) == SumTo(u, n) - SumTo(p, n) - SumTo(q, n)
    decreases n
  {
    if n > 0 {
      SumToDifference(u, p, q, w, n - 1);
    }
  }

  /** The sum of u - p - q, pointwise, is Sum(u) - Sum(p) - Sum(q). */
  lemma SumDifference(u: seq<real>, p: seq<real>, q: seq<real>, w: seq<real>)
    requires Differenced(u, p, q, w)
    ensures Sum(w) == Sum(u) - Sum(p) - Sum(q)
  {
    SumToDifference(u, p, q, w, |w|);
  }

  /** w is u + v - 2z, pointwise. */
  ghost predicate Expanded(u: seq<real>, v: seq<real>, z: seq<real>, w: seq<real>)
  {
    |u| == |w| && |v| == |w| && |z| == |w| && forall i :: 0 <= i < |w| ==> w[i] == u[i] + v[i] - 2.0 * z[i]
  }

  lemma {:induction false} SumToExpansion(u: seq<real>, v: seq<real>, z: seq<real>, w: seq<real>, n: nat)
    requires Expanded(u, v, z, w) && n <= |w|
    ensures SumTo(w, n) == SumTo(u, n) + SumTo(v, n) - 2.0 * SumTo(z, n)
    decreases n
  {
    if n > 0 {
      SumToExpansion(u, v, z, w, n - 1);
    }
  }

  /** The sum of u + v - 2z, pointwise, is Sum(u) + Sum(v) - 2 Sum(z). */
  lemma SumExpansion(u: seq<real>, v: seq<real>, z: seq<real>, w: seq<real>)
    requires Expanded(u, v, z, w)
    ensures Sum(w) == Sum(u) + Sum(v) - 2.0 * Sum(z)
  {
    SumToExpansion(u, v, z, w, |w|);
  }

  /** The pointwise multiple c*u. */
  function Scale(u: seq<real>, c: real): (r: seq<real>)
    ensures |r| == |u|
    ensures forall i :: 0 <= i < |u| ==> r[i] == c * u[i]
  {
    seq(|u|, i requires 0 <= i < |u| => c * u[i])
  }

  lemma {:induction false} SumToScale(u: seq<real>, c: real, n: nat)
    requires n <= |u|
    ensures SumTo(Scale(u, c), n) == c * SumTo(u, n)
    decreases n
  {
    if n > 0 {
      SumToScale(u, c, n - 1);
      Algebra.Distribute(c, SumTo(u, n), SumTo(u, n - 1), u[n - 1]);
    }
  }

  /** Summation commutes with scaling: the sum of c*u is c times the sum of u. */
  lemma SumScale(u: seq<real>, c: real)
    ensures Sum(Scale(u, c)) == c * Sum(u)
  {
    SumToScale(u, c, |u|);
  }

  /** k copies of c. */
  function Constant(k: nat, c: real): (r: seq<real>)
    ensures |r| == k
    ensures forall i :: 0 <= i < k ==> r[i] == c
  {
    seq(k, i => c)
  }

  lemma {:induction false} SumToConstant(k: nat, c: real, n: nat)
    requires n <= k
    ensures SumTo(Constant(k, c), n) == c * (n as real)
    decreases n
  {
    if n > 0 {
      SumToConstant(k, c, n - 1);
      Algebra.Distribute(c, n as real, (n - 1) as real, 1.0);
    }
  }

  /** k copies of c sum to c*k. */
  lemma SumConstant(k: nat, c: real)
    ensures Sum(Constant(k, c)) == c * (k as real)
  {
    SumToConstant(k, c, k);
  }

  /** The pointwise product of two sequences of the same length. */
  function Products(u: seq<real>, v: seq<real>): (r: seq<real>)
    requires |u| == |v|
    ensures |r| == |u|
    ensures forall i :: 0 <= i < |u| ==> r[i] == u[i] * v[i]
  {
    seq(|u|, i requires 0 <= i < |u| => u[i] * v[i])
  }

  lemma {:induction false} SumToZeros(s: seq<real>, n: nat)
    requires forall i :: 0 <= i < |s| ==> s[i] == 0.0
    requires n <= |s|
    ensures SumTo(s, n) == 0.0
    decreases n
  {
    if n > 0 {
      SumToZeros(s, n - 1);
    }
  }

  /** A sequence of zeros sums to zero. */
  lemma SumZeros(s: seq<real>)
    requires forall i :: 0 <= i < |s| ==> s[i] == 0.0
    ensures Sum(s) == 0.0
  {
    SumToZeros(s, |s|);
  }

  /** The indices 0, 1, ..., k-1 as reals. */
  function Indices(k: nat): (r: seq<real>)
    ensures |r| == k
    ensures forall i :: 0 <= i < k ==> r[i] == i as real
  {
    seq(k, i => i as real)
  }

  lemma {:induction false} SumToIndices(k: nat, n: nat)
    requires n <= k
    ensures SumTo(Indices(k), n) == (n as real) * ((n as real) - 1.0) / 2.0
    decreases n
  {
    if n > 0 {
      SumToIndices(k, n - 1);
      Algebra.TriangleStep(n as real, (n - 1) as real, SumTo(Indices(k), n), SumTo(Indices(k), n - 1));
    }
  }

  /** 0 + 1 + ... + (k-1) == k(k-1)/2. */
  lemma SumIndices(k: nat)
    ensures Sum(Indices(k)) == (k as real) * ((k as real) - 1.0) / 2.0
  {
    SumToIndices(k, k);
  }

  /** The squares of the indices 0, 1, ..., k-1 as reals. */
  function IndexSquares(k: nat): (r: seq<real>)
    ensures |r| == k
    ensures forall i :: 0 <= i < k ==> r[i] == (i as real) * (i as real)
  {
    seq(k, i => (i as real) * (i as real))
  }

  lemma {:induction false} SumToIndexSquares(k: nat, n: nat)
    requires n <= k
    ensures SumTo(IndexSquares(k), n) == ((n as real) - 1.0) * (n as real) * (2.0 * (n as real) - 1.0) / 6.0
    decreases n
  {
    if n > 0 {
      SumToIndexSquares(k, n - 1);
      Algebra.PyramidStep(n as real, (n - 1) as real, SumTo(IndexSquares(k), n), SumTo(IndexSquares(k), n - 1));
    }
  }

  /** 0^2 + 1^2 + ... + (k-1)^2 == (k-1)k(2k-1)/6. */
  lemma SumIndexSquares(k: nat)
    ensures Sum(IndexSquares(k)) == ((k as real) - 1.0) * (k as real) * (2.0 * (k as real) - 1.0) / 6.0
  {
    SumToIndexSquares(k, k);
  }

  lemma {:induction false} SumToAtLeastTerm(s: seq<real>, n: nat, j: nat)
    requires forall i :: 0 <= i < |s| ==> s[i] >= 0.0
    requires j < n <= |s|
    ensures SumTo(s, n) >= s[j]
    decreases n
  {
    if j < n - 1 {
      SumToAtLeastTerm(s, n - 1, j);
    } else {
      SumToNonnegative(s, n - 1);
    }
  }

  /** A sum of non-negative terms is at least each of its terms. */
  lemma SumAtLeastTerm(s: seq<real>, j: nat)
    requires forall i :: 0 <= i < |s| ==> s[i] >= 0.0
    requires j < |s|
    ensures Sum(s) >= s[j]
  {
    SumToAtLeastTerm(s, |s|, j);
  }

  lemma {:induction false} SumToNonnegative(s: seq<real>, n: nat)
    requires forall i :: 0 <= i < |s| ==> s[i] >= 0.0
    requires n <= |s|
    ensures SumTo(s, n) >= 0.0
    decreases n
  {
    if n > 0 {
      SumToNonnegative(s, n - 1);
    }
  }

  /** A sum of non-negative terms is non-negative. */
  lemma SumNonnegative(s: seq<real>)
    requires forall i :: 0 <= i < |s| ==> s[i] >= 0.0
    ensures Sum(s) >= 0.0
  {
    SumToNonnegative(s, |s|);
  }

  /** A non-empty sum of positive terms is positive. */
  lemma SumPositive(s: seq<real>)
    requires |s| > 0
    requires forall i :: 0 <= i < |s| ==> s[i] > 0.0
    ensures Sum(s) > 0.0
  {
    SumAtLeastTerm(s, 0);
  }

  lemma {:induction false} SumToAtMost(s: seq<real>, m: real, n: nat)
    requires forall i :: 0 <= i < |s| ==> s[i] <= m
    requires n <= |s|
    ensures SumTo(s, n) <= n as real * m
    decreases n
  {
    if n > 0 {
      SumToAtMost(s, m, n - 1);
      Algebra.Distribute(m, n as real, (n - 1) as real, 1.0);
    }
  }

  /** A sum of terms that are all at most m is at most |s|*m. */
  lemma SumAtMost(s: seq<real>, m: real)
    requires forall i :: 0 <= i < |s| ==> s[i] <= m
    ensures Sum(s) <= |s| as real * m
  {
    SumToAtMost(s, m, |s|);
  }

  /** The mean of a non-empty sequence (pandas `mean`): count times mean is the sum. */
  function Mean(s: seq<real>): (m: real)
    requires |s| > 0
    ensures m * (|s| as real) == Sum(s)
  {
    Algebra.QuotientTimesDivisor(Sum(s), |s| as real);
    Sum(s) / (|s| as real)
  }

  /** The largest element of a non-empty sequence (pandas `max`). */
  function Max(s: seq<real>): (m: real)
    requires |s| > 0
    ensures m in s
    ensures forall i :: 0 <= i < |s| ==> s[i] <= m
    decreases |s|
  {
    if |s| == 1 then s[0]
    else
      var m' := Max(s[..|s| - 1]);
      if s[|s| - 1] > m' then s[|s| - 1] else m'
  }
}
