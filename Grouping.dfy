/**
 * `groupby(key)[column].sum()` and `nunique()` over a sequence of rows, for any
 * row type, key and measured column.
 */
module Grouping {
  import opened Sums
  import opened TableOps

  /** One output row of a grouped sum: a key and the total of its rows. */
  datatype Group<K> = Group(key: K, total: real)

  /** The `total` column of a grouped result. */
  function Totals<K>(gs: seq<Group<K>>): (r: seq<real>)
    ensures |r| == |gs|
    ensures forall i :: 0 <= i < |gs| ==> r[i] == gs[i].total
  {
    seq(|gs|, i requires 0 <= i < |gs| => gs[i].total)
  }

  /** The `key` column of a grouped result. */
  function Keys<K>(gs: seq<Group<K>>): (r: seq<K>)
    ensures |r| == |gs|
    ensures forall i :: 0 <= i < |gs| ==> r[i] == gs[i].key
  {
    seq(|gs|, i requires 0 <= i < |gs| => gs[i].key)
  }

  /** The sum of column `val` over all rows of `s`. */
  function SumBy<T>(s: seq<T>, val: T -> real): real
    decreases |s|
  {
    if s == [] then 0.0 else SumBy(s[..|s| - 1], val) + val(s[|s| - 1])
  }

  /** The column `val` of the rows of `s`. */
  function Column<T>(s: seq<T>, val: T -> real): (c: seq<real>)
    ensures |c| == |s|
    ensures forall i :: 0 <= i < |s| ==> c[i] == val(s[i])
  {
    seq(|s|, i requires 0 <= i < |s| => val(s[i]))
  }

  /** Summing a column row by row is the sum of that column as a sequence. */
  lemma {:induction false} SumByColumn<T>(s: seq<T>, val: T -> real)
    ensures SumBy(s, val) == Sum(Column(s, val))
    decreases |s|
  {
    if s != [] {
      var n := |s| - 1;
      SumByColumn(s[..n], val);
      assert Column(s[..n], val) == Column(s, val)[..n];
      Unroll(Column(s, val));
    }
  }

  /** The mask selecting the rows whose key is `k`. */
  function HasKey<T, K(==)>(key: T -> K, k: K): T -> bool
  {
    (x: T) => key(x) == k
  }

  /**
   * A group's total is the column sum over the group's own rows: those
   * whose key is `k`, selected as a boolean mask would.
   */
  lemma {:induction false} SumWhereSelection<T, K>(s: seq<T>, key: T -> K, val: T -> real, k: K)
    ensures SumWhere(s, key, val, k) == SumBy(Filter(s, HasKey(key, k)), val)
    decreases |s|
  {
    if s != [] {
      var n := |s| - 1;
      SumWhereSelection(s[..n], key, val, k);
      var f := Filter(s[..n], HasKey(key, k));
      if key(s[n]) == k {
        assert (f + [s[n]])[..|f|] == f;
      }
    }
  }

  /** The sum of column `val` over the rows of `s` whose key is `k`. */
  function SumWhere<T, K(==)>(s: seq<T>, key: T -> K, val: T -> real, k: K): real
    decreases |s|
  {
    if s == [] then 0.0
    else SumWhere(s[..|s| - 1], key, val, k) + (if key(s[|s| - 1]) == k then val(s[|s| - 1]) else 0.0)
  }

  ghost predicate Distinct<K>(ks: seq<K>)
  {
    forall i, j :: 0 <= i < j < |ks| ==> ks[i] != ks[j]
  }

  /** Every row's key occurs in `ks`, and every element of `ks` is some row's key. */
  ghost predicate KeysOf<T, K>(ks: seq<K>, s: seq<T>, key: T -> K)
  {
    && (forall i :: 0 <= i < |s| ==> key(s[i]) in ks)
    && (forall k :: k in ks ==> exists i :: 0 <= i < |s| && key(s[i]) == k)
  }

  /** The distinct keys of `s`, in order of first appearance. */
  function DistinctKeys<T, K(==)>(s: seq<T>, key: T -> K): (ks: seq<K>)
    ensures |ks| <= |s|
    decreases |s|
  {
    if s == [] then []
    else
      var ks' := DistinctKeys(s[..|s| - 1], key);
      var k := key(s[|s| - 1]);
      if k in ks' then ks' else ks' + [k]
  }

  /** `DistinctKeys` lists each key of `s` exactly once and nothing else. */
  lemma {:induction false} DistinctKeysSpec<T, K>(s: seq<T>, key: T -> K)
    ensures Distinct(DistinctKeys(s, key))
    ensures KeysOf(DistinctKeys(s, key), s, key)
    decreases |s|
  {
    if s != [] {
      var n := |s| - 1;
      DistinctKeysSpec(s[..n], key);
      assert forall i :: 0 <= i < n ==> s[..n][i] == s[i];
    }
  }

  /** Keys in strictly ascending order. */
  ghost predicate StrictlyIncreasing(ks: seq<int>)
  {
    forall i, j :: 0 <= i < j < |ks| ==> ks[i] < ks[j]
  }

  /** Adds `k` to an ascending sequence of distinct keys, keeping it so. */
  function InsertKey(k: int, ks: seq<int>): (r: seq<int>)
    requires StrictlyIncreasing(ks)
    ensures StrictlyIncreasing(r)
    ensures forall x :: x in r <==> x == k || x in ks
    ensures |r| <= |ks| + 1
    decreases |ks|
  {
    if ks == [] || k < ks[0] then
      IncreasingCons(k, ks);
      [k] + ks
    else if k == ks[0] then ks
    else
      assert ks == [ks[0]] + ks[1..];
      var r' := InsertKey(k, ks[1..]);
      AboveHead(k, ks, r');
      IncreasingCons(ks[0], r');
      [ks[0]] + r'
  }

  /** A key below the first of an ascending sequence can go in front of it. */
  lemma IncreasingCons(k: int, ks: seq<int>)
    requires StrictlyIncreasing(ks)
    requires ks == [] || k < ks[0]
    ensures StrictlyIncreasing([k] + ks)
  {
    var r := [k] + ks;
    forall i, j | 0 <= i < j < |r|
      ensures r[i] < r[j]
    {
      if i == 0 {
        assert ks[0] <= ks[j - 1];
      }
    }
  }

  /** Inserting a key above the head of an ascending sequence into its rest keeps everything above the head. */
  lemma AboveHead(k: int, ks: seq<int>, r: seq<int>)
    requires StrictlyIncreasing(ks) && |ks| > 0 && ks[0] < k
    requires forall x :: x in r <==> x == k || x in ks[1..]
    ensures r != [] && forall i :: 0 <= i < |r| ==> ks[0] < r[i]
  {
    assert k in r;
    forall i | 0 <= i < |r|
      ensures ks[0] < r[i]
    {
      assert r[i] in r;
      if r[i] != k {
        var j :| 0 <= j < |ks[1..]| && ks[1..][j] == r[i];
        assert ks[j + 1] == r[i];
      }
    }
  }

  /** The distinct keys of `s` in ascending order, as `groupby` (sort=True) yields them. */
  function SortedKeys<T>(s: seq<T>, key: T -> int): (ks: seq<int>)
    ensures StrictlyIncreasing(ks)
    ensures KeysOf(ks, s, key)
    ensures |ks| <= |s|
    decreases |s|
  {
    if s == [] then []
    else
      var n := |s| - 1;
      var ks' := SortedKeys(s[..n], key);
      assert forall i :: 0 <= i < n ==> s[..n][i] == s[i];
      InsertKey(key(s[n]), ks')
  }

  /** The distinct values of `key(row)` over the rows of `s`. */
  ghost function KeySet<T, K>(s: seq<T>, key: T -> K): set<K>
  {
    set i | 0 <= i < |s| :: key(s[i])
  }

  /** `nunique()`: the number of distinct keys among the rows of `s`. */
  function CountDistinct<T, K(==)>(s: seq<T>, key: T -> K): (n: nat)
    ensures n == |KeySet(s, key)|
    ensures n <= |s|
    ensures n == 0 <==> |s| == 0
  {
    var ks := DistinctKeys(s, key);
    DistinctKeysSpec(s, key);
    assert (set k | k in ks) == KeySet(s, key);
    DistinctCard(ks);
    assert |s| > 0 ==> key(s[0]) in ks;
    |ks|
  }

  /** A sequence of distinct elements has as many elements as its set. */
  lemma {:induction false} DistinctCard<K>(ks: seq<K>)
    requires Distinct(ks)
    ensures |set k | k in ks| == |ks|
    decreases |ks|
  {
    if ks != [] {
      var n := |ks| - 1;
      DistinctCard(ks[..n]);
      assert (set k | k in ks) == (set k | k in ks[..n]) + {ks[n]};
      assert ks[n] !in ks[..n];
    }
  }

  /** One group per key of `ks`, in that order, holding the sum of its rows. */
  function GroupSums<T, K(==)>(s: seq<T>, key: T -> K, val: T -> real, ks: seq<K>): (gs: seq<Group<K>>)
    ensures |gs| == |ks|
    ensures forall i :: 0 <= i < |ks| ==> gs[i] == Group(ks[i], SumWhere(s, key, val, ks[i]))
  {
    seq(|ks|, i requires 0 <= i < |ks| => Group(ks[i], SumWhere(s, key, val, ks[i])))
  }

  /**
   * Grouping is total: when `ks` lists every row's key once, the group sums
   * add up to the column sum over all rows, so no row is lost or counted twice.
   */
  lemma {:induction false} GroupSumsReconcile<T, K>(s: seq<T>, key: T -> K, val: T -> real, ks: seq<K>)
    requires Distinct(ks)
    requires forall i :: 0 <= i < |s| ==> key(s[i]) in ks
    ensures Sum(Totals(GroupSums(s, key, val, ks))) == SumBy(s, val)
    decreases |s|
  {
    var w := Totals(GroupSums(s, key, val, ks));
    if s == [] {
      SumZeros(w);
    } else {
      var n := |s| - 1;
      var x := s[n];
      var s' := s[..n];
      assert forall i :: 0 <= i < n ==> s'[i] == s[i];
      GroupSumsReconcile(s', key, val, ks);
      var u := Totals(GroupSums(s', key, val, ks));
      var d := seq(|ks|, i requires 0 <= i < |ks| => if key(x) == ks[i] then val(x) else 0.0);
      forall i | 0 <= i < |ks|
        ensures w[i] == u[i] + d[i]
      {
        assert w[i] == SumWhere(s, key, val, ks[i]);
        assert u[i] == SumWhere(s', key, val, ks[i]);
      }
      assert Added(u, d, w);
      SumAdd(u, d, w);
      SumIndicator(ks, key(x), val(x), d);
      assert SumBy(s, val) == SumBy(s', val) + val(x);
    }
  }

  /** Over distinct keys, the indicator of one key picks its value once. */
  lemma {:induction false} SumIndicator<K>(ks: seq<K>, k: K, v: real, d: seq<real>)
    requires Distinct(ks)
    requires |d| == |ks|
    requires forall i :: 0 <= i < |ks| ==> d[i] == if ks[i] == k then v else 0.0
    ensures Sum(d) == if k in ks then v else 0.0
    decreases |ks|
  {
    if ks != [] {
      var n := |ks| - 1;
      SumIndicator(ks[..n], k, v, d[..n]);
      Unroll(d);
      assert ks == ks[..n] + [ks[n]];
      assert ks[n] == k ==> k !in ks[..n];
    }
  }

  /** Each key of `ks` passed through `g`. */
  function MapKeys<K, L>(ks: seq<K>, g: K -> L): (r: seq<L>)
    ensures |r| == |ks|
    ensures forall i :: 0 <= i < |ks| ==> r[i] == g(ks[i])
  {
    seq(|ks|, i requires 0 <= i < |ks| => g(ks[i]))
  }

  /**
   * Re-encoding keys through an injective `g` (one that `back` undoes, like
   * `astype(str)` on customer numbers) neither merges nor splits groups: the distinct keys are the old ones, renamed, in the same order.
   */
  lemma {:induction false} DistinctKeysRenamed<T, K, L>(s: seq<T>, f: T -> K, g: K -> L, back: L -> K, h: T -> L)
    requires forall i :: 0 <= i < |s| ==> h(s[i]) == g(f(s[i]))
    requires forall a :: back(g(a)) == a
    ensures DistinctKeys(s, h) == MapKeys(DistinctKeys(s, f), g)
    decreases |s|
  {
    if s != [] {
      var n := |s| - 1;
      RenamedPrefix(s, f, g, h, n);
      DistinctKeysRenamed(s[..n], f, g, back, h);
      DistinctKeysStep(s, f);
      DistinctKeysStep(s, h);
      RenameStep(DistinctKeys(s[..n], f), DistinctKeys(s[..n], h), f(s[n]), g, back);
    } else {
      assert MapKeys(DistinctKeys(s, f), g) == [];
    }
  }

  /** A prefix of rows keeps the relation between the two keys. */
  lemma RenamedPrefix<T, K, L>(s: seq<T>, f: T -> K, g: K -> L, h: T -> L, n: nat)
    requires forall i :: 0 <= i < |s| ==> h(s[i]) == g(f(s[i]))
    requires n <= |s|
    ensures forall i :: 0 <= i < n ==> h(s[..n][i]) == g(f(s[..n][i]))
  {
    assert forall i :: 0 <= i < n ==> s[..n][i] == s[i];
  }

  /** Adding a key and renaming commute, under a renaming that `back` undoes. */
  lemma RenameStep<K, L>(kf: seq<K>, kh: seq<L>, a: K, g: K -> L, back: L -> K)
    requires kh == MapKeys(kf, g)
    requires forall a :: back(g(a)) == a
    ensures (if g(a) in kh then kh else kh + [g(a)]) == MapKeys(if a in kf then kf else kf + [a], g)
  {
    MapKeysMember(kf, g, back, a);
    MapKeysAppend(kf, g, a);
  }

  /** One step of `DistinctKeys`: the last row adds its key unless it was seen before. */
  lemma DistinctKeysStep<T, K>(s: seq<T>, key: T -> K)
    requires |s| > 0
    ensures var ks := DistinctKeys(s[..|s| - 1], key); var k := key(s[|s| - 1]);
      DistinctKeys(s, key) == if k in ks then ks else ks + [k]
  {
  }

  lemma MapKeysAppend<K, L>(ks: seq<K>, g: K -> L, a: K)
    ensures MapKeys(ks + [a], g) == MapKeys(ks, g) + [g(a)]
  {
    assert forall i :: 0 <= i < |ks| ==> (ks + [a])[i] == ks[i];
  }

  /** Under a renaming `g` that `back` undoes, `g(a)` is a renamed key exactly when `a` is a key. */
  lemma MapKeysMember<K, L>(ks: seq<K>, g: K -> L, back: L -> K, a: K)
    requires forall a :: back(g(a)) == a
    ensures g(a) in MapKeys(ks, g) <==> a in ks
  {
    if g(a) in MapKeys(ks, g) {
      var j :| 0 <= j < |ks| && MapKeys(ks, g)[j] == g(a);
      assert ks[j] == a;
    }
    if a in ks {
      var j :| 0 <= j < |ks| && ks[j] == a;
      assert MapKeys(ks, g)[j] == g(a);
    }
  }

  /**
   * A group sum over positive values is never negative, and is positive when
   * some row has that key.
   */
  lemma {:induction false} SumWherePositive<T, K>(s: seq<T>, key: T -> K, val: T -> real, k: K)
    requires forall i :: 0 <= i < |s| ==> val(s[i]) > 0.0
    ensures SumWhere(s, key, val, k) >= 0.0
    ensures (exists i :: 0 <= i < |s| && key(s[i]) == k) ==> SumWhere(s, key, val, k) > 0.0
    decreases |s|
  {
    if s != [] {
      var n := |s| - 1;
      assert forall i :: 0 <= i < n ==> s[..n][i] == s[i];
      SumWherePositive(s[..n], key, val, k);
      if exists i :: 0 <= i < |s| && key(s[i]) == k {
        var i :| 0 <= i < |s| && key(s[i]) == k;
        if i < n {
          assert s[..n][i] == s[i];
        }
      }
    }
  }
}
