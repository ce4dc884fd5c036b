/** Sums over finite maps, used for side totals, notional values and censuses. */
module Sums {

  /** The sum of all values of `m`. */
  ghost function Sum<K>(m: map<K, int>): int
  {
    if m == map[] then 0 else
      var k :| k in m;
      m[k] + Sum(m - {k})
  }

  /** The value at `k`, or 0 where there is none. */
  function At<K>(m: map<K, int>, k: K): int {
    if k in m then m[k] else 0
  }

  lemma {:induction false} SumRemove<K>(m: map<K, int>, k: K)
    requires k in m
    ensures Sum(m) == m[k] + Sum(m - {k})
    decreases |m|
  {
    var j :| j in m && Sum(m) == m[j] + Sum(m - {j});
    if j != k {
      assert |m.Keys - {j}| < |m.Keys|;
      assert (m - {j}).Keys == m.Keys - {j};
      SumRemove(m - {j}, k);
      assert |m.Keys - {k}| < |m.Keys|;
      assert (m - {k}).Keys == m.Keys - {k};
      SumRemove(m - {k}, j);
      assert m - {j} - {k} == m - {k} - {j};
    }
  }

  /** Writing one entry moves the sum by the difference. */
  lemma {:induction false} SumUpdate<K>(m: map<K, int>, k: K, v: int)
    ensures Sum(m[k := v]) == Sum(m) - At(m, k) + v
  {
    SumRemove(m[k := v], k);
    assert m[k := v] - {k} == m - {k};
    if k in m {
      SumRemove(m, k);
    } else {
      assert m - {k} == m;
    }
  }

  /** Removing one entry, present or not. */
  lemma {:induction false} SumDelete<K>(m: map<K, int>, k: K)
    ensures Sum(m - {k}) == Sum(m) - At(m, k)
  {
    if k in m {
      SumRemove(m, k);
    } else {
      assert m - {k} == m;
    }
  }

  /** A map that is the pointwise sum of two others, absent entries counting 0, has the sum of
      their sums. */
  lemma {:induction false} SumPointwise<K(!new)>(a: map<K, int>, b: map<K, int>, c: map<K, int>)
    requires forall k: K :: At(c, k) == At(a, k) + At(b, k)
    ensures Sum(c) == Sum(a) + Sum(b)
    decreases |a| + |b|
  {
    hide Sum;
    if k :| k in a || k in b {
      CardinalityDrops(a, k);
      CardinalityDrops(b, k);
      SumDelete(a, k);
      SumDelete(b, k);
      SumDelete(c, k);
      PointwiseDelete(a, b, c, k);
      SumPointwise(a - {k}, b - {k}, c - {k});
    } else {
      SumZero(a);
      SumZero(b);
      PointwiseZero(a, b, c);
      SumZero(c);
    }
  }

  lemma {:induction false} PointwiseDelete<K(!new)>(a: map<K, int>, b: map<K, int>, c: map<K, int>, k: K)
    requires forall j: K :: At(c, j) == At(a, j) + At(b, j)
    ensures forall j: K :: At(c - {k}, j) == At(a - {k}, j) + At(b - {k}, j)
    ensures At(c, k) == At(a, k) + At(b, k)
  {
    forall j: K ensures At(c - {k}, j) == At(a - {k}, j) + At(b - {k}, j) {
      assert At(c, j) == At(a, j) + At(b, j);
    }
  }

  lemma {:induction false} PointwiseZero<K(!new)>(a: map<K, int>, b: map<K, int>, c: map<K, int>)
    requires forall j: K :: At(c, j) == At(a, j) + At(b, j)
    requires forall k: K :: k !in a && k !in b
    ensures forall k | k in c :: c[k] == 0
  {
    forall k | k in c ensures c[k] == 0 {
      assert At(c, k) == At(a, k) + At(b, k);
    }
  }

  lemma {:induction false} CardinalityDrops<K>(m: map<K, int>, k: K)
    ensures |m - {k}| == if k in m then |m| - 1 else |m|
  {
    assert (m - {k}).Keys == m.Keys - {k};
    assert |m.Keys| == |m|;
    assert |(m - {k}).Keys| == |m - {k}|;
  }

  lemma {:induction false} SumZero<K>(m: map<K, int>)
    requires forall k <- m.Keys :: m[k] == 0
    ensures Sum(m) == 0
    decreases |m|
  {
    if m != map[] {
      var k :| k in m;
      SumRemove(m, k);
      CardinalityDrops(m, k);
      SumZero(m - {k});
    }
  }

  /** A sum of non-negative values is at least any one of them. */
  lemma {:induction false} SumAtLeast<K>(m: map<K, int>, k: K)
    requires forall j <- m.Keys :: m[j] >= 0
    ensures Sum(m) >= At(m, k)
    ensures Sum(m) >= 0
    decreases |m|
  {
    if m != map[] {
      var j :| j in m && (k in m ==> j == k);
      SumRemove(m, j);
      CardinalityDrops(m, j);
      SumAtLeast(m - {j}, k);
    }
  }
}
