/** Sums of the values of a finite map, used by every accounting invariant of the project. */
module Sums {

  ghost function Sum<K(!new)>(m: map<K, int>): int
  {
    if m == map[] then 0
    else
      var k :| k in m;
      m[k] + Sum(m - {k})
  }

  /** Any key may be taken out first. */
  lemma {:induction false} SumRemove<K(!new)>(m: map<K, int>, k: K)
    requires k in m
    ensures Sum(m) == m[k] + Sum(m - {k})
    decreases |m|
  {
    var p :| p in m && Sum(m) == m[p] + Sum(m - {p});
    if p != k {
      SumRemove(m - {p}, k);
      SumRemove(m - {k}, p);
      assert m - {p} - {k} == m - {k} - {p};
    }
  }

  lemma SumUpdate<K(!new)>(m: map<K, int>, k: K, v: int)
    ensures Sum(m[k := v]) == Sum(m) - (if k in m then m[k] else 0) + v
  {
    SumRemove(m[k := v], k);
    if k in m {
      SumRemove(m, k);
      assert m[k := v] - {k} == m - {k};
    } else {
      assert m[k := v] - {k} == m;
    }
  }

  /** Two maps over the same keys that agree everywhere but at k. */
  lemma SumDiffersAt<K(!new)>(m: map<K, int>, n: map<K, int>, k: K)
    requires m.Keys == n.Keys && k in m
    requires forall j :: j in m && j != k ==> m[j] == n[j]
    ensures Sum(n) == Sum(m) - m[k] + n[k]
  {
    assert n == m[k := n[k]];
    SumUpdate(m, k, n[k]);
  }

  lemma {:induction false} SumNonNegative<K(!new)>(m: map<K, int>)
    requires forall k :: k in m ==> m[k] >= 0
    ensures Sum(m) >= 0
    ensures forall k :: k in m ==> m[k] <= Sum(m)
    decreases |m|
  {
    forall k | k in m
      ensures 0 <= m[k] <= Sum(m)
    {
      SumRemove(m, k);
      SumNonNegative(m - {k});
    }
  }

  lemma {:induction false} SumZero<K(!new)>(m: map<K, int>)
    requires forall k :: k in m ==> m[k] == 0
    ensures Sum(m) == 0
    decreases |m|
  {
    if m != map[] {
      var k :| k in m;
      SumRemove(m, k);
      SumZero(m - {k});
    }
  }

  lemma {:induction false} SumCovered<K(!new)>(m: map<K, int>, n: map<K, int>, o: map<K, int>)
    requires m.Keys == n.Keys == o.Keys
    requires forall k :: k in m ==> m[k] <= n[k] + o[k]
    ensures Sum(m) <= Sum(n) + Sum(o)
    decreases |m|
  {
    if m != map[] {
      var k :| k in m;
      SumRemove(m, k);
      SumRemove(n, k);
      SumRemove(o, k);
      SumCovered(m - {k}, n - {k}, o - {k});
    }
  }
}
