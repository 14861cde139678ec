/** Sums of charges over a map, independent of the order in which its keys are visited. */
module Totals {
  import Sorting

  ghost function Pick<K>(s: set<K>): (k: K)
    requires s != {}
    ensures k in s
  {
    var k :| k in s; k
  }

  ghost function Total<K>(m: map<K, nat>): nat
    decreases |m|
  {
    if m.Keys == {} then 0 else
      var k := Pick(m.Keys);
      m[k] + Total(m - {k})
  }

  lemma {:induction false} TotalWithout<K>(m: map<K, nat>, k: K)
    requires k in m
    ensures Total(m) == m[k] + Total(m - {k})
    decreases |m|
  {
    var p := Pick(m.Keys);
    if p != k {
      TotalWithout(m - {p}, k);
      TotalWithout(m - {k}, p);
      assert (m - {p}) - {k} == (m - {k}) - {p};
    }
  }

  lemma TotalWith<K>(m: map<K, nat>, k: K, v: nat)
    requires k !in m
    ensures Total(m[k := v]) == Total(m) + v
  {
    TotalWithout(m[k := v], k);
    assert m[k := v] - {k} == m;
  }

  lemma TotalReplaced<K>(m: map<K, nat>, k: K, v: nat)
    requires k in m
    ensures Total(m[k := v]) == Total(m) - m[k] + v
  {
    TotalWithout(m, k);
    TotalWithout(m[k := v], k);
    assert m[k := v] - {k} == m - {k};
  }

  ghost predicate SubMap<K, V>(m: map<K, V>, n: map<K, V>)
  {
    m.Keys <= n.Keys && forall k :: k in m ==> m[k] == n[k]
  }

  lemma {:induction false} TotalMonotone<K>(m: map<K, nat>, n: map<K, nat>)
    requires SubMap(m, n)
    ensures Total(m) <= Total(n)
    decreases |m|
  {
    if m.Keys != {} {
      var k := Pick(m.Keys);
      TotalWithout(n, k);
      TotalMonotone(m - {k}, n - {k});
    }
  }

  lemma OneMore(n: int, c: int)
    ensures (n + 1) * c == n * c + c
  {
  }

  lemma {:induction false} TotalBounded<K>(m: map<K, nat>, c: nat)
    requires forall k :: k in m ==> m[k] <= c
    ensures Total(m) <= |m| * c
    decreases |m|
  {
    if m.Keys != {} {
      var k := Pick(m.Keys);
      Sorting.MapLess(m, k);
      TotalBounded(m - {k}, c);
      OneMore(|m - {k}|, c);
    }
  }

  lemma SubMapSize<K, V>(m: map<K, V>, n: map<K, V>)
    requires SubMap(m, n)
    ensures |m| <= |n|
  {
    assert n.Keys == m.Keys + (n.Keys - m.Keys);
    assert |m| == |m.Keys| && |n| == |n.Keys|;
  }

  /** A map on the first n indices has n entries. */
  lemma {:induction false} IndexCount<V>(m: map<int, V>, n: nat)
    requires forall k :: k in m <==> 0 <= k < n
    ensures |m| == n
  {
    if n > 0 {
      Sorting.MapLess(m, n - 1);
      IndexCount(m - {n - 1}, n - 1);
    } else {
      Sorting.MapSize(m);
      if m.Keys != {} {
        var _ := Pick(m.Keys);
      }
    }
  }
}
