/** Go's `sort.Slice`: some ordered permutation of the input, for any strict weak order. */
module Sorting {

  ghost predicate StrictWeakOrder<T(!new)>(less: (T, T) -> bool)
  {
    && (forall x, y :: less(x, y) ==> !less(y, x))
    && (forall x, y, z :: !less(x, y) && !less(y, z) ==> !less(x, z))
  }

  ghost predicate Ordered<T(!new)>(s: seq<T>, less: (T, T) -> bool)
  {
    forall i, j :: 0 <= i < j < |s| ==> !less(s[j], s[i])
  }

  function Insert<T>(x: T, s: seq<T>, less: (T, T) -> bool): seq<T>
  {
    if s == [] || less(x, s[0]) then [x] + s else [s[0]] + Insert(x, s[1..], less)
  }

  function Sort<T>(s: seq<T>, less: (T, T) -> bool): seq<T>
  {
    if s == [] then [] else Insert(s[0], Sort(s[1..], less), less)
  }

  lemma {:induction false} InsertOrdered<T(!new)>(x: T, s: seq<T>, less: (T, T) -> bool)
    requires StrictWeakOrder(less) && Ordered(s, less)
    ensures Ordered(Insert(x, s, less), less)
    ensures multiset(Insert(x, s, less)) == multiset(s) + multiset{x}
  {
    var r := Insert(x, s, less);
    if s == [] || less(x, s[0]) {
      assert r == [x] + s;
      forall j | 0 < j < |r| ensures !less(r[j], r[0]) {
        assert !less(r[j], s[0]);
        assert !less(s[0], x);
      }
    } else {
      assert s == [s[0]] + s[1..];
      InsertOrdered(x, s[1..], less);
      var rest := Insert(x, s[1..], less);
      forall j | 0 < j < |r| ensures !less(r[j], r[0]) {
        assert r[j] == rest[j - 1] && rest[j - 1] in multiset(rest);
        assert rest[j - 1] == x || rest[j - 1] in s[1..];
      }
    }
  }

  lemma {:induction false} SortCorrect<T(!new)>(s: seq<T>, less: (T, T) -> bool)
    requires StrictWeakOrder(less)
    ensures Ordered(Sort(s, less), less)
    ensures multiset(Sort(s, less)) == multiset(s)
  {
    if s != [] {
      SortCorrect(s[1..], less);
      InsertOrdered(s[0], Sort(s[1..], less), less);
      assert s == [s[0]] + s[1..];
    }
  }

  /** Callers may rely only on order and contents: equal keys come out in no particular order. */
  method SortSlice<T(!new)>(s: seq<T>, less: (T, T) -> bool) returns (r: seq<T>)
    requires StrictWeakOrder(less)
    ensures Ordered(r, less) && multiset(r) == multiset(s) && |r| == |s|
  {
    SortCorrect(s, less);
    r := Sort(s, less);
    assert |r| == |multiset(r)| == |multiset(s)| == |s|;
  }

  lemma SameElements<T>(s: seq<T>, r: seq<T>)
    requires multiset(s) == multiset(r)
    ensures |s| == |r| && forall x :: x in s <==> x in r
  {
    assert |multiset(s)| == |s| && |multiset(r)| == |r|;
    forall x ensures x in s <==> x in r {
      assert x in s <==> x in multiset(s);
      assert x in r <==> x in multiset(r);
    }
  }

  ghost predicate NoDuplicates<T(!new)>(s: seq<T>)
  {
    forall i, j :: 0 <= i < j < |s| ==> s[i] != s[j]
  }

  function Elements<T>(s: seq<T>): set<T>
  {
    set x | x in s
  }

  lemma {:induction false} DistinctSize<T(!new)>(s: seq<T>)
    requires NoDuplicates(s)
    ensures |Elements(s)| == |s|
  {
    if s != [] {
      DistinctSize(s[1..]);
      assert s[0] !in s[1..];
      assert Elements(s) == Elements(s[1..]) + {s[0]};
    }
  }

  lemma {:induction false} MultiplicityOne<T(!new)>(s: seq<T>)
    requires forall x :: multiset(s)[x] <= 1
    ensures NoDuplicates(s)
  {
    forall i, j | 0 <= i < j < |s| ensures s[i] != s[j] {
      assert s == s[..j] + [s[j]] + s[j + 1..];
      assert multiset(s)[s[j]] == multiset(s[..j])[s[j]] + 1 + multiset(s[j + 1..])[s[j]];
      assert s[j] !in multiset(s[..j]);
      assert s[..j][i] == s[i];
    }
  }

  lemma {:induction false} DistinctMultiplicity<T(!new)>(s: seq<T>)
    requires NoDuplicates(s)
    ensures forall x :: multiset(s)[x] <= 1
  {
    if s != [] {
      DistinctMultiplicity(s[1..]);
      assert s == [s[0]] + s[1..];
      assert s[0] !in s[1..];
      assert s[0] !in multiset(s[1..]);
    }
  }

  /** Rearranging a duplicate-free list leaves it duplicate-free. */
  lemma PermutationDistinct<T(!new)>(s: seq<T>, r: seq<T>)
    requires multiset(s) == multiset(r) && NoDuplicates(s)
    ensures NoDuplicates(r)
  {
    DistinctMultiplicity(s);
    MultiplicityOne(r);
  }

  lemma SubsetSize<T>(a: set<T>, b: set<T>)
    requires a <= b
    ensures |a| <= |b|
  {
    assert b == a + (b - a);
  }

  lemma MapUpdateSize<K, V>(m: map<K, V>, k: K, v: V)
    ensures |m[k := v]| == if k in m then |m| else |m| + 1
  {
    assert m[k := v].Keys == m.Keys + {k};
  }

  lemma MapSize<K, V>(m: map<K, V>)
    ensures |m| == |m.Keys|
  {
  }

  lemma AddedSize<T>(s: set<T>, x: T)
    requires x !in s
    ensures |s + {x}| == |s| + 1
  {
  }

  lemma RemovedSize<T>(s: set<T>, x: T)
    requires x in s
    ensures |s - {x}| == |s| - 1
  {
  }

  /** Taking the same element out of two permutations leaves permutations. */
  lemma PermutationWithout<T>(s: seq<T>, r: seq<T>, j: nat)
    requires s != [] && multiset(s) == multiset(r) && j < |r| && r[j] == s[|s| - 1]
    ensures multiset(s[..|s| - 1]) == multiset(r[..j] + r[j + 1..])
  {
    var x := r[j];
    assert s == s[..|s| - 1] + [x];
    assert r == r[..j] + [x] + r[j + 1..];
    WithoutOne(s[..|s| - 1], [], x);
    WithoutOne(r[..j], r[j + 1..], x);
    assert s == s[..|s| - 1] + [x] + [] && s[..|s| - 1] + [] == s[..|s| - 1];
  }

  lemma WithoutOne<T>(front: seq<T>, back: seq<T>, x: T)
    ensures multiset(front + back) == multiset(front + [x] + back) - multiset{x}
  {
    assert multiset(front + [x] + back) == multiset(front) + multiset{x} + multiset(back);
  }

  lemma MapLess<K, V>(m: map<K, V>, k: K)
    requires k in m
    ensures |m| == |m - {k}| + 1
  {
    MapUpdateSize(m - {k}, k, m[k]);
    assert m == (m - {k})[k := m[k]];
  }
}
