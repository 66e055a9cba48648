/** Small vocabulary shared by every component. */
module Prelude {

  datatype Option<+T> = None | Some(value: T)

  datatype Result<+T, +E> = Ok(value: T) | Err(error: E)

  type Byte = b: int | 0 <= b < 256

  /** No value occurs at two positions. */
  ghost predicate Distinct<T>(s: seq<T>) {
    forall i, j :: 0 <= i < j < |s| ==> s[i] != s[j]
  }

  lemma DistinctConcat<T>(xs: seq<T>, ys: seq<T>)
    requires Distinct(xs) && Distinct(ys)
    requires forall x :: x in xs ==> x !in ys
    ensures Distinct(xs + ys)
    ensures forall x :: x in xs + ys <==> x in xs || x in ys
  {
    forall i, j | 0 <= i < j < |xs + ys| ensures (xs + ys)[i] != (xs + ys)[j] {
      if i < |xs| && |xs| <= j {
        assert xs[i] in xs;
        assert ys[j - |xs|] in ys;
      }
    }
  }

  function Reverse<T>(s: seq<T>): (r: seq<T>)
    ensures |r| == |s|
    ensures forall i :: 0 <= i < |s| ==> r[i] == s[|s| - 1 - i]
  {
    if s == [] then [] else Reverse(s[1..]) + [s[0]]
  }

  function Max(a: int, b: int): int {
    if a < b then b else a
  }

  function Min(a: int, b: int): int {
    if a < b then a else b
  }

  /** The value a map holds for a key, if it holds one. */
  function Lookup<K, V>(m: map<K, V>, k: K): Option<V> {
    if k in m then Some(m[k]) else None
  }

  lemma LookupUpdate<K, V>(m: map<K, V>, k: K, v: V)
    ensures forall q {:trigger Lookup(m[k := v], q)} :: Lookup(m[k := v], q) == if q == k then Some(v) else Lookup(m, q)
  {
  }

  /** Remove every occurrence of `k`. */
  function Without<K(==)>(ks: seq<K>, k: K): seq<K> {
    if ks == [] then [] else (if ks[0] == k then [] else [ks[0]]) + Without(ks[1..], k)
  }

  lemma {:induction false} WithoutMembers<K>(ks: seq<K>, k: K)
    ensures forall x :: x in Without(ks, k) <==> x in ks && x != k
    ensures Distinct(ks) ==> Distinct(Without(ks, k))
  {
    if ks != [] {
      WithoutMembers(ks[1..], k);
      assert ks == [ks[0]] + ks[1..];
      if Distinct(ks) {
        assert ks[0] !in ks[1..];
      }
    }
  }

  lemma {:induction false} WithoutLength<K>(ks: seq<K>, k: K)
    ensures k !in ks ==> Without(ks, k) == ks
    ensures Distinct(ks) && k in ks ==> |Without(ks, k)| == |ks| - 1
  {
    if ks != [] {
      WithoutLength(ks[1..], k);
      assert ks == [ks[0]] + ks[1..];
      if Distinct(ks) {
        assert ks[0] !in ks[1..];
      }
    }
  }

  lemma {:induction false} WithoutConcat<K>(xs: seq<K>, ys: seq<K>, k: K)
    ensures Without(xs + ys, k) == Without(xs, k) + Without(ys, k)
  {
    if xs == [] {
      assert xs + ys == ys;
    } else {
      assert (xs + ys)[1..] == xs[1..] + ys;
      WithoutConcat(xs[1..], ys, k);
    }
  }

  /** The numbers below `n`. */
  function Below(n: nat): (r: set<nat>)
    ensures forall m: nat :: m in r <==> m < n
    ensures |r| == n
  {
    if n == 0 then {} else Below(n - 1) + {n - 1}
  }

  lemma {:induction false} DistinctCardinality<T>(s: seq<T>, x: set<T>)
    requires Distinct(s) && forall k :: k in s <==> k in x
    ensures |s| == |x|
    decreases |s|
  {
    if s == [] {
      assert x == {};
    } else {
      var front, last := s[..|s| - 1], s[|s| - 1];
      assert s == front + [last];
      assert last !in front;
      DistinctCardinality(front, x - {last});
    }
  }

  lemma SubsetSize<T>(a: set<T>, b: set<T>)
    requires a <= b
    ensures |a| <= |b|
    ensures |a| == |b| ==> a == b
  {
    assert b == a + (b - a);
    assert |b| == |a| + |b - a|;
  }
}
