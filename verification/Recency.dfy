/**
 * Least-recently-used order. Entries stand from the least to the most recently used; this is the order an ordered
 * dictionary keeps when a hit moves its key to the end, and the order the LRU caches evict from.
 */
module Recency {
  import opened Prelude

  type Entries<K, V> = seq<(K, V)>

  function KeysOf<K, V>(es: Entries<K, V>): (r: seq<K>)
    ensures |r| == |es| && forall i :: 0 <= i < |es| ==> r[i] == es[i].0
  {
    if es == [] then [] else [es[0].0] + KeysOf(es[1..])
  }

  function Find<K(==), V>(es: Entries<K, V>, k: K): (r: Option<V>)
    ensures r.Some? <==> k in KeysOf(es)
    ensures r.Some? ==> (k, r.value) in es
  {
    if es == [] then None else if es[0].0 == k then Some(es[0].1) else Find(es[1..], k)
  }

  /** Remove the entry of `k`. */
  function Drop<K(==), V>(es: Entries<K, V>, k: K): Entries<K, V> {
    if es == [] then [] else (if es[0].0 == k then [] else [es[0]]) + Drop(es[1..], k)
  }

  /** `move_to_end` */
  function Touch<K(==), V>(es: Entries<K, V>, k: K): Entries<K, V> {
    match Find(es, k)
    case None => es
    case Some(v) => Drop(es, k) + [(k, v)]
  }

  /** Enter or overwrite, as most recent, and drop the least recent entry if there are too many. */
  function PutIn<K(==), V>(es: Entries<K, V>, k: K, v: V, cap: nat): Entries<K, V> {
    var r := Drop(es, k) + [(k, v)];
    if |r| > cap then r[1..] else r
  }

  ghost predicate DistinctKeys<K, V>(es: Entries<K, V>) {
    Distinct(KeysOf(es))
  }

  // ----- Keys alone -----

  lemma KeysConcat<K, V>(xs: Entries<K, V>, ys: Entries<K, V>)
    ensures KeysOf(xs + ys) == KeysOf(xs) + KeysOf(ys)
  {
    hide KeysOf;
  }

  lemma {:induction false} DropKeys<K, V>(es: Entries<K, V>, k: K)
    ensures KeysOf(Drop(es, k)) == Without(KeysOf(es), k)
  {
    if es != [] {
      DropKeys(es[1..], k);
      KeysConcat(if es[0].0 == k then [] else [es[0]], Drop(es[1..], k));
    }
  }

  /** Dropping one key leaves every other key's value alone. */
  lemma {:induction false} DropFind<K, V>(es: Entries<K, V>, k: K, q: K)
    ensures Find(Drop(es, k), q) == if q == k then None else Find(es, q)
  {
    if es != [] {
      DropFind(es[1..], k, q);
      if es[0].0 != k {
        assert ([es[0]] + Drop(es[1..], k))[1..] == Drop(es[1..], k);
      } else {
        assert [] + Drop(es[1..], k) == Drop(es[1..], k);
      }
    }
  }

  lemma {:induction false} FindConcat<K, V>(xs: Entries<K, V>, ys: Entries<K, V>, q: K)
    ensures Find(xs + ys, q) == if Find(xs, q).Some? then Find(xs, q) else Find(ys, q)
  {
    if xs == [] {
      assert xs + ys == ys;
    } else {
      assert (xs + ys)[1..] == xs[1..] + ys;
      FindConcat(xs[1..], ys, q);
    }
  }

  // ----- What the operations do -----

  lemma TouchSpec<K, V>(es: Entries<K, V>, k: K)
    requires DistinctKeys(es)
    ensures DistinctKeys(Touch(es, k)) && |Touch(es, k)| == |es|
    ensures KeysOf(Touch(es, k)) == if k in KeysOf(es) then Without(KeysOf(es), k) + [k] else KeysOf(es)
    ensures forall q :: Find(Touch(es, k), q) == Find(es, q)
  {
    hide Drop, Without, KeysOf;
    WithoutMembers(KeysOf(es), k);
    WithoutLength(KeysOf(es), k);
    DropKeys(es, k);
    if k in KeysOf(es) {
      var v := Find(es, k).value;
      KeysConcat(Drop(es, k), [(k, v)]);
      assert KeysOf([(k, v)]) == [k];
      DistinctConcat(Without(KeysOf(es), k), [k]);
      forall q ensures Find(Touch(es, k), q) == Find(es, q) {
        FindConcat(Drop(es, k), [(k, v)], q);
        DropFind(es, k, q);
      }
    }
  }

  /** The new entry is found, no other entry changes its value, and at most the least recent other one is lost. */
  lemma PutSpec<K, V>(es: Entries<K, V>, k: K, v: V, cap: nat)
    requires DistinctKeys(es) && |es| <= cap
    ensures DistinctKeys(PutIn(es, k, v, cap)) && |PutIn(es, k, v, cap)| <= cap
    ensures var ks := Without(KeysOf(es), k) + [k];
      KeysOf(PutIn(es, k, v, cap)) == if |ks| > cap then ks[1..] else ks
    ensures cap > 0 ==> Find(PutIn(es, k, v, cap), k) == Some(v)
    ensures forall q :: q != k && q in KeysOf(PutIn(es, k, v, cap)) ==>
              q in KeysOf(es) && Find(PutIn(es, k, v, cap), q) == Find(es, q)
  {
    hide Drop, Without, KeysOf;
    var ks := Without(KeysOf(es), k) + [k];
    WithoutMembers(KeysOf(es), k);
    WithoutLength(KeysOf(es), k);
    DropKeys(es, k);
    KeysConcat(Drop(es, k), [(k, v)]);
    assert KeysOf([(k, v)]) == [k];
    DistinctConcat(Without(KeysOf(es), k), [k]);
    var r := Drop(es, k) + [(k, v)];
    assert KeysOf(r) == ks;
    forall q ensures Find(r, q) == if q == k then Some(v) else Find(es, q) {
      FindConcat(Drop(es, k), [(k, v)], q);
      DropFind(es, k, q);
    }
    if |r| > cap {
      TailSpec(r);
    }
  }

  /** Without its least recent entry, the cache is as before for every other key. */
  lemma TailSpec<K, V>(r: Entries<K, V>)
    requires r != [] && DistinctKeys(r)
    ensures DistinctKeys(r[1..]) && KeysOf(r[1..]) == KeysOf(r)[1..]
    ensures forall q :: Find(r[1..], q) == if q == r[0].0 then None else Find(r, q)
  {
    hide KeysOf;
    assert r == [r[0]] + r[1..];
    KeysConcat([r[0]], r[1..]);
    forall q ensures Find(r[1..], q) == if q == r[0].0 then None else Find(r, q) {
      FindConcat([r[0]], r[1..], q);
      if q == r[0].0 {
        assert q !in KeysOf(r[1..]);
      }
    }
  }
}
