/** The workspace's LRU cache of documents and its counters. */
module DocumentCache {
  import opened Prelude
  import opened Recency

  class DocumentCache<V> {
    var entries: Entries<string, V>
    var hits: nat
    var misses: nat
    var evictions: nat
    const capacity: nat

    ghost predicate Valid()
      reads this
    {
      capacity >= 1 && DistinctKeys(entries) && |entries| <= capacity
    }

    /** Capacities below 1 are raised to 1. */
    constructor (capacity: nat)
      ensures Valid() && fresh(this)
      ensures entries == [] && this.capacity == if capacity == 0 then 1 else capacity
      ensures hits == 0 && misses == 0 && evictions == 0
    {
      entries := [];
      this.capacity := Max(capacity, 1);
      hits, misses, evictions := 0, 0, 0;
    }

    method Get(id: string) returns (r: Option<V>)
      requires Valid()
      modifies this
      ensures Valid() && entries == Touch(old(entries), id)
      ensures r == Find(old(entries), id)
      ensures hits + misses == old(hits + misses) + 1 && hits == old(hits) + (if r.Some? then 1 else 0)
      ensures evictions == old(evictions)
    {
      hide Drop, Find, KeysOf;
      TouchSpec(entries, id);
      r := Find(entries, id);
      if r.Some? {
        entries := Drop(entries, id) + [(id, r.value)];
        hits := hits + 1;
      } else {
        misses := misses + 1;
      }
    }

    /** The value returned is the one replaced under the same id, not the one evicted. */
    method Put(id: string, v: V) returns (replaced: Option<V>)
      requires Valid()
      modifies this
      ensures Valid() && entries == PutIn(old(entries), id, v, capacity)
      ensures replaced == Find(old(entries), id)
      ensures hits == old(hits) && misses == old(misses)
      ensures evictions == old(evictions) + (if replaced.Some? || |old(entries)| == capacity then 1 else 0)
    {
      hide Drop, Find, KeysOf;
      PutSpec(entries, id, v, capacity);
      var wasFull := |entries| >= capacity;
      replaced := Find(entries, id);
      entries := Drop(entries, id) + [(id, v)];
      if |entries| > capacity {
        entries := entries[1..];
      }
      if replaced.Some? || wasFull {
        evictions := evictions + 1;
      }
    }

    method Remove(id: string) returns (removed: Option<V>)
      requires Valid()
      modifies this`entries
      ensures Valid() && entries == Drop(old(entries), id)
      ensures removed == Find(old(entries), id)
    {
      DropLength(entries, id);
      removed := Find(entries, id);
      entries := Drop(entries, id);
    }

    method Clear()
      requires Valid()
      modifies this`entries
      ensures Valid() && entries == []
    {
      entries := [];
    }
  }

  lemma DropLength<V>(es: Entries<string, V>, id: string)
    requires DistinctKeys(es)
    ensures DistinctKeys(Drop(es, id)) && |Drop(es, id)| <= |es|
  {
    hide Drop, KeysOf;
    DropKeys(es, id);
    WithoutMembers(KeysOf(es), id);
    WithoutLength(KeysOf(es), id);
  }

  /**
   * The eviction counter counts a store exactly when it should, that is when another entry is lost, unless the
   * store replaces an entry of its own id.
   */
  lemma EvictionCountExact<V>(es: Entries<string, V>, id: string, v: V, capacity: nat)
    requires capacity >= 1 && DistinctKeys(es) && |es| <= capacity
    ensures var counted := Find(es, id).Some? || |es| == capacity;
            var lost := exists k :: k in KeysOf(es) && k !in KeysOf(PutIn(es, id, v, capacity));
      (counted <==> lost) <==> Find(es, id).None?
  {
    hide Drop, Find, KeysOf, PutIn;
    PutSpec(es, id, v, capacity);
    var ks := Without(KeysOf(es), id) + [id];
    WithoutMembers(KeysOf(es), id);
    WithoutLength(KeysOf(es), id);
    if Find(es, id).Some? {
      assert |ks| == |es|;
      forall k | k in KeysOf(es) ensures k in ks {
      }
    } else if |es| == capacity {
      var first := KeysOf(es)[0];
      assert ks[0] == first && first !in ks[1..] by {
        assert Distinct(ks) by {
          DistinctConcat(KeysOf(es), [id]);
        }
      }
      assert first in KeysOf(es);
    } else {
      forall k | k in KeysOf(es) ensures k in ks {
      }
    }
  }

  /** The value of the entry a store loses to the capacity, if it loses one. */
  function Evicted<V>(es: Entries<string, V>, id: string, capacity: nat): Option<V> {
    if Find(es, id).None? && |es| == capacity && es != [] then Some(es[0].1) else None
  }

  /** That entry is the one gone afterwards; nothing else goes. */
  lemma EvictedIsLost<V>(es: Entries<string, V>, id: string, v: V, capacity: nat, k: string)
    requires capacity >= 1 && DistinctKeys(es) && |es| <= capacity
    ensures k in KeysOf(es) && k !in KeysOf(PutIn(es, id, v, capacity)) <==>
            Evicted(es, id, capacity).Some? && k == KeysOf(es)[0]
  {
    hide Drop, PutIn, Find, KeysOf, Without;
    PutSpec(es, id, v, capacity);
    var ks := Without(KeysOf(es), id) + [id];
    WithoutMembers(KeysOf(es), id);
    WithoutLength(KeysOf(es), id);
    if Evicted(es, id, capacity).Some? {
      DistinctConcat(KeysOf(es), [id]);
      assert ks == [ks[0]] + ks[1..];
    }
  }

  lemma EvictedIsFirst<V>(es: Entries<string, V>, id: string, capacity: nat)
    requires Evicted(es, id, capacity).Some?
    ensures Find(es, KeysOf(es)[0]) == Evicted(es, id, capacity)
  {
  }

  /** `put` returns the evicted entry, as announced, exactly if the id is new and the cache is not full. */
  lemma PutReturnsEvictedIff<V>(es: Entries<string, V>, id: string, capacity: nat)
    requires capacity >= 1 && DistinctKeys(es) && |es| <= capacity
    ensures Find(es, id) == Evicted(es, id, capacity) <==> Find(es, id).None? && |es| < capacity
  {
  }

  /**
   * A cache of one, holding an entry. Storing a second id loses that entry and returns nothing; storing the same id
   * again counts as an eviction and loses nothing.
   */
  lemma FullCacheMisreports<V>(u: V, v: V)
    ensures var one := PutIn<string, V>([], "a", u, 1);
      && Find(one, "b").None? && Evicted(one, "b", 1) == Some(u)
      && Find(one, "a").Some? && KeysOf(PutIn(one, "a", v, 1)) == KeysOf(one)
  {
    var one: Entries<string, V> := [("a", u)];
    assert PutIn<string, V>([], "a", u, 1) == one;
    assert one[1..] == [] && Drop(one, "a") == [] + [];
    assert PutIn(one, "a", v, 1) == [("a", v)];
  }
}
