/** The bounded response cache: what any trace of lookups and stores leaves in it. */
module ResponseCache {
  import opened Prelude
  import opened Recency

  class LruCache {
    var entries: Entries<string, string>
    var maxSize: nat

    ghost predicate Valid()
      reads this
    {
      DistinctKeys(entries) && |entries| <= maxSize
    }

    constructor (maxSize: nat)
      ensures Valid() && entries == [] && this.maxSize == maxSize
    {
      entries := [];
      this.maxSize := maxSize;
    }

    /** A hit makes its key the most recent; a miss changes nothing. */
    method Get(key: string) returns (r: Option<string>)
      requires Valid()
      modifies this`entries
      ensures Valid() && entries == Step(old(entries), Lookup(key), maxSize)
      ensures r == Find(old(entries), key)
    {
      hide Drop, Find, KeysOf;
      TouchSpec(entries, key);
      r := Find(entries, key);
      if r.Some? {
        entries := Drop(entries, key) + [(key, r.value)];
      }
    }

    method Put(key: string, value: string)
      requires Valid()
      modifies this`entries
      ensures Valid() && entries == Step(old(entries), Store(key, value), maxSize)
    {
      hide Drop, Find, KeysOf;
      PutSpec(entries, key, value, maxSize);
      entries := Drop(entries, key) + [(key, value)];
      if |entries| > maxSize {
        entries := entries[1..];
      }
    }

    method Clear()
      requires Valid()
      modifies this`entries
      ensures Valid() && entries == []
    {
      entries := [];
    }
  }

  // ----- Traces -----

  datatype Op = Lookup(key: string) | Store(key: string, value: string)

  type Cached = Entries<string, string>

  function Step(es: Cached, op: Op, cap: nat): Cached {
    match op
    case Lookup(k) => Touch(es, k)
    case Store(k, v) => PutIn(es, k, v, cap)
  }

  /** The contents after a trace, starting empty. */
  function Contents(trace: seq<Op>, cap: nat): Cached {
    if trace == [] then []
    else Step(Contents(trace[..|trace| - 1], cap), trace[|trace| - 1], cap)
  }

  /** The keys touched by a trace, in order: stores, and lookups that hit. */
  function Touched(trace: seq<Op>, cap: nat): seq<string> {
    if trace == [] then []
    else
      var before, op := trace[..|trace| - 1], trace[|trace| - 1];
      var hit := op.Store? || op.key in KeysOf(Contents(before, cap));
      Touched(before, cap) + (if hit then [op.key] else [])
  }

  /** The distinct keys of a list, ordered by their last occurrence. */
  function ByLastUse(ks: seq<string>): seq<string> {
    if ks == [] then [] else Without(ByLastUse(ks[..|ks| - 1]), ks[|ks| - 1]) + [ks[|ks| - 1]]
  }

  /** The last `n` elements. */
  function Last<T>(s: seq<T>, n: nat): seq<T> {
    if |s| <= n then s else s[|s| - n..]
  }

  /** The value last stored under a key. */
  function LastStored(trace: seq<Op>, k: string): Option<string> {
    if trace == [] then None
    else
      var op := trace[|trace| - 1];
      if op.Store? && op.key == k then Some(op.value) else LastStored(trace[..|trace| - 1], k)
  }

  lemma {:induction false} ByLastUseIs(ks: seq<string>)
    ensures Distinct(ByLastUse(ks))
    ensures forall k :: k in ByLastUse(ks) <==> k in ks
  {
    if ks != [] {
      var front, last := ks[..|ks| - 1], ks[|ks| - 1];
      ByLastUseIs(front);
      WithoutMembers(ByLastUse(front), last);
      DistinctConcat(Without(ByLastUse(front), last), [last]);
      assert ks == front + [last];
    }
  }

  lemma LastParts(r: seq<string>, n: nat) returns (cut: seq<string>)
    ensures r == cut + Last(r, n) && |Last(r, n)| <= n
    ensures cut == [] || |Last(r, n)| == n
  {
    cut := r[..|r| - |Last(r, n)|];
  }

  lemma LastOfConcat(x: seq<string>, y: seq<string>, n: nat)
    requires |y| == n || (|y| <= n && x == [])
    ensures Last(x + y, n) == y
  {
  }

  /** Touching a key commutes with keeping only the most recent ones, if the key is among them. */
  lemma LastTouchHit(r: seq<string>, k: string, n: nat)
    requires Distinct(r) && k in Last(r, n)
    ensures Last(Without(r, k) + [k], n) == Without(Last(r, n), k) + [k]
  {
    hide Without, Last;
    var kept := Last(r, n);
    var cut := LastParts(r, n);
    var j :| 0 <= j < |kept| && kept[j] == k;
    assert r[|cut| + j] == k;
    forall i | 0 <= i < |cut| ensures cut[i] != k {
      assert r[i] == cut[i];
    }
    WithoutConcat(cut, kept, k);
    WithoutLength(cut, k);
    DistinctSuffix(cut, kept);
    WithoutLength(kept, k);
    Associate(cut, Without(kept, k), k);
    LastOfConcat(cut, Without(kept, k) + [k], n);
  }

  lemma DistinctSuffix(x: seq<string>, y: seq<string>)
    requires Distinct(x + y)
    ensures Distinct(y)
  {
    forall i, j | 0 <= i < j < |y| ensures y[i] != y[j] {
      assert (x + y)[|x| + i] != (x + y)[|x| + j];
    }
  }

  lemma Associate(x: seq<string>, y: seq<string>, k: string)
    ensures x + y + [k] == x + (y + [k])
  {
  }

  /** Otherwise it pushes the oldest of them out, if there is no room. */
  lemma LastTouchMiss(r: seq<string>, k: string, n: nat)
    requires Distinct(r) && k !in Last(r, n)
    ensures var kept := Last(r, n) + [k];
      Last(Without(r, k) + [k], n) == (if |kept| > n then kept[1..] else kept)
  {
    hide Without, Last, Distinct;
    var kept := Last(r, n);
    var cut := LastParts(r, n);
    WithoutConcat(cut, kept, k);
    WithoutLength(kept, k);
    WithoutLength(cut, k);
    var front, all := Without(cut, k), kept + [k];
    Associate(front, kept, k);
    if |all| > n {
      assert all == [all[0]] + all[1..];
      assert front + all == (front + [all[0]]) + all[1..];
      LastOfConcat(front + [all[0]], all[1..], n);
    } else {
      LastOfConcat(front, all, n);
    }
  }

  /**
   * After any trace the cache holds exactly the `cap` most recently touched distinct keys, in order of use, each
   * with the value last stored under it.
   */
  lemma {:induction false} HoldsMostRecent(trace: seq<Op>, cap: nat)
    ensures DistinctKeys(Contents(trace, cap)) && |Contents(trace, cap)| <= cap
    ensures KeysOf(Contents(trace, cap)) == Last(ByLastUse(Touched(trace, cap)), cap)
    ensures forall k :: k in KeysOf(Contents(trace, cap)) ==> Find(Contents(trace, cap), k) == LastStored(trace, k)
  {
    hide KeysOf, Find, Drop, Without, Last, Touch, PutIn;
    if trace == [] {
      EmptyCache(cap);
    } else {
      var before, op := trace[..|trace| - 1], trace[|trace| - 1];
      HoldsMostRecent(before, cap);
      ByLastUseIs(Touched(before, cap));
      OneMore(Contents(before, cap), ByLastUse(Touched(before, cap)), op, cap);
      var hit := op.Store? || op.key in KeysOf(Contents(before, cap));
      if hit {
        assert (Touched(before, cap) + [op.key])[..|Touched(before, cap)|] == Touched(before, cap);
      } else {
        assert Touched(trace, cap) == Touched(before, cap);
      }
    }
  }

  lemma EmptyCache(cap: nat)
    ensures KeysOf<string, string>([]) == [] && Last<string>([], cap) == [] && DistinctKeys<string, string>([])
  {
  }

  lemma OneMore(es: Cached, recent: seq<string>, op: Op, cap: nat)
    requires DistinctKeys(es) && |es| <= cap && Distinct(recent) && KeysOf(es) == Last(recent, cap)
    ensures DistinctKeys(Step(es, op, cap)) && |Step(es, op, cap)| <= cap
    ensures op.Store? || op.key in KeysOf(es) ==>
              KeysOf(Step(es, op, cap)) == Last(Without(recent, op.key) + [op.key], cap)
    ensures op.Lookup? && op.key !in KeysOf(es) ==> KeysOf(Step(es, op, cap)) == KeysOf(es)
    ensures forall k :: k in KeysOf(Step(es, op, cap)) ==>
              Find(Step(es, op, cap), k) == (if op.Store? && op.key == k then Some(op.value) else Find(es, k))
    ensures forall k :: k in KeysOf(Step(es, op, cap)) ==> k in KeysOf(es) || (op.Store? && op.key == k)
  {
    hide KeysOf, Find, Drop, Without, Touch, PutIn;
    if op.key in KeysOf(es) {
      LastTouchHit(recent, op.key, cap);
    } else {
      LastTouchMiss(recent, op.key, cap);
    }
    WithoutMembers(KeysOf(es), op.key);
    WithoutLength(KeysOf(es), op.key);
    if op.key in KeysOf(es) {
      assert |Without(KeysOf(es), op.key) + [op.key]| == |es|;
    }
    match op
    case Lookup(k) => TouchSpec(es, k);
    case Store(k, v) => PutSpec(es, k, v, cap);
  }

  // ----- Two sizes -----

  /** `x` is obtained from `y` by leaving elements out. */
  predicate IsSubsequence(x: seq<string>, y: seq<string>) {
    if x == [] then true
    else if y == [] then false
    else if x[0] == y[0] then IsSubsequence(x[1..], y[1..])
    else IsSubsequence(x, y[1..])
  }

  lemma {:induction false} SubsequenceMembers(x: seq<string>, y: seq<string>)
    requires IsSubsequence(x, y)
    ensures forall k :: k in x ==> k in y
    ensures |x| <= |y|
  {
    if x != [] && y != [] {
      assert y == [y[0]] + y[1..];
      if x[0] == y[0] {
        assert x == [x[0]] + x[1..];
        SubsequenceMembers(x[1..], y[1..]);
      } else {
        SubsequenceMembers(x, y[1..]);
      }
    }
  }

  lemma {:induction false} SubsequenceAppend(x: seq<string>, y: seq<string>, k: string)
    requires IsSubsequence(x, y)
    ensures IsSubsequence(x + [k], y + [k])
  {
    if y == [] {
      assert x == [] && [] + [k] == [k];
      assert [k][1..] == [];
    } else {
      assert (y + [k])[1..] == y[1..] + [k];
      if x != [] && x[0] == y[0] {
        assert (x + [k])[1..] == x[1..] + [k];
        SubsequenceAppend(x[1..], y[1..], k);
      } else if x != [] {
        SubsequenceAppend(x, y[1..], k);
      } else {
        SubsequenceAppend(x, y[1..], k);
        assert [] + [k] == [k];
        if k == y[0] {
          assert [k][1..] == [];
        }
      }
    }
  }

  /** Leaving a key out of both, or out of the shorter one alone, keeps the relation. */
  lemma {:induction false} SubsequenceWithout(x: seq<string>, y: seq<string>, k: string)
    requires IsSubsequence(x, y)
    ensures IsSubsequence(Without(x, k), Without(y, k))
    decreases |y|
  {
    if x != [] && y != [] {
      if x[0] == y[0] {
        SubsequenceWithout(x[1..], y[1..], k);
        if x[0] != k {
          assert ([x[0]] + Without(x[1..], k))[1..] == Without(x[1..], k);
          assert ([y[0]] + Without(y[1..], k))[1..] == Without(y[1..], k);
        } else {
          assert [] + Without(x[1..], k) == Without(x[1..], k);
          assert [] + Without(y[1..], k) == Without(y[1..], k);
        }
      } else {
        SubsequenceWithout(x, y[1..], k);
        if y[0] != k {
          SubsequenceSkip(Without(x, k), Without(y[1..], k), y[0]);
        } else {
          assert [] + Without(y[1..], k) == Without(y[1..], k);
        }
      }
    }
  }

  /** A longer second list only helps. */
  lemma {:induction false} SubsequenceSkip(x: seq<string>, y: seq<string>, k: string)
    requires IsSubsequence(x, y)
    ensures IsSubsequence(x, [k] + y)
    decreases |y|, 1
  {
    assert ([k] + y)[1..] == y;
    if x != [] && x[0] == k {
      SubsequenceTail(x, y);
    }
  }

  lemma {:induction false} SubsequenceTail(x: seq<string>, y: seq<string>)
    requires IsSubsequence(x, y) && x != []
    ensures IsSubsequence(x[1..], y)
    decreases |y|, 0
  {
    if x[0] == y[0] {
      SubsequenceSkip(x[1..], y[1..], y[0]);
      assert [y[0]] + y[1..] == y;
    } else {
      SubsequenceTail(x, y[1..]);
      SubsequenceSkip(x[1..], y[1..], y[0]);
      assert [y[0]] + y[1..] == y;
    }
  }

  /** The relation between the keys of a small and a large cache fed the same trace. */
  ghost predicate Nested(small: seq<string>, large: seq<string>, n: nat) {
    IsSubsequence(small, large) && (|small| < n ==> small == large)
  }

  lemma {:induction false} SmallerIsNested(trace: seq<Op>, n: nat, m: nat)
    requires n <= m
    ensures Nested(KeysOf(Contents(trace, n)), KeysOf(Contents(trace, m)), n)
  {
    hide KeysOf, Find, Drop, Without, Touch, PutIn, Nested;
    if trace == [] {
      EmptyNested(n, m);
    } else {
      var before, op := trace[..|trace| - 1], trace[|trace| - 1];
      SmallerIsNested(before, n, m);
      HoldsMostRecent(before, n);
      HoldsMostRecent(before, m);
      var s, l := Contents(before, n), Contents(before, m);
      match op {
        case Lookup(k) =>
          TouchSpec(s, k);
          TouchSpec(l, k);
          NestedLookup(KeysOf(s), KeysOf(l), k, n);
        case Store(k, v) =>
          PutSpec(s, k, v, n);
          PutSpec(l, k, v, m);
          NestedStore(KeysOf(s), KeysOf(l), k, n, m);
      }
    }
  }

  lemma EmptyNested(n: nat, m: nat)
    ensures Nested(KeysOf<string, string>([]), KeysOf<string, string>([]), n)
    ensures Contents([], n) == [] && Contents([], m) == []
  {
  }

  lemma NestedLookup(s: seq<string>, l: seq<string>, k: string, n: nat)
    requires Nested(s, l, n) && Distinct(s) && Distinct(l)
    ensures Nested(if k in s then Without(s, k) + [k] else s, if k in l then Without(l, k) + [k] else l, n)
  {
    hide Without, IsSubsequence;
    SubsequenceMembers(s, l);
    WithoutMembers(s, k);
    WithoutMembers(l, k);
    WithoutLength(s, k);
    WithoutLength(l, k);
    SubsequenceWithout(s, l, k);
    SubsequenceAppend(Without(s, k), Without(l, k), k);
    if k !in s && k in l {
      SubsequenceGrow(Without(s, k), Without(l, k), k);
    }
  }

  lemma {:induction false} SubsequenceGrow(x: seq<string>, y: seq<string>, k: string)
    requires IsSubsequence(x, y)
    ensures IsSubsequence(x, y + [k])
    decreases |y|
  {
    if x != [] && y != [] {
      assert (y + [k])[1..] == y[1..] + [k];
      if x[0] == y[0] {
        SubsequenceGrow(x[1..], y[1..], k);
      } else {
        SubsequenceGrow(x, y[1..], k);
      }
    }
  }

  lemma NestedStore(s: seq<string>, l: seq<string>, k: string, n: nat, m: nat)
    requires Nested(s, l, n) && Distinct(s) && Distinct(l) && |s| <= n <= m && |l| <= m
    ensures var s', l' := Without(s, k) + [k], Without(l, k) + [k];
      Nested(if |s'| > n then s'[1..] else s', if |l'| > m then l'[1..] else l', n)
  {
    hide Without, IsSubsequence;
    SubsequenceMembers(s, l);
    WithoutMembers(s, k);
    WithoutMembers(l, k);
    WithoutLength(s, k);
    WithoutLength(l, k);
    SubsequenceWithout(s, l, k);
    var s', l' := Without(s, k) + [k], Without(l, k) + [k];
    SubsequenceAppend(Without(s, k), Without(l, k), k);
    SubsequenceMembers(s', l');
    if |s'| > n {
      SubsequenceTail(s', l');
      if |l'| > m {
        DistinctConcat(Without(l, k), [k]);
        DistinctConcat(Without(s, k), [k]);
        FirstOfBoth(s', l');
      }
    }
  }

  /** When both evict, the smaller cache's survivors are still in the larger one. */
  lemma FirstOfBoth(x: seq<string>, y: seq<string>)
    requires IsSubsequence(x, y) && x != [] && Distinct(x) && Distinct(y)
    ensures y != [] && IsSubsequence(x[1..], y[1..])
  {
    if x[0] != y[0] {
      SubsequenceTail(x, y[1..]);
    }
  }

  /** On every trace a smaller cache's keys are among a larger cache's, with the same values. */
  lemma InclusionProperty(trace: seq<Op>, n: nat, m: nat, k: string)
    requires n <= m && k in KeysOf(Contents(trace, n))
    ensures k in KeysOf(Contents(trace, m))
    ensures Find(Contents(trace, n), k) == Find(Contents(trace, m), k)
  {
    hide KeysOf, Find, Contents, IsSubsequence, Touched, ByLastUse, LastStored;
    SmallerIsNested(trace, n, m);
    SubsequenceMembers(KeysOf(Contents(trace, n)), KeysOf(Contents(trace, m)));
    HoldsMostRecent(trace, n);
    HoldsMostRecent(trace, m);
  }
}
