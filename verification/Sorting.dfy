/**
 * Stable sorting by a real-valued key. A stable sort is determined by its input, so this function stands for
 * the library sorts the components call; `Descending` ones pass a negated key.
 */
module Sorting {
  import opened Prelude

  ghost predicate SortedBy<T>(key: T -> real, s: seq<T>) {
    forall i, j :: 0 <= i < j < |s| ==> key(s[i]) <= key(s[j])
  }

  /** Put `x` in front of the first element that is not smaller. */
  function Insert<T>(key: T -> real, x: T, s: seq<T>): seq<T> {
    if s == [] then [x]
    else if key(x) <= key(s[0]) then [x] + s
    else [s[0]] + Insert(key, x, s[1..])
  }

  function Sort<T>(key: T -> real, s: seq<T>): seq<T> {
    if s == [] then [] else Insert(key, s[0], Sort(key, s[1..]))
  }

  lemma {:induction false} InsertPermutes<T>(key: T -> real, x: T, s: seq<T>)
    ensures multiset(Insert(key, x, s)) == multiset(s) + multiset{x}
  {
    if s != [] {
      InsertPermutes(key, x, s[1..]);
      assert s == [s[0]] + s[1..];
    }
  }

  lemma {:induction false} InsertSorted<T>(key: T -> real, x: T, s: seq<T>)
    requires SortedBy(key, s)
    ensures SortedBy(key, Insert(key, x, s))
  {
    if s != [] && key(x) > key(s[0]) {
      InsertSorted(key, x, s[1..]);
      InsertPermutes(key, x, s[1..]);
      var r := Insert(key, x, s[1..]);
      forall y | y in r ensures key(s[0]) <= key(y) {
        assert y in multiset(s[1..]) + multiset{x};
      }
    }
  }

  lemma {:induction false} SortSorts<T>(key: T -> real, s: seq<T>)
    ensures SortedBy(key, Sort(key, s))
    ensures multiset(Sort(key, s)) == multiset(s)
    ensures |Sort(key, s)| == |s|
  {
    if s != [] {
      SortSorts(key, s[1..]);
      InsertSorted(key, s[0], Sort(key, s[1..]));
      InsertPermutes(key, s[0], Sort(key, s[1..]));
      assert s == [s[0]] + s[1..];
    }
    SameSize(Sort(key, s), s);
  }

  lemma SameSize<T>(s: seq<T>, t: seq<T>)
    requires multiset(s) == multiset(t)
    ensures |s| == |t|
  {
    assert |multiset(s)| == |s| && |multiset(t)| == |t|;
  }

  /** A permutation has the same members, and is repetition-free if the original is. */
  lemma PermutationMembers<T>(s: seq<T>, t: seq<T>)
    requires multiset(s) == multiset(t)
    ensures forall x :: x in s <==> x in t
    ensures Distinct(s) ==> Distinct(t)
  {
    forall x ensures x in s <==> x in t {
      assert x in multiset(s) <==> x in s;
    }
    if Distinct(s) {
      DistinctCounts(s);
      SingleCountsDistinct(t);
    }
  }

  lemma {:induction false} SingleCountsDistinct<T>(t: seq<T>)
    requires forall x :: x in t ==> multiset(t)[x] == 1
    ensures Distinct(t)
  {
    if t != [] {
      assert t == [t[0]] + t[1..];
      assert multiset(t) == multiset{t[0]} + multiset(t[1..]);
      assert t[0] in t;
      assert t[0] !in multiset(t[1..]);
      forall x | x in t[1..] ensures multiset(t[1..])[x] == 1 {
        assert x in t;
        assert x in multiset(t[1..]);
      }
      SingleCountsDistinct(t[1..]);
    }
  }

  lemma {:induction false} DistinctCounts<T>(s: seq<T>)
    requires Distinct(s)
    ensures forall x :: x in s ==> multiset(s)[x] == 1
  {
    if s != [] {
      DistinctCounts(s[1..]);
      assert s == [s[0]] + s[1..];
      assert s[0] !in s[1..];
    }
  }

  /** Repetition-free lists with the same members are permutations of each other. */
  lemma SameMembersSameMultiset<T>(s: seq<T>, t: seq<T>)
    requires Distinct(s) && Distinct(t)
    requires forall x :: x in s <==> x in t
    ensures multiset(s) == multiset(t)
  {
    DistinctCounts(s);
    DistinctCounts(t);
    forall x ensures multiset(s)[x] == multiset(t)[x] {
      assert x in s <==> x in multiset(s);
      assert x in t <==> x in multiset(t);
    }
  }

  /** Sort and keep the first `k`. */
  function Top<T>(key: T -> real, s: seq<T>, k: nat): seq<T> {
    var r := Sort(key, s);
    if |r| <= k then r else r[..k]
  }

  /** The kept elements are in order, and none of those cut off sorts before any of them. */
  lemma TopIsTop<T>(key: T -> real, s: seq<T>, k: nat) returns (cut: seq<T>)
    ensures |Top(key, s, k)| == Min(k, |s|)
    ensures SortedBy(key, Top(key, s, k))
    ensures multiset(Top(key, s, k)) + multiset(cut) == multiset(s)
    ensures forall x, y :: x in Top(key, s, k) && y in cut ==> key(x) <= key(y)
  {
    hide Sort;
    SortSorts(key, s);
    var r := Sort(key, s);
    if |r| <= k {
      cut := [];
    } else {
      cut := r[k..];
      assert r == r[..k] + r[k..];
    }
  }
}
