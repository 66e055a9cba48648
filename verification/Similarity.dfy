/** Jaccard similarity of two sets, as the evidence deduplication and the route cache both compute it. */
module Similarity {
  import opened Prelude

  function Jaccard<T(==)>(a: set<T>, b: set<T>): real {
    if a == {} && b == {} then 1.0
    else if a == {} || b == {} then 0.0
    else
      SubsetSize(a, a + b);
      |a * b| as real / |a + b| as real
  }

  /** A similarity: the shared members' part of all members, within [0, 1], symmetric, and 1 exactly for equal sets. */
  lemma JaccardIsSimilarity<T>(a: set<T>, b: set<T>)
    ensures 0.0 <= Jaccard(a, b) <= 1.0
    ensures Jaccard(a, b) == Jaccard(b, a)
    ensures Jaccard(a, b) == 1.0 <==> a == b
    ensures Jaccard(a, b) > 0.0 <==> a * b != {} || a == b == {}
    ensures a + b != {} ==> Jaccard(a, b) * |a + b| as real == |a * b| as real
  {
    assert a * b == b * a && a + b == b + a;
    assert a == {} || b == {} ==> a * b == {};
    if a != {} && b != {} {
      SubsetSize(a * b, a);
      SubsetSize(a, a + b);
      SubsetSize(b, a + b);
      SubsetSize(a * b, a + b);
      var n, d := |a * b| as real, |a + b| as real;
      assert 0.0 <= n <= d && d > 0.0;
      QuotientBounds(n, d);
      if |a * b| == |a + b| {
        assert a * b == a + b;
      }
      if a == b {
        assert a * b == a && a + b == a;
      }
    }
  }

  lemma QuotientBounds(n: real, d: real)
    requires 0.0 <= n <= d && d > 0.0
    ensures 0.0 <= n / d <= 1.0
    ensures n / d == 1.0 <==> n == d
    ensures n / d > 0.0 <==> n > 0.0
  {
    assert n == (n / d) * d;
  }
}
