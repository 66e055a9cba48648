/** Building the document graph: candidate pairs through the keyword index, thresholds, and trimming. */
module GraphBuilder {
  import opened Prelude
  import opened Sorting
  import opened DocumentGraph

  datatype Config = Config(minJaccard: real, minShared: nat, maxKeywords: nat, maxEdges: nat)

  datatype Profile = Profile(docId: DocId, title: string, format: string, nodeCount: nat, keywords: map<Keyword, real>)

  type Pair = (DocId, DocId)
  type PairMap = map<Pair, seq<SharedKeyword>>

  // ----- The order on ids -----

  predicate LexLess(a: DocId, b: DocId) {
    if b == "" then false
    else if a == "" then true
    else if a[0] != b[0] then a[0] < b[0]
    else LexLess(a[1..], b[1..])
  }

  lemma {:induction false} LexTotal(a: DocId, b: DocId)
    ensures a == b ==> !LexLess(a, b)
    ensures a != b ==> (LexLess(a, b) <==> !LexLess(b, a))
  {
    if a != "" && b != "" && a[0] == b[0] {
      assert a == [a[0]] + a[1..] && b == [b[0]] + b[1..];
      LexTotal(a[1..], b[1..]);
    }
  }

  function PairKey(a: DocId, b: DocId): Pair {
    if LexLess(a, b) then (a, b) else (b, a)
  }

  lemma PairKeyOrdered(a: DocId, b: DocId)
    requires a != b
    ensures LexLess(PairKey(a, b).0, PairKey(a, b).1)
    ensures PairKey(a, b) == PairKey(b, a)
  {
    LexTotal(a, b);
  }

  // ----- The naive definition -----

  predicate Carries(nodes: Nodes, d: DocId, kw: Keyword) {
    d in nodes && kw in Keywords(nodes[d].topKeywords)
  }

  function TopSet(nodes: Nodes, d: DocId): set<Keyword> {
    if d in nodes then Keywords(nodes[d].topKeywords) else {}
  }

  function Jaccard(x: set<Keyword>, y: set<Keyword>): real {
    if x + y == {} then 0.0 else |x * y| as real / |x + y| as real
  }

  /** All-pairs definition of an edge: enough shared keywords and a large enough Jaccard similarity. */
  predicate Qualifies(nodes: Nodes, cfg: Config, a: DocId, b: DocId) {
    && a in nodes && b in nodes && a != b
    && |TopSet(nodes, a) * TopSet(nodes, b)| >= Max(1, cfg.minShared)
    && Jaccard(TopSet(nodes, a), TopSet(nodes, b)) >= cfg.minJaccard
  }

  lemma QualifiesSymmetric(nodes: Nodes, cfg: Config, a: DocId, b: DocId)
    ensures Qualifies(nodes, cfg, a, b) <==> Qualifies(nodes, cfg, b, a)
    ensures Jaccard(TopSet(nodes, a), TopSet(nodes, b)) == Jaccard(TopSet(nodes, b), TopSet(nodes, a))
  {
    var x, y := TopSet(nodes, a), TopSet(nodes, b);
    assert x * y == y * x && x + y == y + x;
  }

  function EdgeWeight(cfg: Config, shared: nat, jaccard: real): real {
    var maxKws := Max(cfg.maxKeywords, 1) as real;
    RealMin(jaccard * 0.6 + RealMin(shared as real / maxKws, 1.0) * 0.4, 1.0)
  }

  function RealMin(x: real, y: real): real {
    if x <= y then x else y
  }

  lemma WeightInUnit(cfg: Config, shared: nat, jaccard: real)
    requires 0.0 <= jaccard <= 1.0
    ensures 0.0 <= EdgeWeight(cfg, shared, jaccard) <= 1.0
  {
    var maxKws := Max(cfg.maxKeywords, 1) as real;
    assert shared as real / maxKws >= 0.0;
  }

  /** Inclusion-exclusion: the subtraction that computes the union's size cannot underflow. */
  lemma UnionSize(x: set<Keyword>, y: set<Keyword>)
    ensures |x * y| <= |x| && |x * y| <= |y|
    ensures |x + y| == |x| + |y| - |x * y|
    ensures x * y != {} ==> 0.0 <= Jaccard(x, y) <= 1.0
  {
    InclusionExclusion(x, y);
    if x * y != {} {
      assert |x + y| > 0;
      RatioInUnit(|x * y| as real, |x + y| as real);
    }
  }

  lemma InclusionExclusion<T>(x: set<T>, y: set<T>)
    ensures |x * y| <= |x| && |x * y| <= |y| && |x * y| <= |x + y|
    ensures |x + y| == |x| + |y| - |x * y|
  {
    assert x + y == x + (y - x);
    assert y == (y - x) + x * y;
    assert x == (x - y) + x * y;
  }

  lemma RatioInUnit(n: real, m: real)
    requires 0.0 <= n <= m && m > 0.0
    ensures 0.0 <= n / m <= 1.0
  {
  }

  // ----- Candidate pairs -----

  function KeywordsOf(shared: seq<SharedKeyword>): (r: seq<Keyword>)
    ensures |r| == |shared| && forall i :: 0 <= i < |shared| ==> r[i] == shared[i].keyword
  {
    seq(|shared|, i requires 0 <= i < |shared| => shared[i].keyword)
  }

  ghost predicate DistinctDocs(entries: seq<KeywordEntry>) {
    forall i, j :: 0 <= i < j < |entries| ==> entries[i].docId != entries[j].docId
  }

  /** Index pairs processed before `(i, j)`, in the order of the nested loops, that have key `p`. */
  ghost predicate Paired(entries: seq<KeywordEntry>, i: nat, j: nat, p: Pair) {
    exists x, y :: 0 <= x < y < |entries| && (x < i || (x == i && y < j))
                   && PairKey(entries[x].docId, entries[y].docId) == p
  }

  lemma PairedStep(entries: seq<KeywordEntry>, i: nat, j: nat, p: Pair)
    requires DistinctDocs(entries) && i < j < |entries|
    ensures Paired(entries, i, j + 1, p) <==>
              Paired(entries, i, j, p) || p == PairKey(entries[i].docId, entries[j].docId)
    ensures p == PairKey(entries[i].docId, entries[j].docId) ==> !Paired(entries, i, j, p)
  {
    hide LexLess;
  }

  lemma PairedRow(entries: seq<KeywordEntry>, i: nat, p: Pair)
    requires i < |entries|
    ensures Paired(entries, i, |entries|, p) <==> Paired(entries, i + 1, i + 2, p)
  {
    hide PairKey;
  }

  lemma PairedRowStart(entries: seq<KeywordEntry>, i: nat, p: Pair)
    ensures Paired(entries, i, i + 1, p) <==> Paired(entries, i, 0, p)
    ensures !Paired(entries, 0, 0, p)
  {
    hide PairKey;
  }

  lemma PairedAll(entries: seq<KeywordEntry>, p: Pair)
    requires DistinctDocs(entries)
    ensures Paired(entries, |entries|, 0, p) <==> LexLess(p.0, p.1) && HasDoc(entries, p.0) && HasDoc(entries, p.1)
  {
    hide LexLess;
    if LexLess(p.0, p.1) && HasDoc(entries, p.0) && HasDoc(entries, p.1) {
      var x :| 0 <= x < |entries| && entries[x].docId == p.0;
      var y :| 0 <= y < |entries| && entries[y].docId == p.1;
      LexTotal(p.0, p.1);
      if x < y {
        assert PairKey(entries[x].docId, entries[y].docId) == p;
      } else {
        assert PairKey(entries[y].docId, entries[x].docId) == p;
      }
    }
    if Paired(entries, |entries|, 0, p) {
      var x, y :| 0 <= x < y < |entries| && PairKey(entries[x].docId, entries[y].docId) == p;
      PairKeyOrdered(entries[x].docId, entries[y].docId);
    }
  }

  /** The keywords recorded for a pair. */
  function PairKeywords(pairs: PairMap, p: Pair): seq<Keyword> {
    KeywordsOf(ListAt(pairs, p))
  }

  /** The shared keyword that two of the entries, in list order, give rise to. */
  ghost predicate FromEntries(keyword: Keyword, entries: seq<KeywordEntry>, p: Pair, s: SharedKeyword) {
    exists i, j :: 0 <= i < j < |entries| && PairKey(entries[i].docId, entries[j].docId) == p
                   && s == SharedKeyword(keyword, entries[i].weight, entries[j].weight)
  }

  ghost predicate NoEmptyLists(pairs: PairMap) {
    forall p: Pair :: p in pairs ==> pairs[p] != []
  }

  /** What the pairs of positions `(i, i + 1)` to `(i, j - 1)` give to the pair of documents `p`. */
  function RowShared(kw: Keyword, entries: seq<KeywordEntry>, i: nat, j: nat, p: Pair): seq<SharedKeyword>
    requires i < |entries| && j <= |entries|
  {
    if j <= i + 1 then []
    else
      RowShared(kw, entries, i, j - 1, p)
      + (if PairKey(entries[i].docId, entries[j - 1].docId) == p
         then [SharedKeyword(kw, entries[i].weight, entries[j - 1].weight)] else [])
  }

  /** The same for all pairs of positions whose first one is below `i`. */
  function RowsShared(kw: Keyword, entries: seq<KeywordEntry>, i: nat, p: Pair): seq<SharedKeyword>
    requires i <= |entries|
  {
    if i == 0 then [] else RowsShared(kw, entries, i - 1, p) + RowShared(kw, entries, i - 1, |entries|, p)
  }

  /** One shared keyword for each pair of positions in the list whose documents are `p`. */
  function AllShared(kw: Keyword, entries: seq<KeywordEntry>, p: Pair): seq<SharedKeyword> {
    RowsShared(kw, entries, |entries|, p)
  }

  lemma {:induction false} RowSharedMembers(kw: Keyword, entries: seq<KeywordEntry>, i: nat, j: nat, p: Pair)
    requires i < |entries| && j <= |entries|
    ensures forall s :: s in RowShared(kw, entries, i, j, p) ==> FromEntries(kw, entries, p, s) && s.keyword == kw
    ensures forall y :: i < y < j && PairKey(entries[i].docId, entries[y].docId) == p ==>
              SharedKeyword(kw, entries[i].weight, entries[y].weight) in RowShared(kw, entries, i, j, p)
  {
    hide PairKey;
    if j > i + 1 {
      RowSharedMembers(kw, entries, i, j - 1, p);
    }
  }

  lemma {:induction false} RowsSharedMembers(kw: Keyword, entries: seq<KeywordEntry>, i: nat, p: Pair)
    requires i <= |entries|
    ensures forall s :: s in RowsShared(kw, entries, i, p) ==> FromEntries(kw, entries, p, s) && s.keyword == kw
    ensures forall x, y :: 0 <= x < i && x < y < |entries| && PairKey(entries[x].docId, entries[y].docId) == p ==>
              SharedKeyword(kw, entries[x].weight, entries[y].weight) in RowsShared(kw, entries, i, p)
  {
    hide PairKey, FromEntries, RowShared;
    if i > 0 {
      RowsSharedMembers(kw, entries, i - 1, p);
      RowSharedMembers(kw, entries, i - 1, |entries|, p);
    }
  }

  lemma RowStep(kw: Keyword, entries: seq<KeywordEntry>, i: nat, j: nat, p: Pair)
    requires i < j < |entries|
    ensures RowShared(kw, entries, i, i + 1, p) == []
    ensures RowShared(kw, entries, i, j + 1, p) == RowShared(kw, entries, i, j, p)
            + (if PairKey(entries[i].docId, entries[j].docId) == p
               then [SharedKeyword(kw, entries[i].weight, entries[j].weight)] else [])
  {
    hide PairKey;
  }

  lemma RowsStep(kw: Keyword, entries: seq<KeywordEntry>, i: nat, p: Pair)
    requires i < |entries|
    ensures RowsShared(kw, entries, 0, p) == [] && RowShared(kw, entries, i, i + 1, p) == []
    ensures RowsShared(kw, entries, i + 1, p)
            == RowsShared(kw, entries, i, p) + RowShared(kw, entries, i, |entries|, p)
  {
    hide PairKey;
  }

  lemma KeywordsConcat(xs: seq<SharedKeyword>, ys: seq<SharedKeyword>)
    ensures KeywordsOf(xs + ys) == KeywordsOf(xs) + KeywordsOf(ys)
  {
  }

  /** In a list without repeated documents, positions below `(i, j)` give the keyword once or not at all. */
  lemma {:induction false} SharedPaired(kw: Keyword, entries: seq<KeywordEntry>, i: nat, j: nat, p: Pair)
    requires DistinctDocs(entries) && i < |entries| && i < j <= |entries|
    ensures KeywordsOf(RowsShared(kw, entries, i, p)) + KeywordsOf(RowShared(kw, entries, i, j, p))
         == if Paired(entries, i, j, p) then [kw] else []
    decreases i, j
  {
    hide Paired, PairKey, DistinctDocs, RowShared, RowsShared, KeywordsOf;
    NoKeywords();
    if j > i + 1 {
      SharedPaired(kw, entries, i, j - 1, p);
      PairedStep(entries, i, j - 1, p);
      RowStep(kw, entries, i, j - 1, p);
      var s := SharedKeyword(kw, entries[i].weight, entries[j - 1].weight);
      KeywordsConcat(RowShared(kw, entries, i, j - 1, p), [s]);
      OneKeywordOf(s);
    } else {
      PairedRowStart(entries, i, p);
      RowsStep(kw, entries, i, p);
      if i > 0 {
        SharedPaired(kw, entries, i - 1, |entries|, p);
        PairedRow(entries, i - 1, p);
        RowsStep(kw, entries, i - 1, p);
        KeywordsConcat(RowsShared(kw, entries, i - 1, p), RowShared(kw, entries, i - 1, |entries|, p));
      }
    }
  }

  lemma NoKeywords()
    ensures KeywordsOf([]) == []
  {
  }

  lemma OneKeywordOf(s: SharedKeyword)
    ensures KeywordsOf([s]) == [s.keyword]
  {
  }

  lemma SharedOnce(kw: Keyword, entries: seq<KeywordEntry>, p: Pair)
    requires DistinctDocs(entries)
    ensures KeywordsOf(AllShared(kw, entries, p))
         == if LexLess(p.0, p.1) && HasDoc(entries, p.0) && HasDoc(entries, p.1) then [kw] else []
  {
    hide Paired, PairKey, LexLess, RowShared, RowsShared, DistinctDocs, KeywordsOf;
    var n := |entries|;
    PairedAll(entries, p);
    NoRows(kw, entries, p);
    if n > 0 {
      SharedPaired(kw, entries, n - 1, n, p);
      RowsStep(kw, entries, n - 1, p);
      KeywordsConcat(RowsShared(kw, entries, n - 1, p), RowShared(kw, entries, n - 1, n, p));
      PairedRow(entries, n - 1, p);
      PairedRowStart(entries, n, p);
    }
  }

  lemma NoRows(kw: Keyword, entries: seq<KeywordEntry>, p: Pair)
    ensures RowsShared(kw, entries, 0, p) == [] && KeywordsOf([]) == []
    ensures |entries| < 2 ==> AllShared(kw, entries, p) == []
  {
    if |entries| == 1 {
      RowsStep(kw, entries, 0, p);
    }
  }

  /** Each pair of documents has gained what the positions of row `i` below `j` give it. */
  ghost predicate RowDone(kw: Keyword, entries: seq<KeywordEntry>, i: nat, j: nat, pairs0: PairMap, pairs: PairMap)
    requires i < |entries| && j <= |entries|
  {
    forall p: Pair :: ListAt(pairs, p) == ListAt(pairs0, p) + RowShared(kw, entries, i, j, p)
  }

  lemma RowBegins(kw: Keyword, entries: seq<KeywordEntry>, i: nat, pairs0: PairMap)
    requires i < |entries|
    ensures RowDone(kw, entries, i, i + 1, pairs0, pairs0)
  {
    forall p: Pair ensures ListAt(pairs0, p) == ListAt(pairs0, p) + RowShared(kw, entries, i, i + 1, p) {
      RowsStep(kw, entries, i, p);
    }
  }

  lemma RowGoesOn(kw: Keyword, entries: seq<KeywordEntry>, i: nat, j: nat, pairs0: PairMap, pairs: PairMap)
    requires i < j < |entries| && RowDone(kw, entries, i, j, pairs0, pairs)
    ensures RowDone(kw, entries, i, j + 1, pairs0,
                    PushAt(pairs, PairKey(entries[i].docId, entries[j].docId),
                           SharedKeyword(kw, entries[i].weight, entries[j].weight)))
  {
    hide PairKey, RowShared, ListAt;
    var pair, s := PairKey(entries[i].docId, entries[j].docId), SharedKeyword(kw, entries[i].weight, entries[j].weight);
    var next := PushAt(pairs, pair, s);
    forall p: Pair ensures ListAt(next, p) == ListAt(pairs0, p) + RowShared(kw, entries, i, j + 1, p) {
      RowStep(kw, entries, i, j, p);
      var more := if pair == p then [s] else [];
      assert ListAt(next, p) == ListAt(pairs, p) + more;
      Associate(ListAt(pairs0, p), RowShared(kw, entries, i, j, p), more);
    }
  }

  /** The inner loop: the pairs of positions starting at `i`. */
  method AddRow(keyword: Keyword, entries: seq<KeywordEntry>, i: nat, pairs0: PairMap) returns (pairs: PairMap)
    requires NoEmptyLists(pairs0) && i < |entries|
    ensures NoEmptyLists(pairs) && RowDone(keyword, entries, i, |entries|, pairs0, pairs)
  {
    hide PairKey, RowDone;
    pairs := pairs0;
    RowBegins(keyword, entries, i, pairs0);
    for j := i + 1 to |entries|
      invariant NoEmptyLists(pairs) && RowDone(keyword, entries, i, j, pairs0, pairs)
    {
      var a, b := entries[i], entries[j];
      RowGoesOn(keyword, entries, i, j, pairs0, pairs);
      pairs := PushAt(pairs, PairKey(a.docId, b.docId), SharedKeyword(keyword, a.weight, b.weight));
    }
  }

  /** For one keyword: a shared keyword for each pair of positions; each pair of documents once, if none is repeated. */
  method AddPairs(keyword: Keyword, entries: seq<KeywordEntry>, pairs0: PairMap) returns (pairs: PairMap)
    requires NoEmptyLists(pairs0)
    ensures NoEmptyLists(pairs)
    ensures forall p: Pair :: ListAt(pairs, p) == ListAt(pairs0, p) + AllShared(keyword, entries, p)
    ensures DistinctDocs(entries) ==>
              forall p: Pair :: PairKeywords(pairs, p) == PairKeywords(pairs0, p)
                        + (if LexLess(p.0, p.1) && HasDoc(entries, p.0) && HasDoc(entries, p.1) then [keyword] else [])
    ensures forall p: Pair, s :: s in ListAt(pairs, p) ==> s in ListAt(pairs0, p) || FromEntries(keyword, entries, p, s)
  {
    hide RowsDone, RowDone, DistinctDocs, LexLess, HasDoc, FromEntries, PairKeywords;
    pairs := pairs0;
    NothingShared(keyword, entries, pairs0);
    for i := 0 to |entries|
      invariant NoEmptyLists(pairs) && RowsDone(keyword, entries, i, pairs0, pairs)
    {
      var next := AddRow(keyword, entries, i, pairs);
      RowsGoOn(keyword, entries, i, pairs0, pairs, next);
      pairs := next;
    }
    AllRowsDone(keyword, entries, pairs0, pairs);
    AllSharedFacts(keyword, entries, pairs0, pairs);
  }

  ghost predicate RowsDone(kw: Keyword, entries: seq<KeywordEntry>, i: nat, pairs0: PairMap, pairs: PairMap)
    requires i <= |entries|
  {
    forall p: Pair :: ListAt(pairs, p) == ListAt(pairs0, p) + RowsShared(kw, entries, i, p)
  }

  lemma NothingShared(kw: Keyword, entries: seq<KeywordEntry>, pairs0: PairMap)
    ensures RowsDone(kw, entries, 0, pairs0, pairs0)
  {
  }

  lemma RowsGoOn(kw: Keyword, entries: seq<KeywordEntry>, i: nat, pairs0: PairMap, pairs: PairMap, next: PairMap)
    requires i < |entries| && RowsDone(kw, entries, i, pairs0, pairs) && RowDone(kw, entries, i, |entries|, pairs, next)
    ensures RowsDone(kw, entries, i + 1, pairs0, next)
  {
    hide RowShared, RowsShared, ListAt;
    forall p: Pair ensures ListAt(next, p) == ListAt(pairs0, p) + RowsShared(kw, entries, i + 1, p) {
      RowsStep(kw, entries, i, p);
      Associate(ListAt(pairs0, p), RowsShared(kw, entries, i, p), RowShared(kw, entries, i, |entries|, p));
    }
  }

  lemma Associate<T>(x: seq<T>, y: seq<T>, z: seq<T>)
    ensures (x + y) + z == x + (y + z)
  {
  }

  lemma AllRowsDone(kw: Keyword, entries: seq<KeywordEntry>, pairs0: PairMap, pairs: PairMap)
    requires RowsDone(kw, entries, |entries|, pairs0, pairs)
    ensures forall p: Pair :: ListAt(pairs, p) == ListAt(pairs0, p) + AllShared(kw, entries, p)
  {
  }

  lemma AllSharedFacts(keyword: Keyword, entries: seq<KeywordEntry>, pairs0: PairMap, pairs: PairMap)
    requires forall p: Pair :: ListAt(pairs, p) == ListAt(pairs0, p) + AllShared(keyword, entries, p)
    ensures DistinctDocs(entries) ==>
              forall p: Pair :: PairKeywords(pairs, p) == PairKeywords(pairs0, p)
                        + (if LexLess(p.0, p.1) && HasDoc(entries, p.0) && HasDoc(entries, p.1) then [keyword] else [])
    ensures forall p: Pair, s :: s in ListAt(pairs, p) ==> s in ListAt(pairs0, p) || FromEntries(keyword, entries, p, s)
  {
    hide DistinctDocs, LexLess, HasDoc, FromEntries, RowsShared;
    forall p: Pair
      ensures forall s :: s in ListAt(pairs, p) ==> s in ListAt(pairs0, p) || FromEntries(keyword, entries, p, s)
      ensures DistinctDocs(entries) ==>
                PairKeywords(pairs, p) == PairKeywords(pairs0, p)
                + (if LexLess(p.0, p.1) && HasDoc(entries, p.0) && HasDoc(entries, p.1) then [keyword] else [])
    {
      RowsSharedMembers(keyword, entries, |entries|, p);
      if DistinctDocs(entries) {
        SharedOnce(keyword, entries, p);
      }
    }
  }

  /**
   * After the keywords of `seen`: each ordered pair has the keywords of `seen` that both documents carry, each once.
   */
  ghost predicate PairsAfter(nodes: Nodes, order: seq<DocId>, seen: set<Keyword>, pairs: PairMap) {
    && NoEmptyLists(pairs)
    && (forall p: Pair, s :: s in ListAt(pairs, p) ==> SharedFits(nodes, order, p, s))
    && (forall p: Pair :: Distinct(PairKeywords(pairs, p)))
    && (forall p: Pair, kw :: kw in PairKeywords(pairs, p) <==> kw in seen && BothCarry(nodes, p, kw))
  }

  /** The two weights are those of the pair's documents, the one added first coming first. */
  ghost predicate SharedFits(nodes: Nodes, order: seq<DocId>, p: Pair, s: SharedKeyword) {
    || (Before(order, p.0, p.1) && HasWeight(nodes, p.0, s.keyword, s.sourceWeight)
        && HasWeight(nodes, p.1, s.keyword, s.targetWeight))
    || (Before(order, p.1, p.0) && HasWeight(nodes, p.1, s.keyword, s.sourceWeight)
        && HasWeight(nodes, p.0, s.keyword, s.targetWeight))
  }

  ghost predicate HasWeight(nodes: Nodes, d: DocId, kw: Keyword, w: real) {
    d in nodes && WeightedKeyword(kw, w) in nodes[d].topKeywords
  }

  lemma EntriesFit(nodes: Nodes, order: seq<DocId>, kw: Keyword, entries: seq<KeywordEntry>, p: Pair, s: SharedKeyword)
    requires EntriesMatch(nodes, kw, entries) && EntriesOrdered(order, entries) && FromEntries(kw, entries, p, s)
    ensures SharedFits(nodes, order, p, s)
  {
    hide LexLess, Before;
    var i, j :| 0 <= i < j < |entries| && PairKey(entries[i].docId, entries[j].docId) == p
                && s == SharedKeyword(kw, entries[i].weight, entries[j].weight);
    assert Before(order, entries[i].docId, entries[j].docId);
  }

  ghost predicate BothCarry(nodes: Nodes, p: Pair, kw: Keyword) {
    LexLess(p.0, p.1) && Carries(nodes, p.0, kw) && Carries(nodes, p.1, kw)
  }

  lemma EntriesAreCarriers(nodes: Nodes, kw: Keyword, entries: seq<KeywordEntry>, d: DocId)
    requires EntriesMatch(nodes, kw, entries)
    ensures HasDoc(entries, d) <==> Carries(nodes, d, kw)
  {
    if HasDoc(entries, d) {
      var i :| 0 <= i < |entries| && entries[i].docId == d;
      var wk := WeightedKeyword(kw, entries[i].weight);
      assert wk in nodes[d].topKeywords;
      assert wk.keyword in Keywords(nodes[d].topKeywords);
    }
  }

  lemma PairsStep(nodes: Nodes, order: seq<DocId>, seen: set<Keyword>, kw: Keyword, entries: seq<KeywordEntry>,
                  pairs: PairMap, next: PairMap)
    requires PairsAfter(nodes, order, seen, pairs) && kw !in seen && NoEmptyLists(next)
    requires EntriesMatch(nodes, kw, entries) && EntriesOrdered(order, entries)
    requires forall p: Pair, s :: s in ListAt(next, p) ==> s in ListAt(pairs, p) || FromEntries(kw, entries, p, s)
    requires forall p: Pair :: PairKeywords(next, p) == PairKeywords(pairs, p)
                         + (if LexLess(p.0, p.1) && HasDoc(entries, p.0) && HasDoc(entries, p.1) then [kw] else [])
    ensures PairsAfter(nodes, order, seen + {kw}, next)
  {
    hide PairKeywords, LexLess, EntriesMatch, EntriesOrdered, Carries, HasDoc, FromEntries, SharedFits;
    forall p: Pair, s | s in ListAt(next, p) ensures SharedFits(nodes, order, p, s) {
      if s !in ListAt(pairs, p) {
        EntriesFit(nodes, order, kw, entries, p, s);
      }
    }
    forall p: Pair ensures Distinct(PairKeywords(next, p)) {
      DistinctConcat(PairKeywords(pairs, p), [kw]);
    }
    forall p: Pair, k ensures k in PairKeywords(next, p) <==> k in seen + {kw} && BothCarry(nodes, p, k) {
      EntriesAreCarriers(nodes, kw, entries, p.0);
      EntriesAreCarriers(nodes, kw, entries, p.1);
      assert k in PairKeywords(pairs, p) <==> k in seen && BothCarry(nodes, p, k);
    }
  }

  /** A keyword with fewer than two entries makes no pair. */
  lemma PairsSkip(nodes: Nodes, order: seq<DocId>, seen: set<Keyword>, kw: Keyword, entries: seq<KeywordEntry>,
          pairs: PairMap)
    requires PairsAfter(nodes, order, seen, pairs) && |entries| < 2
    requires forall d :: Carries(nodes, d, kw) ==> HasDoc(entries, d)
    ensures PairsAfter(nodes, order, seen + {kw}, pairs)
  {
    hide PairKeywords, LexLess, Carries, SharedFits;
    forall p: Pair, k ensures k in PairKeywords(pairs, p) <==> k in seen + {kw} && BothCarry(nodes, p, k) {
      LexTotal(p.0, p.1);
      assert k in PairKeywords(pairs, p) <==> k in seen && BothCarry(nodes, p, k);
    }
  }

  lemma IndexHasCarried(nodes: Nodes, order: seq<DocId>, index: KeywordIndex, d: DocId, kw: Keyword)
    requires InStep(nodes, order, index) && Carries(nodes, d, kw)
    ensures kw in index
  {
    hide EntriesMatch, EntriesOrdered;
    assert KeywordInStep(nodes, order, kw, ListAt(index, kw));
    assert HasDoc(ListAt(index, kw), d);
  }

  /**
   * The keyword's list has every document carrying it; where it makes pairs, it has these once each, in the order of
   * addition, and nothing else.
   */
  ghost predicate KeywordInStep(nodes: Nodes, order: seq<DocId>, kw: Keyword, entries: seq<KeywordEntry>) {
    && (forall d :: Carries(nodes, d, kw) ==> HasDoc(entries, d))
    && (|entries| >= 2 ==> EntriesMatch(nodes, kw, entries) && EntriesOrdered(order, entries))
  }

  ghost predicate InStep(nodes: Nodes, order: seq<DocId>, index: KeywordIndex) {
    forall kw :: KeywordInStep(nodes, order, kw, ListAt(index, kw))
  }

  lemma MatchedIsInStep(nodes: Nodes, order: seq<DocId>, index: KeywordIndex)
    requires IndexMatches(nodes, index) && IndexOrdered(order, index)
    ensures InStep(nodes, order, index)
  {
    hide EntriesOrdered, Carries, HasDoc;
    forall kw ensures KeywordInStep(nodes, order, kw, ListAt(index, kw)) {
      assert EntriesMatch(nodes, kw, ListAt(index, kw)) && EntriesOrdered(order, ListAt(index, kw));
      forall d | Carries(nodes, d, kw) ensures HasDoc(ListAt(index, kw), d) {
        EntriesAreCarriers(nodes, kw, ListAt(index, kw), d);
      }
    }
  }

  /** The shared keywords of the list that are `kw`. */
  function OfKeyword(shared: seq<SharedKeyword>, kw: Keyword): seq<SharedKeyword> {
    if shared == [] then []
    else
      var last := shared[|shared| - 1];
      OfKeyword(shared[..|shared| - 1], kw) + (if last.keyword == kw then [last] else [])
  }

  lemma {:induction false} OfKeywordConcat(xs: seq<SharedKeyword>, ys: seq<SharedKeyword>, kw: Keyword)
    ensures OfKeyword(xs + ys, kw) == OfKeyword(xs, kw) + OfKeyword(ys, kw)
    decreases |ys|
  {
    if ys == [] {
      assert xs + ys == xs;
    } else {
      OfKeywordConcat(xs, ys[..|ys| - 1], kw);
      assert (xs + ys)[..|xs + ys| - 1] == xs + ys[..|ys| - 1];
    }
  }

  lemma {:induction false} OfKeywordAll(xs: seq<SharedKeyword>, kw: Keyword, q: Keyword)
    requires forall i :: 0 <= i < |xs| ==> xs[i].keyword == kw
    ensures OfKeyword(xs, q) == if q == kw then xs else []
  {
    if xs != [] {
      OfKeywordAll(xs[..|xs| - 1], kw, q);
      assert xs == xs[..|xs| - 1] + [xs[|xs| - 1]];
    }
  }

  lemma {:induction false} OfKeywordMembers(xs: seq<SharedKeyword>, kw: Keyword)
    ensures forall s :: s in OfKeyword(xs, kw) <==> s in xs && s.keyword == kw
    ensures |OfKeyword(xs, kw)| <= |xs|
  {
    if xs != [] {
      OfKeywordMembers(xs[..|xs| - 1], kw);
      assert xs == xs[..|xs| - 1] + [xs[|xs| - 1]];
    }
  }

  /** Each pair of documents has, for each keyword of `seen`, what the pairs of positions in its list give it. */
  ghost predicate PairsFrom(index: KeywordIndex, seen: set<Keyword>, pairs: PairMap) {
    forall p: Pair, kw ::
      OfKeyword(ListAt(pairs, p), kw) == if kw in seen && kw in index then AllShared(kw, index[kw], p) else []
  }

  lemma PairsFromStep(index: KeywordIndex, seen: set<Keyword>, pairs: PairMap, kw: Keyword, next: PairMap)
    requires PairsFrom(index, seen, pairs) && kw in index && kw !in seen
    requires forall p: Pair :: ListAt(next, p) == ListAt(pairs, p) + AllShared(kw, index[kw], p)
    ensures PairsFrom(index, seen + {kw}, next)
  {
    hide AllShared, OfKeyword;
    forall p: Pair, q
      ensures OfKeyword(ListAt(next, p), q) == if q in seen + {kw} && q in index then AllShared(q, index[q], p) else []
    {
      OfKeywordConcat(ListAt(pairs, p), AllShared(kw, index[kw], p), q);
      SharedAreOfKeyword(kw, index[kw], p);
      OfKeywordAll(AllShared(kw, index[kw], p), kw, q);
      assert OfKeyword(ListAt(pairs, p), q) == if q in seen && q in index then AllShared(q, index[q], p) else [];
    }
  }

  lemma SharedAreOfKeyword(kw: Keyword, entries: seq<KeywordEntry>, p: Pair)
    ensures forall i :: 0 <= i < |AllShared(kw, entries, p)| ==> AllShared(kw, entries, p)[i].keyword == kw
    ensures |entries| < 2 ==> AllShared(kw, entries, p) == []
  {
    hide FromEntries, PairKey;
    RowsSharedMembers(kw, entries, |entries|, p);
    NoRows(kw, entries, p);
  }

  lemma PairsFromSkip(index: KeywordIndex, seen: set<Keyword>, pairs: PairMap, kw: Keyword)
    requires PairsFrom(index, seen, pairs) && kw in index && kw !in seen && |index[kw]| < 2
    ensures PairsFrom(index, seen + {kw}, pairs)
  {
    hide AllShared, OfKeyword;
    forall p: Pair ensures AllShared(kw, index[kw], p) == [] {
      SharedAreOfKeyword(kw, index[kw], p);
    }
    assert forall p: Pair :: ListAt(pairs, p) == ListAt(pairs, p) + AllShared(kw, index[kw], p);
    PairsFromStep(index, seen, pairs, kw, pairs);
  }

  /**
   * First half of `compute_edges`: what all pairs of positions in all lists give, the index being read in an arbitrary
   * order. With an index in step with the nodes these are the keywords both documents carry, each once.
   */
  method CollectPairs(ghost nodes: Nodes, ghost order: seq<DocId>, index: KeywordIndex) returns (pairs: PairMap)
    ensures NoEmptyLists(pairs) && PairsFrom(index, index.Keys, pairs)
    ensures InStep(nodes, order, index) ==>
              && PairsAfter(nodes, order, index.Keys, pairs)
              && forall p: Pair, kw :: kw in PairKeywords(pairs, p) <==> BothCarry(nodes, p, kw)
  {
    hide InStep, PairsAfter, PairsFrom, EntriesMatch, EntriesOrdered, Carries, LexLess, HasDoc, PairKeywords,
         FromEntries, SharedFits, AllShared;
    EmptyPairs(nodes, order, index);
    pairs := map[];
    var remaining := index.Keys;
    ghost var seen: set<Keyword> := {};
    while remaining != {}
      invariant remaining <= index.Keys && seen == index.Keys - remaining
      invariant NoEmptyLists(pairs) && PairsFrom(index, seen, pairs)
      invariant InStep(nodes, order, index) ==> PairsAfter(nodes, order, seen, pairs)
      decreases remaining
    {
      var keyword :| keyword in remaining;
      remaining := remaining - {keyword};
      var entries := index[keyword];
      if |entries| < 2 {
        PairsFromSkip(index, seen, pairs, keyword);
        if InStep(nodes, order, index) {
          AllCarriersListed(nodes, order, index, keyword);
          PairsSkip(nodes, order, seen, keyword, entries, pairs);
        }
      } else {
        var next := AddPairs(keyword, entries, pairs);
        PairsFromStep(index, seen, pairs, keyword, next);
        if InStep(nodes, order, index) {
          IndexedEntries(nodes, order, index, keyword);
          PairsStep(nodes, order, seen, keyword, entries, pairs, next);
        }
        pairs := next;
      }
      seen := seen + {keyword};
    }
    assert seen == index.Keys;
    if InStep(nodes, order, index) {
      CarriedAreIndexed(nodes, order, index, pairs);
    }
  }

  lemma AllCarriersListed(nodes: Nodes, order: seq<DocId>, index: KeywordIndex, kw: Keyword)
    requires InStep(nodes, order, index) && kw in index
    ensures forall d :: Carries(nodes, d, kw) ==> HasDoc(index[kw], d)
  {
    assert KeywordInStep(nodes, order, kw, ListAt(index, kw));
  }

  lemma CarriedAreIndexed(nodes: Nodes, order: seq<DocId>, index: KeywordIndex, pairs: PairMap)
    requires InStep(nodes, order, index) && PairsAfter(nodes, order, index.Keys, pairs)
    ensures forall p: Pair, kw :: kw in PairKeywords(pairs, p) <==> BothCarry(nodes, p, kw)
  {
    hide InStep, Carries, LexLess, PairKeywords, SharedFits;
    forall p: Pair, kw ensures kw in PairKeywords(pairs, p) <==> BothCarry(nodes, p, kw) {
      if BothCarry(nodes, p, kw) {
        IndexHasCarried(nodes, order, index, p.0, kw);
      }
    }
  }

  lemma EmptyPairs(nodes: Nodes, order: seq<DocId>, index: KeywordIndex)
    ensures PairsAfter(nodes, order, {}, map[]) && NoEmptyLists(map[]) && PairsFrom(index, {}, map[])
  {
  }

  lemma IndexedEntries(nodes: Nodes, order: seq<DocId>, index: KeywordIndex, kw: Keyword)
    requires InStep(nodes, order, index) && kw in index && |index[kw]| >= 2
    ensures EntriesMatch(nodes, kw, index[kw]) && DistinctDocs(index[kw]) && EntriesOrdered(order, index[kw])
  {
    assert KeywordInStep(nodes, order, kw, ListAt(index, kw));
  }

  // ----- Edges from pairs -----

  function Swap(s: SharedKeyword): SharedKeyword {
    SharedKeyword(s.keyword, s.targetWeight, s.sourceWeight)
  }

  function Mirror(shared: seq<SharedKeyword>): (r: seq<SharedKeyword>)
    ensures |r| == |shared| && forall i :: 0 <= i < |shared| ==> r[i] == Swap(shared[i])
  {
    seq(|shared|, i requires 0 <= i < |shared| => Swap(shared[i]))
  }

  lemma KeywordsSplit(kws: seq<WeightedKeyword>)
    requires kws != []
    ensures Keywords(kws) == Keywords(kws[..|kws| - 1]) + {kws[|kws| - 1].keyword}
  {
    var front, last := kws[..|kws| - 1], kws[|kws| - 1];
    forall k | k in Keywords(kws) ensures k in Keywords(front) + {last.keyword} {
      var i :| 0 <= i < |kws| && kws[i].keyword == k;
      if i < |front| {
        assert front[i].keyword == k;
      }
    }
    forall k | k in Keywords(front) ensures k in Keywords(kws) {
      var i :| 0 <= i < |front| && front[i].keyword == k;
      assert kws[i].keyword == k;
    }
    assert kws[|kws| - 1].keyword in Keywords(kws);
  }

  lemma {:induction false} KeywordsCard(kws: seq<WeightedKeyword>)
    requires DistinctKeywords(kws)
    ensures |Keywords(kws)| == |kws|
  {
    if kws != [] {
      KeywordsCard(kws[..|kws| - 1]);
      KeywordsSplit(kws);
    }
  }

  /** The list a pair has collected is its set of shared keywords. */
  ghost predicate IsShared(nodes: Nodes, order: seq<DocId>, p: Pair, shared: seq<SharedKeyword>) {
    && shared != [] && LexLess(p.0, p.1)
    && Distinct(KeywordsOf(shared))
    && (forall kw :: kw in KeywordsOf(shared) <==> kw in TopSet(nodes, p.0) * TopSet(nodes, p.1))
    && (forall s :: s in shared ==> SharedFits(nodes, order, p, s))
  }

  lemma CollectedIsShared(nodes: Nodes, order: seq<DocId>, seen: set<Keyword>, pairs: PairMap, p: Pair)
    requires PairsAfter(nodes, order, seen, pairs) && p in pairs
    requires forall kw :: kw in PairKeywords(pairs, p) <==> BothCarry(nodes, p, kw)
    ensures IsShared(nodes, order, p, pairs[p])
  {
    hide SharedFits, LexLess;
    assert KeywordsOf(pairs[p])[0] in PairKeywords(pairs, p);
  }

  /** Keywords of one keyword-sharing pair exist only if the pair was collected. */
  lemma SharingIsCollected(nodes: Nodes, pairs: PairMap, p: Pair)
    requires forall kw :: kw in PairKeywords(pairs, p) <==> BothCarry(nodes, p, kw)
    requires LexLess(p.0, p.1) && TopSet(nodes, p.0) * TopSet(nodes, p.1) != {}
    ensures p in pairs
  {
    hide LexLess;
    var kw :| kw in TopSet(nodes, p.0) * TopSet(nodes, p.1);
    assert BothCarry(nodes, p, kw);
  }

  function TopCount(nodes: Nodes, d: DocId): nat {
    if d in nodes then |nodes[d].topKeywords| else 0
  }

  const TWO64: nat := 0x1_0000_0000_0000_0000

  /** Subtraction of `usize` values without overflow checks; with them it would panic below zero. */
  function WrappingSub(x: nat, y: nat): nat {
    if y <= x then x - y else (x - y) % TWO64
  }

  /** The two directed edges a pair gets, or none if it misses a threshold. */
  function EdgesFor(nodes: Nodes, cfg: Config, a: DocId, b: DocId, shared: seq<SharedKeyword>)
    : Option<(GraphEdge, GraphEdge)>
  {
    var count := |shared|;
    if count < cfg.minShared then None
    else
      var unionSize := WrappingSub(TopCount(nodes, a) + TopCount(nodes, b), count);
      var jaccard := if unionSize > 0 then count as real / unionSize as real else 0.0;
      if jaccard < cfg.minJaccard then None
      else
        var weight := EdgeWeight(cfg, count, jaccard);
        Some((GraphEdge(b, weight, EdgeEvidence(shared, count, jaccard)),
              GraphEdge(a, weight, EdgeEvidence(Mirror(shared), count, jaccard))))
  }

  /** The evidence of `a -> b` carries both documents' weights; see `EvidenceOwnership` for whose is whose. */
  ghost predicate EvidenceFits(nodes: Nodes, order: seq<DocId>, a: DocId, b: DocId, s: SharedKeyword) {
    if LexLess(a, b) then SharedFits(nodes, order, (a, b), s) else SharedFits(nodes, order, (b, a), Swap(s))
  }

  /** `e` is the edge the all-pairs definition gives `a`, with the true counts, similarity and weight. */
  ghost predicate EdgeFits(nodes: Nodes, order: seq<DocId>, cfg: Config, a: DocId, e: GraphEdge) {
    var x, y := TopSet(nodes, a), TopSet(nodes, e.target);
    && Qualifies(nodes, cfg, a, e.target)
    && e.evidence.count == |x * y| && e.evidence.jaccard == Jaccard(x, y)
    && e.weight == EdgeWeight(cfg, |x * y|, Jaccard(x, y)) && 0.0 <= e.weight <= 1.0
    && Distinct(KeywordsOf(e.evidence.sharedKeywords))
    && (forall kw :: kw in KeywordsOf(e.evidence.sharedKeywords) <==> kw in x * y)
    && (forall s :: s in e.evidence.sharedKeywords ==> EvidenceFits(nodes, order, a, e.target, s))
  }

  lemma PairCounts(nodes: Nodes, order: seq<DocId>, p: Pair, shared: seq<SharedKeyword>)
    requires NodesOk(nodes) && IsShared(nodes, order, p, shared)
    ensures |shared| == |TopSet(nodes, p.0) * TopSet(nodes, p.1)| >= 1
    ensures TopCount(nodes, p.0) == |TopSet(nodes, p.0)| && TopCount(nodes, p.1) == |TopSet(nodes, p.1)|
    ensures |shared| <= TopCount(nodes, p.0)
    ensures p.0 in nodes && p.1 in nodes && p.0 != p.1
  {
    hide SharedFits, LexLess;
    var x, y := TopSet(nodes, p.0), TopSet(nodes, p.1);
    LexTotal(p.0, p.1);
    DistinctCardinality(KeywordsOf(shared), x * y);
    assert KeywordsOf(shared)[0] in x * y;
    UnionSize(x, y);
    KeywordsCard(nodes[p.0].topKeywords);
    KeywordsCard(nodes[p.1].topKeywords);
  }

  /** The loop body creates edges exactly for qualifying pairs, and they are the right ones. */
  lemma EdgesForExact(nodes: Nodes, order: seq<DocId>, cfg: Config, p: Pair, shared: seq<SharedKeyword>)
    requires NodesOk(nodes) && IsShared(nodes, order, p, shared)
    ensures EdgesFor(nodes, cfg, p.0, p.1, shared).Some? <==> Qualifies(nodes, cfg, p.0, p.1)
    ensures EdgesFor(nodes, cfg, p.0, p.1, shared).Some? ==>
              var (ab, ba) := EdgesFor(nodes, cfg, p.0, p.1, shared).value;
              ab.target == p.1 && ba.target == p.0
              && EdgeFits(nodes, order, cfg, p.0, ab) && EdgeFits(nodes, order, cfg, p.1, ba)
  {
    hide SharedFits, LexLess, EdgeWeight, NodesOk;
    var x, y := TopSet(nodes, p.0), TopSet(nodes, p.1);
    PairCounts(nodes, order, p, shared);
    UnionSize(x, y);
    QualifiesSymmetric(nodes, cfg, p.0, p.1);
    assert x * y == y * x && x * y != {};
    WeightInUnit(cfg, |shared|, Jaccard(x, y));
    LexTotal(p.0, p.1);
    MirrorKeywords(shared);
    forall s | s in Mirror(shared) ensures Swap(s) in shared {
    }
  }

  lemma MirrorKeywords(shared: seq<SharedKeyword>)
    ensures KeywordsOf(Mirror(shared)) == KeywordsOf(shared)
  {
  }

  // ----- All edges -----

  /** The edges after one pair has been treated. */
  function WithEdgesFor(nodes: Nodes, cfg: Config, edges: Edges, p: Pair, shared: seq<SharedKeyword>): Edges {
    match EdgesFor(nodes, cfg, p.0, p.1, shared)
    case None => edges
    case Some(made) => PushAt(PushAt(edges, p.0, made.0), p.1, made.1)
  }

  /** Treating the pair makes this edge of this source. */
  predicate Makes(nodes: Nodes, cfg: Config, p: Pair, shared: seq<SharedKeyword>, a: DocId, e: GraphEdge) {
    var made := EdgesFor(nodes, cfg, p.0, p.1, shared);
    made.Some? && ((a == p.0 && e == made.value.0) || (a == p.1 && e == made.value.1))
  }

  /** The edges are those made by the pairs of `done`. */
  ghost predicate EdgesFrom(nodes: Nodes, cfg: Config, pairs: PairMap, done: set<Pair>, edges: Edges)
    requires done <= pairs.Keys
  {
    forall a, e :: e in ListAt(edges, a) <==> exists p :: p in done && Makes(nodes, cfg, p, pairs[p], a, e)
  }

  lemma EdgesFromStep(nodes: Nodes, cfg: Config, pairs: PairMap, done: set<Pair>, p: Pair, edges: Edges)
    requires done <= pairs.Keys && p in pairs && EdgesFrom(nodes, cfg, pairs, done, edges)
    ensures EdgesFrom(nodes, cfg, pairs, done + {p}, WithEdgesFor(nodes, cfg, edges, p, pairs[p]))
  {
    hide EdgesFor;
    var next := WithEdgesFor(nodes, cfg, edges, p, pairs[p]);
    forall a, e
      ensures e in ListAt(next, a) <==> exists q :: q in done + {p} && Makes(nodes, cfg, q, pairs[q], a, e)
    {
      assert e in ListAt(next, a) <==> e in ListAt(edges, a) || Makes(nodes, cfg, p, pairs[p], a, e);
    }
  }

  predicate HasTarget(edges: seq<GraphEdge>, b: DocId) {
    exists i :: 0 <= i < |edges| && edges[i].target == b
  }

  ghost predicate DistinctTargets(edges: seq<GraphEdge>) {
    forall i, j :: 0 <= i < j < |edges| ==> edges[i].target != edges[j].target
  }

  /** The outgoing edges of `a` once the pairs of `done` are processed: one for each qualifying partner. */
  ghost predicate SourceAfter(nodes: Nodes, order: seq<DocId>, cfg: Config, done: set<Pair>, a: DocId,
          edges: seq<GraphEdge>) {
    && DistinctTargets(edges)
    && (forall e :: e in edges ==> EdgeFits(nodes, order, cfg, a, e) && PairKey(a, e.target) in done)
    && (forall b :: Qualifies(nodes, cfg, a, b) && PairKey(a, b) in done ==> HasTarget(edges, b))
  }

  ghost predicate EdgesAfter(nodes: Nodes, order: seq<DocId>, cfg: Config, done: set<Pair>, edges: Edges) {
    forall a :: SourceAfter(nodes, order, cfg, done, a, ListAt(edges, a))
  }

  /** Processing a pair touches only its two documents. */
  lemma SourceUntouched(nodes: Nodes, order: seq<DocId>, cfg: Config, done: set<Pair>, p: Pair, a: DocId,
          edges: seq<GraphEdge>)
    requires SourceAfter(nodes, order, cfg, done, a, edges)
    requires (a != p.0 && a != p.1) || !Qualifies(nodes, cfg, p.0, p.1)
    ensures SourceAfter(nodes, order, cfg, done + {p}, a, edges)
  {
    hide EdgeFits, LexLess, Qualifies, HasTarget;
    forall b | Qualifies(nodes, cfg, a, b) && PairKey(a, b) in done + {p} ensures HasTarget(edges, b) {
      QualifiesSymmetric(nodes, cfg, a, b);
    }
  }

  lemma SourceExtended(nodes: Nodes, order: seq<DocId>, cfg: Config, done: set<Pair>, a: DocId,
          edges: seq<GraphEdge>, e: GraphEdge)
    requires SourceAfter(nodes, order, cfg, done, a, edges)
    requires PairKey(a, e.target) !in done && EdgeFits(nodes, order, cfg, a, e)
    ensures SourceAfter(nodes, order, cfg, done + {PairKey(a, e.target)}, a, edges + [e])
  {
    hide EdgeFits, LexLess, Qualifies;
    var more, p := edges + [e], PairKey(a, e.target);
    forall x | x in more ensures EdgeFits(nodes, order, cfg, a, x) && PairKey(a, x.target) in done + {p} {
      assert x in edges || x == e;
    }
    forall i | 0 <= i < |edges| ensures edges[i].target != e.target {
      assert edges[i] in edges;
    }
    forall b | Qualifies(nodes, cfg, a, b) && PairKey(a, b) in done + {p} ensures HasTarget(more, b) {
      if PairKey(a, b) in done {
        var i :| 0 <= i < |edges| && edges[i].target == b;
        assert more[i].target == b;
      } else {
        assert b == e.target || (b == a && a == e.target);
        assert more[|edges|].target == b;
      }
    }
  }

  /** One round of the second loop of `compute_edges`. */
  lemma EdgesStep(nodes: Nodes, order: seq<DocId>, cfg: Config, done: set<Pair>, p: Pair, edges: Edges,
          ab: GraphEdge, ba: GraphEdge)
    requires EdgesAfter(nodes, order, cfg, done, edges) && p !in done && LexLess(p.0, p.1)
    requires ab.target == p.1 && ba.target == p.0
    requires EdgeFits(nodes, order, cfg, p.0, ab) && EdgeFits(nodes, order, cfg, p.1, ba)
    ensures EdgesAfter(nodes, order, cfg, done + {p}, PushAt(PushAt(edges, p.0, ab), p.1, ba))
  {
    hide EdgeFits, LexLess, Qualifies, SourceAfter;
    LexTotal(p.0, p.1);
    var next := PushAt(PushAt(edges, p.0, ab), p.1, ba);
    forall a ensures SourceAfter(nodes, order, cfg, done + {p}, a, ListAt(next, a)) {
      if a == p.0 {
        SourceExtended(nodes, order, cfg, done, a, ListAt(edges, a), ab);
      } else if a == p.1 {
        SourceExtended(nodes, order, cfg, done, a, ListAt(edges, a), ba);
      } else {
        SourceUntouched(nodes, order, cfg, done, p, a, ListAt(edges, a));
      }
    }
  }

  lemma EdgesSkip(nodes: Nodes, order: seq<DocId>, cfg: Config, done: set<Pair>, p: Pair, edges: Edges)
    requires EdgesAfter(nodes, order, cfg, done, edges) && !Qualifies(nodes, cfg, p.0, p.1)
    ensures EdgesAfter(nodes, order, cfg, done + {p}, edges)
  {
    hide SourceAfter;
    forall a ensures SourceAfter(nodes, order, cfg, done + {p}, a, ListAt(edges, a)) {
      SourceUntouched(nodes, order, cfg, done, p, a, ListAt(edges, a));
    }
  }

  /** The complete edge set by the all-pairs definition: one edge per qualifying ordered pair, none else. */
  ghost predicate EdgesExact(nodes: Nodes, order: seq<DocId>, cfg: Config, edges: Edges) {
    forall a :: SourceExact(nodes, order, cfg, a, ListAt(edges, a))
  }

  ghost predicate SourceExact(nodes: Nodes, order: seq<DocId>, cfg: Config, a: DocId, edges: seq<GraphEdge>) {
    && DistinctTargets(edges)
    && (forall e :: e in edges ==> EdgeFits(nodes, order, cfg, a, e))
    && (forall b :: Qualifies(nodes, cfg, a, b) <==> HasTarget(edges, b))
  }

  lemma AfterAllPairs(nodes: Nodes, order: seq<DocId>, cfg: Config, pairs: PairMap, edges: Edges)
    requires EdgesAfter(nodes, order, cfg, pairs.Keys, edges)
    requires forall p: Pair, kw :: kw in PairKeywords(pairs, p) <==> BothCarry(nodes, p, kw)
    ensures EdgesExact(nodes, order, cfg, edges)
  {
    hide EdgesAfter, LexLess, PairKeywords, BothCarry, SourceAfter;
    forall a ensures SourceExact(nodes, order, cfg, a, ListAt(edges, a)) {
      AfterAllPairsAt(nodes, order, cfg, pairs, edges, a);
    }
  }

  lemma AfterAllPairsAt(nodes: Nodes, order: seq<DocId>, cfg: Config, pairs: PairMap, edges: Edges, a: DocId)
    requires EdgesAfter(nodes, order, cfg, pairs.Keys, edges)
    requires forall p: Pair, kw :: kw in PairKeywords(pairs, p) <==> BothCarry(nodes, p, kw)
    ensures SourceExact(nodes, order, cfg, a, ListAt(edges, a))
  {
    hide LexLess, PairKeywords, BothCarry;
    assert SourceAfter(nodes, order, cfg, pairs.Keys, a, ListAt(edges, a));
    forall b ensures Qualifies(nodes, cfg, a, b) <==> HasTarget(ListAt(edges, a), b) {
      if Qualifies(nodes, cfg, a, b) {
        PairKeyOrdered(a, b);
        assert TopSet(nodes, a) * TopSet(nodes, b) == TopSet(nodes, b) * TopSet(nodes, a) != {};
        SharingIsCollected(nodes, pairs, PairKey(a, b));
      }
    }
  }

  // ----- The builder -----

  /** `trimmed` keeps each source's heaviest edges, at most `k` of them. */
  ghost predicate Trims(full: Edges, trimmed: Edges, k: nat) {
    trimmed.Keys == full.Keys && forall a :: a in full ==> trimmed[a] == Top(Heaviest, full[a], k)
  }

  /** Descending weight. */
  function Heaviest(e: GraphEdge): real {
    -e.weight
  }

  /** Trimming a source keeps its heaviest edges, in order; all of them when there are few enough. */
  lemma TrimKeepsHeaviest(full: seq<GraphEdge>, k: nat) returns (cut: seq<GraphEdge>)
    ensures |Top(Heaviest, full, k)| == Min(k, |full|)
    ensures multiset(Top(Heaviest, full, k)) + multiset(cut) == multiset(full)
    ensures forall i, j :: 0 <= i < j < |Top(Heaviest, full, k)| ==>
              Top(Heaviest, full, k)[i].weight >= Top(Heaviest, full, k)[j].weight
    ensures forall x, y :: x in Top(Heaviest, full, k) && y in cut ==> x.weight >= y.weight
    ensures |full| <= k ==> cut == []
  {
    hide Top;
    cut := TopIsTop(Heaviest, full, k);
    forall i, j | 0 <= i < j < |Top(Heaviest, full, k)|
      ensures Top(Heaviest, full, k)[i].weight >= Top(Heaviest, full, k)[j].weight
    {
      assert Heaviest(Top(Heaviest, full, k)[i]) <= Heaviest(Top(Heaviest, full, k)[j]);
    }
    forall x, y | x in Top(Heaviest, full, k) && y in cut ensures x.weight >= y.weight {
      assert Heaviest(x) <= Heaviest(y);
    }
    assert |multiset(Top(Heaviest, full, k)) + multiset(cut)| == |Top(Heaviest, full, k)| + |cut|;
  }

  /** A profile's heaviest keywords, each with the profile's weight. */
  ghost predicate IsTopOf(keywords: map<Keyword, real>, k: nat, kws: seq<WeightedKeyword>) {
    && DistinctKeywords(kws)
    && (forall i :: 0 <= i < |kws| ==> kws[i].keyword in keywords && kws[i].weight == keywords[kws[i].keyword])
    && |kws| == Min(k, |keywords|)
    && (forall i, j :: 0 <= i < j < |kws| ==> kws[i].weight >= kws[j].weight)
    && (forall i, q :: 0 <= i < |kws| && q in keywords && q !in Keywords(kws) ==> kws[i].weight >= keywords[q])
  }

  function HeaviestKeyword(wk: WeightedKeyword): real {
    -wk.weight
  }

  /** List a map's items in an arbitrary order. */
  method ListKeywords(keywords: map<Keyword, real>) returns (kws: seq<WeightedKeyword>)
    ensures DistinctKeywords(kws) && |kws| == |keywords|
    ensures forall wk :: wk in kws <==> wk.keyword in keywords && wk.weight == keywords[wk.keyword]
  {
    kws := [];
    var remaining := keywords.Keys;
    while remaining != {}
      invariant remaining <= keywords.Keys && |kws| + |remaining| == |keywords.Keys|
      invariant DistinctKeywords(kws)
      invariant forall wk :: wk in kws <==>
                  wk.keyword in keywords.Keys && wk.keyword !in remaining && wk.weight == keywords[wk.keyword]
      decreases remaining
    {
      var q :| q in remaining;
      remaining := remaining - {q};
      forall i | 0 <= i < |kws| ensures kws[i].keyword != q {
        assert kws[i] in kws;
      }
      kws := kws + [WeightedKeyword(q, keywords[q])];
    }
  }

  lemma TopKeywords(keywords: map<Keyword, real>, k: nat, listed: seq<WeightedKeyword>)
    requires DistinctKeywords(listed) && |listed| == |keywords|
    requires forall wk :: wk in listed <==> wk.keyword in keywords && wk.weight == keywords[wk.keyword]
    ensures IsTopOf(keywords, k, Top(HeaviestKeyword, listed, k))
  {
    hide Top;
    var kws := Top(HeaviestKeyword, listed, k);
    var cut := TopIsTop(HeaviestKeyword, listed, k);
    PermutationMembers(listed, kws + cut);
    forall i | 0 <= i < |kws| ensures kws[i] in listed {
      assert (kws + cut)[i] == kws[i];
    }
    forall i, j | 0 <= i < j < |kws| ensures kws[i].keyword != kws[j].keyword && kws[i].weight >= kws[j].weight {
      assert (kws + cut)[i] != (kws + cut)[j];
      assert HeaviestKeyword(kws[i]) <= HeaviestKeyword(kws[j]);
    }
    forall i, q | 0 <= i < |kws| && q in keywords && q !in Keywords(kws) ensures kws[i].weight >= keywords[q] {
      var wk := WeightedKeyword(q, keywords[q]);
      assert wk in kws + cut;
      assert HeaviestKeyword(kws[i]) <= HeaviestKeyword(wk);
    }
  }

  ghost predicate DistinctIds(profiles: seq<Profile>) {
    forall i, j :: 0 <= i < j < |profiles| ==> profiles[i].docId != profiles[j].docId
  }

  function IdsOf(profiles: seq<Profile>): (r: seq<DocId>)
    ensures |r| == |profiles| && forall i :: 0 <= i < |profiles| ==> r[i] == profiles[i].docId
  {
    seq(|profiles|, i requires 0 <= i < |profiles| => profiles[i].docId)
  }

  /** The id is not used again later. */
  ghost predicate LastOfId(ids: seq<DocId>, i: nat)
    requires i < |ids|
  {
    forall j :: i < j < |ids| ==> ids[j] != ids[i]
  }

  /** One node per id, made from the last profile of that id and carrying its top keywords. */
  ghost predicate NodesFrom(cfg: Config, profiles: seq<Profile>, nodes: Nodes) {
    && NodesOk(nodes)
    && (forall d :: d in nodes <==> d in IdsOf(profiles))
    && (forall i :: 0 <= i < |profiles| && LastOfId(IdsOf(profiles), i) ==>
          var p := profiles[i];
          p.docId in nodes && nodes[p.docId].title == p.title && nodes[p.docId].format == p.format
          && nodes[p.docId].nodeCount == p.nodeCount
          && IsTopOf(p.keywords, cfg.maxKeywords, nodes[p.docId].topKeywords))
  }

  type Tops = seq<seq<WeightedKeyword>>

  /** What each profile brings along: its top keywords, in the order of the profiles. */
  ghost predicate TopsOf(cfg: Config, profiles: seq<Profile>, tops: Tops) {
    && |tops| == |profiles|
    && forall i :: 0 <= i < |tops| ==>
         IsTopOf(profiles[i].keywords, cfg.maxKeywords, tops[i]) && DistinctKeywords(tops[i])
  }

  /** Each id's node carries the top keywords of the id's last position. */
  ghost predicate NodesCarry(ids: seq<DocId>, tops: Tops, nodes: Nodes)
    requires |tops| == |ids|
  {
    && (forall d :: d in nodes <==> d in ids)
    && forall i :: 0 <= i < |ids| && LastOfId(ids, i) ==> ids[i] in nodes && nodes[ids[i]].topKeywords == tops[i]
  }

  function WeightIn(kws: seq<WeightedKeyword>, kw: Keyword): real {
    if kws == [] then 0.0 else if kws[0].keyword == kw then kws[0].weight else WeightIn(kws[1..], kw)
  }

  lemma {:induction false} WeightIsIn(kws: seq<WeightedKeyword>, kw: Keyword)
    requires kw in Keywords(kws)
    ensures exists i :: 0 <= i < |kws| && kws[i] == WeightedKeyword(kw, WeightIn(kws, kw))
  {
    var i :| 0 <= i < |kws| && kws[i].keyword == kw;
    if kws[0].keyword == kw {
      assert kws[0] == WeightedKeyword(kw, WeightIn(kws, kw));
    } else {
      assert kws[1..][i - 1].keyword == kw;
      WeightIsIn(kws[1..], kw);
      var j :| 0 <= j < |kws[1..]| && kws[1..][j] == WeightedKeyword(kw, WeightIn(kws[1..], kw));
      assert kws[j + 1] == WeightedKeyword(kw, WeightIn(kws, kw));
    }
  }

  /** The positions whose top keywords have `kw`, in order. */
  function Carriers(tops: Tops, kw: Keyword): (r: seq<nat>)
    ensures forall x :: 0 <= x < |r| ==> r[x] < |tops| && kw in Keywords(tops[r[x]])
    ensures forall x, y :: 0 <= x < y < |r| ==> r[x] < r[y]
    ensures forall i :: 0 <= i < |tops| && kw in Keywords(tops[i]) ==> i in r
  {
    if tops == [] then []
    else
      var n := |tops| - 1;
      Carriers(tops[..n], kw) + (if kw in Keywords(tops[n]) then [n] else [])
  }

  /** The entry that position `i` makes in the list of a keyword it carries. */
  function EntryAt(ids: seq<DocId>, tops: Tops, kw: Keyword, i: nat): KeywordEntry
    requires i < |ids| == |tops|
  {
    KeywordEntry(ids[i], WeightIn(tops[i], kw))
  }

  /** A keyword's list: one entry for each position that carries it. */
  function Listed(ids: seq<DocId>, tops: Tops, kw: Keyword): (r: seq<KeywordEntry>)
    requires |ids| == |tops|
    ensures |r| == |Carriers(tops, kw)|
    ensures forall x :: 0 <= x < |r| ==> r[x] == EntryAt(ids, tops, kw, Carriers(tops, kw)[x])
  {
    var c := Carriers(tops, kw);
    seq(|c|, x requires 0 <= x < |c| => EntryAt(ids, tops, kw, c[x]))
  }

  /** The index has these lists. */
  ghost predicate IndexLists(ids: seq<DocId>, tops: Tops, index: KeywordIndex)
    requires |ids| == |tops|
  {
    forall kw :: ListAt(index, kw) == Listed(ids, tops, kw)
  }

  lemma ListedStep(ids: seq<DocId>, tops: Tops, index: KeywordIndex, id: DocId, top: seq<WeightedKeyword>)
    requires |ids| == |tops| && IndexLists(ids, tops, index) && DistinctKeywords(top)
    ensures IndexLists(ids + [id], tops + [top], IndexWith(index, id, top))
  {
    hide IndexWith, WeightIn, DistinctKeywords;
    forall kw ensures ListAt(IndexWith(index, id, top), kw) == Listed(ids + [id], tops + [top], kw) {
      IndexWithLists(index, id, top, kw);
      CarriersStep(tops, top, kw);
      ListedMore(ids, tops, id, top, kw);
      assert ListAt(index, kw) == Listed(ids, tops, kw);
      if kw in Keywords(top) {
        WeightIsIn(top, kw);
      }
    }
  }

  lemma CarriersStep(tops: Tops, top: seq<WeightedKeyword>, kw: Keyword)
    ensures Carriers(tops + [top], kw) == Carriers(tops, kw) + (if kw in Keywords(top) then [|tops|] else [])
  {
    assert (tops + [top])[..|tops|] == tops;
  }

  lemma ListedMore(ids: seq<DocId>, tops: Tops, id: DocId, top: seq<WeightedKeyword>, kw: Keyword)
    requires |ids| == |tops|
    ensures Listed(ids + [id], tops + [top], kw)
         == Listed(ids, tops, kw) + (if kw in Keywords(top) then [KeywordEntry(id, WeightIn(top, kw))] else [])
  {
    hide WeightIn, Carriers;
    CarriersStep(tops, top, kw);
  }

  lemma NodesCarryStep(ids: seq<DocId>, tops: Tops, nodes: Nodes, node: GraphNode)
    requires |ids| == |tops| && NodesCarry(ids, tops, nodes)
    ensures NodesCarry(ids + [node.docId], tops + [node.topKeywords], nodes[node.docId := node])
  {
    var more := ids + [node.docId];
    forall i | 0 <= i < |ids| && LastOfId(more, i) ensures ids[i] != node.docId && LastOfId(ids, i) {
      assert more[|ids|] == node.docId && more[i] == ids[i];
      forall j | i < j < |ids| ensures ids[j] != ids[i] {
        assert more[j] == ids[j];
      }
    }
  }

  lemma NothingListed()
    ensures NodesCarry([], [], map[]) && IndexLists([], [], map[]) && IdsOf([]) == []
  {
  }

  class DocumentGraphBuilder {
    var config: Config
    var profiles: seq<Profile>

    constructor (config: Config)
      ensures this.config == config && profiles == []
    {
      this.config := config;
      profiles := [];
    }

    method AddDocument(docId: DocId, title: string, format: string, nodeCount: nat, keywords: map<Keyword, real>)
      modifies this`profiles
      ensures profiles == old(profiles) + [Profile(docId, title, format, nodeCount, keywords)]
    {
      profiles := profiles + [Profile(docId, title, format, nodeCount, keywords)];
    }

    /**
     * Step 1: a node per profile, a later one of the same id taking its place; the keyword index lists the positions
     * of all profiles, and is in step with the nodes if no id repeats.
     */
    method AddNodes(g: DocumentGraph) returns (ghost tops: Tops)
      requires g.Valid() && g.nodes == map[] && g.edges == map[] && g.keywordIndex == map[]
      modifies g
      ensures g.Valid() && g.edges == map[]
      ensures NodesFrom(config, profiles, g.nodes)
      ensures TopsOf(config, profiles, tops) && |tops| == |IdsOf(profiles)|
      ensures NodesCarry(IdsOf(profiles), tops, g.nodes) && IndexLists(IdsOf(profiles), tops, g.keywordIndex)
      ensures IndexOrdered(IdsOf(profiles), g.keywordIndex)
      ensures DistinctIds(profiles) ==> IndexMatches(g.nodes, g.keywordIndex)
    {
      hide DistinctIds, NodesFrom, TopsOf, NodesCarry, IndexLists, IsTopOf, IndexMatches, IndexOrdered, IndexWith,
           IdsOf, TotalEdges, DistinctKeywords;
      EmptyGraph();
      NothingListed();
      tops := [];
      NoTops(config);
      assert profiles[..0] == [];
      for i := 0 to |profiles|
        invariant g.Valid() && g.edges == map[]
        invariant NodesFrom(config, profiles[..i], g.nodes)
        invariant TopsOf(config, profiles[..i], tops) && |tops| == |IdsOf(profiles[..i])|
        invariant NodesCarry(IdsOf(profiles[..i]), tops, g.nodes)
        invariant IndexLists(IdsOf(profiles[..i]), tops, g.keywordIndex)
        invariant IndexOrdered(IdsOf(profiles[..i]), g.keywordIndex)
        invariant DistinctIds(profiles) ==> IndexMatches(g.nodes, g.keywordIndex)
      {
        var node := NodeOf(profiles[i]);
        StepDone(config, profiles, i, tops, g.nodes, g.keywordIndex, node);
        g.AddNode(node);
        tops := tops + [node.topKeywords];
      }
      assert profiles[..|profiles|] == profiles;
    }

    /** A profile's node carries its heaviest keywords. */
    method NodeOf(p: Profile) returns (node: GraphNode)
      ensures node.docId == p.docId && node.title == p.title && node.format == p.format && node.nodeCount == p.nodeCount
      ensures IsTopOf(p.keywords, config.maxKeywords, node.topKeywords) && DistinctKeywords(node.topKeywords)
    {
      hide IsTopOf, Top;
      var listed := ListKeywords(p.keywords);
      TopKeywords(p.keywords, config.maxKeywords, listed);
      var top := Top(HeaviestKeyword, listed, config.maxKeywords);
      TopDistinct(p.keywords, config.maxKeywords, top);
      node := GraphNode(p.docId, p.title, p.format, top, p.nodeCount);
    }

    /**
     * Steps 2 and 3: edges for all pairs that meet the thresholds. With an index in step with the nodes these are the
     * edges of the all-pairs definition.
     */
    method ComputeEdges(g: DocumentGraph, ghost order: seq<DocId>) returns (ghost pairs: PairMap)
      requires g.Valid() && g.edges == map[] && NodesOk(g.nodes)
      modifies g`edges, g`edgeCount
      ensures g.Valid()
      ensures NoEmptyLists(pairs) && PairsFrom(g.keywordIndex, g.keywordIndex.Keys, pairs)
      ensures EdgesFrom(g.nodes, config, pairs, pairs.Keys, g.edges)
      ensures InStep(g.nodes, order, g.keywordIndex) ==> EdgesExact(g.nodes, order, config, g.edges)
    {
      hide EdgesSoFar, Collected, NodesOk, EdgesExact, EdgesFrom, WithEdgesFor, PairsFrom, TotalEdges, NoEmptyLists,
           InStep, PairsAfter, PairKeywords, BothCarry;
      var found := CollectPairs(g.nodes, order, g.keywordIndex);
      pairs := found;
      PairsCollected(g.nodes, order, g.keywordIndex, found);
      var remaining := found.Keys;
      ghost var done: set<Pair> := {};
      NoEdges(g.nodes, order, config, found);
      NoEdgesSoFar(g.nodes, order, config, g.keywordIndex, found);
      while remaining != {}
        invariant g.Valid() && remaining <= found.Keys && done == found.Keys - remaining
        invariant EdgesSoFar(g.nodes, order, config, g.keywordIndex, found, done, g.edges)
        decreases remaining
      {
        var pair :| pair in remaining;
        remaining := remaining - {pair};
        OnePairMore(g.nodes, order, config, g.keywordIndex, found, done, pair, g.edges);
        AddEdgesFor(g, pair, found[pair]);
        done := done + {pair};
      }
      assert done == found.Keys;
      AllPairsDone(g.nodes, order, config, g.keywordIndex, found, g.edges);
    }

    /** The body of the second loop. */
    method AddEdgesFor(g: DocumentGraph, pair: Pair, shared: seq<SharedKeyword>)
      requires g.Valid()
      modifies g`edges, g`edgeCount
      ensures g.Valid() && g.edges == WithEdgesFor(g.nodes, config, old(g.edges), pair, shared)
    {
      hide EdgesFor, TotalEdges;
      var (a, b) := pair;
      var made := EdgesFor(g.nodes, config, a, b, shared);
      if made.Some? {
        g.AddEdge(a, made.value.0);
        g.AddEdge(b, made.value.1);
      }
    }

    /** Step 4: sort each source's edges by weight and cut the list. */
    method TrimEdges(g: DocumentGraph)
      requires g.Valid()
      modifies g`edges, g`edgeCount
      ensures g.Valid() && Trims(old(g.edges), g.edges, config.maxEdges)
    {
      hide Top, TotalEdges;
      var all := g.TakeEdges();
      var trimmed: Edges := map[];
      var remaining := all.Keys;
      while remaining != {}
        invariant remaining <= all.Keys && trimmed.Keys == all.Keys - remaining
        invariant forall a :: a in trimmed ==> trimmed[a] == Top(Heaviest, all[a], config.maxEdges)
        decreases remaining
      {
        var source :| source in remaining;
        remaining := remaining - {source};
        trimmed := trimmed[source := Top(Heaviest, all[source], config.maxEdges)];
      }
      g.SetEdges(trimmed);
    }

    /**
     * The whole build. `full` is the edge set before trimming, made from the pairs of positions in the index, and
     * `tops` are the profiles' top keywords. The edges are those of the all-pairs definition if no superseded profile
     * shares a top keyword with another one, as with distinct ids; with the most lenient thresholds only then.
     */
    method Build() returns (g: DocumentGraph, ghost full: Edges, ghost tops: Tops)
      ensures g.Valid() && NodesFrom(config, profiles, g.nodes)
      ensures TopsOf(config, profiles, tops) && |tops| == |IdsOf(profiles)|
      ensures NodesCarry(IdsOf(profiles), tops, g.nodes) && IndexLists(IdsOf(profiles), tops, g.keywordIndex)
      ensures FullFrom(g.nodes, config, g.keywordIndex, full)
      ensures NoRivals(IdsOf(profiles), tops) ==> EdgesExact(g.nodes, IdsOf(profiles), config, full)
      ensures Lenient(config) && EdgesExact(g.nodes, IdsOf(profiles), config, full) ==> NoRivals(IdsOf(profiles), tops)
      ensures DistinctIds(profiles) ==>
                IndexMatches(g.nodes, g.keywordIndex) && EdgesExact(g.nodes, IdsOf(profiles), config, full)
      ensures Trims(full, g.edges, config.maxEdges)
      ensures NoRivals(IdsOf(profiles), tops) ==> BetterKept(g.nodes, full, g.edges)
    {
      hide BetterKept, DistinctIds, NodesFrom, TopsOf, NodesCarry, IndexLists, NoRivals, EdgesExact, IndexMatches,
           IndexOrdered,
           InStep, TotalEdges, Trims, PairsFrom, EdgesFrom, NoEmptyLists, IdsOf;
      g := new DocumentGraph();
      if profiles == [] {
        NothingBuilt(config);
        EmptyGraph();
        NothingListed();
        full, tops := map[], [];
        TrimKeepsBetter(g.nodes, [], config, full, g.edges);
        return;
      }
      tops := AddNodes(g);
      NodesFromOk(config, profiles, g.nodes);
      if NoRivals(IdsOf(profiles), tops) {
        NoRivalsInStep(IdsOf(profiles), tops, g.nodes, g.keywordIndex);
      }
      if DistinctIds(profiles) {
        MatchedIsInStep(g.nodes, IdsOf(profiles), g.keywordIndex);
      }
      ghost var pairs := ComputeEdges(g, IdsOf(profiles));
      full := g.edges;
      assert MadeFrom(g.nodes, config, g.keywordIndex, pairs, full);
      if Lenient(config) && !NoRivals(IdsOf(profiles), tops) {
        RivalsNotExact(IdsOf(profiles), tops, g.nodes, config, g.keywordIndex, pairs, full);
      }
      TrimEdges(g);
      if NoRivals(IdsOf(profiles), tops) {
        TrimKeepsBetter(g.nodes, IdsOf(profiles), config, full, g.edges);
      }
    }
  }

  lemma EmptyGraph()
    ensures IndexMatches(map[], map[]) && IndexOrdered([], map[])
    ensures forall cfg :: NodesFrom(cfg, [], map[])
  {
    forall kw ensures EntriesMatch(map[], kw, ListAt(map[], kw)) {
    }
  }

  lemma NoTops(cfg: Config)
    ensures TopsOf(cfg, [], [])
  {
  }

  /** What adding one more profile's node leaves true. */
  lemma StepDone(cfg: Config, profiles: seq<Profile>, i: nat, tops: Tops, nodes: Nodes, index: KeywordIndex,
                 node: GraphNode)
    requires i < |profiles| && NodesFrom(cfg, profiles[..i], nodes) && TopsOf(cfg, profiles[..i], tops)
    requires |tops| == |IdsOf(profiles[..i])| && NodesCarry(IdsOf(profiles[..i]), tops, nodes)
    requires IndexLists(IdsOf(profiles[..i]), tops, index) && IndexOrdered(IdsOf(profiles[..i]), index)
    requires var p := profiles[i];
      && node.docId == p.docId && node.title == p.title && node.format == p.format && node.nodeCount == p.nodeCount
      && IsTopOf(p.keywords, cfg.maxKeywords, node.topKeywords) && DistinctKeywords(node.topKeywords)
    ensures var (nodes', tops') := (nodes[node.docId := node], tops + [node.topKeywords]);
      var index' := IndexWith(index, node.docId, node.topKeywords);
      && NodesFrom(cfg, profiles[..i + 1], nodes') && TopsOf(cfg, profiles[..i + 1], tops')
      && |tops'| == |IdsOf(profiles[..i + 1])| && NodesCarry(IdsOf(profiles[..i + 1]), tops', nodes')
      && IndexLists(IdsOf(profiles[..i + 1]), tops', index') && IndexOrdered(IdsOf(profiles[..i + 1]), index')
    ensures DistinctIds(profiles) ==> node.docId !in nodes
  {
    hide DistinctIds, NodesFrom, NodesCarry, IndexLists, IndexOrdered, IndexWith, IsTopOf, DistinctKeywords, IdsOf;
    OneProfileMore(profiles, i);
    NodesStep(cfg, profiles[..i], profiles[i], nodes, node);
    NodesCarryStep(IdsOf(profiles[..i]), tops, nodes, node);
    ListedStep(IdsOf(profiles[..i]), tops, index, node.docId, node.topKeywords);
    IndexStaysOrdered(IdsOf(profiles[..i]), index, node.docId, node.topKeywords);
    if DistinctIds(profiles) {
      NewId(cfg, profiles, i, nodes);
    }
  }

  lemma NothingBuilt(cfg: Config)
    ensures NodesFrom(cfg, [], map[]) && EdgesExact(map[], [], cfg, map[]) && Trims(map[], map[], cfg.maxEdges)
    ensures IdsOf([]) == [] && TopsOf(cfg, [], []) && NoRivals([], []) && FullFrom(map[], cfg, map[], map[])
  {
    NoEdges(map[], [], cfg, map[]);
    EmptyPairs(map[], [], map[]);
    assert MadeFrom(map[], cfg, map[], map[], map[]);
  }

  lemma NoEdges(nodes: Nodes, order: seq<DocId>, cfg: Config, pairs: PairMap)
    ensures EdgesAfter(nodes, order, cfg, {}, map[]) && EdgesFrom(nodes, cfg, pairs, {}, map[])
  {
  }

  lemma TopDistinct(keywords: map<Keyword, real>, k: nat, kws: seq<WeightedKeyword>)
    requires IsTopOf(keywords, k, kws)
    ensures DistinctKeywords(kws)
  {
  }

  lemma OrderedPair(nodes: Nodes, order: seq<DocId>, p: Pair, shared: seq<SharedKeyword>)
    requires IsShared(nodes, order, p, shared)
    ensures LexLess(p.0, p.1)
  {
  }

  lemma NodesFromOk(cfg: Config, profiles: seq<Profile>, nodes: Nodes)
    requires NodesFrom(cfg, profiles, nodes)
    ensures NodesOk(nodes)
  {
  }

  /** What `CollectPairs` promises of the pairs when the index is in step. */
  ghost predicate Collected(nodes: Nodes, order: seq<DocId>, index: KeywordIndex, pairs: PairMap) {
    InStep(nodes, order, index) ==>
      && PairsAfter(nodes, order, index.Keys, pairs)
      && forall p: Pair, kw :: kw in PairKeywords(pairs, p) <==> BothCarry(nodes, p, kw)
  }

  lemma PairsCollected(nodes: Nodes, order: seq<DocId>, index: KeywordIndex, pairs: PairMap)
    requires InStep(nodes, order, index) ==>
               && PairsAfter(nodes, order, index.Keys, pairs)
               && forall p: Pair, kw :: kw in PairKeywords(pairs, p) <==> BothCarry(nodes, p, kw)
    ensures Collected(nodes, order, index, pairs)
  {
    hide InStep, PairsAfter, PairKeywords, BothCarry;
  }

  /** The edges once the pairs of `done` are treated. */
  ghost predicate EdgesSoFar(nodes: Nodes, order: seq<DocId>, cfg: Config, index: KeywordIndex, pairs: PairMap,
                             done: set<Pair>, edges: Edges)
    requires done <= pairs.Keys
  {
    && EdgesFrom(nodes, cfg, pairs, done, edges)
    && (InStep(nodes, order, index) ==> EdgesAfter(nodes, order, cfg, done, edges))
  }

  lemma NoEdgesSoFar(nodes: Nodes, order: seq<DocId>, cfg: Config, index: KeywordIndex, pairs: PairMap)
    ensures EdgesSoFar(nodes, order, cfg, index, pairs, {}, map[])
  {
    hide InStep, EdgesAfter, EdgesFrom;
    NoEdges(nodes, order, cfg, pairs);
  }

  lemma OnePairMore(nodes: Nodes, order: seq<DocId>, cfg: Config, index: KeywordIndex, pairs: PairMap, done: set<Pair>,
                    p: Pair, edges: Edges)
    requires NodesOk(nodes) && Collected(nodes, order, index, pairs) && done <= pairs.Keys && p in pairs && p !in done
    requires EdgesSoFar(nodes, order, cfg, index, pairs, done, edges)
    ensures EdgesSoFar(nodes, order, cfg, index, pairs, done + {p}, WithEdgesFor(nodes, cfg, edges, p, pairs[p]))
  {
    hide NodesOk, InStep, EdgesAfter, EdgesFrom, WithEdgesFor, PairsAfter, PairKeywords, BothCarry, IsShared;
    EdgesFromStep(nodes, cfg, pairs, done, p, edges);
    if InStep(nodes, order, index) {
      CollectedIsShared(nodes, order, index.Keys, pairs, p);
      PairProcessed(nodes, order, cfg, done, p, pairs[p], edges);
    }
  }

  lemma AllPairsDone(nodes: Nodes, order: seq<DocId>, cfg: Config, index: KeywordIndex, pairs: PairMap, edges: Edges)
    requires Collected(nodes, order, index, pairs) && EdgesSoFar(nodes, order, cfg, index, pairs, pairs.Keys, edges)
    ensures EdgesFrom(nodes, cfg, pairs, pairs.Keys, edges)
    ensures InStep(nodes, order, index) ==> EdgesExact(nodes, order, cfg, edges)
  {
    hide InStep, EdgesAfter, EdgesFrom, EdgesExact, PairsAfter, PairKeywords, BothCarry;
    if InStep(nodes, order, index) {
      AfterAllPairs(nodes, order, cfg, pairs, edges);
    }
  }

  /** One pair of the second loop, when the index is in step. */
  lemma PairProcessed(nodes: Nodes, order: seq<DocId>, cfg: Config, done: set<Pair>, p: Pair,
                      shared: seq<SharedKeyword>, edges: Edges)
    requires NodesOk(nodes) && EdgesAfter(nodes, order, cfg, done, edges) && p !in done
    requires IsShared(nodes, order, p, shared)
    ensures EdgesAfter(nodes, order, cfg, done + {p}, WithEdgesFor(nodes, cfg, edges, p, shared))
  {
    hide NodesOk, EdgesAfter, EdgeFits, Qualifies, EdgesFor, IsShared, LexLess;
    EdgesForExact(nodes, order, cfg, p, shared);
    var made := EdgesFor(nodes, cfg, p.0, p.1, shared);
    if made.Some? {
      OrderedPair(nodes, order, p, shared);
      EdgesStep(nodes, order, cfg, done, p, edges, made.value.0, made.value.1);
    } else {
      EdgesSkip(nodes, order, cfg, done, p, edges);
    }
  }

  lemma NewId(cfg: Config, profiles: seq<Profile>, i: nat, nodes: Nodes)
    requires i < |profiles| && DistinctIds(profiles) && NodesFrom(cfg, profiles[..i], nodes)
    ensures profiles[i].docId !in nodes
  {
    hide IsTopOf;
    assert profiles[i].docId !in IdsOf(profiles[..i]);
  }

  lemma OneProfileMore(profiles: seq<Profile>, i: nat)
    requires i < |profiles|
    ensures profiles[..i + 1] == profiles[..i] + [profiles[i]]
    ensures IdsOf(profiles[..i + 1]) == IdsOf(profiles[..i]) + [profiles[i].docId]
  {
  }

  lemma NodesStep(cfg: Config, profiles: seq<Profile>, p: Profile, nodes: Nodes, node: GraphNode)
    requires NodesFrom(cfg, profiles, nodes)
    requires IsTopOf(p.keywords, cfg.maxKeywords, node.topKeywords) && DistinctKeywords(node.topKeywords)
    requires node.docId == p.docId && node.title == p.title && node.format == p.format && node.nodeCount == p.nodeCount
    ensures NodesFrom(cfg, profiles + [p], nodes[node.docId := node])
  {
    hide IsTopOf, DistinctKeywords;
    var more, nodes' := profiles + [p], nodes[node.docId := node];
    assert IdsOf(more) == IdsOf(profiles) + [p.docId];
    forall i | 0 <= i < |profiles| && LastOfId(IdsOf(more), i)
      ensures profiles[i].docId != p.docId && LastOfId(IdsOf(profiles), i)
    {
      assert IdsOf(more)[|profiles|] == p.docId && IdsOf(more)[i] == profiles[i].docId;
      forall j | i < j < |profiles| ensures IdsOf(profiles)[j] != IdsOf(profiles)[i] {
        assert IdsOf(more)[j] == profiles[j].docId;
      }
    }
  }

  // ----- Consequences -----

  /** Before trimming the edges are symmetric, with equal weights, and there are no loops. */
  lemma FullGraphSymmetric(nodes: Nodes, order: seq<DocId>, cfg: Config, full: Edges, a: DocId, e: GraphEdge)
    requires EdgesExact(nodes, order, cfg, full) && e in ListAt(full, a)
    ensures e.target != a && 0.0 <= e.weight <= 1.0
    ensures exists f :: f in ListAt(full, e.target) && f.target == a && f.weight == e.weight
  {
    hide LexLess, EdgeWeight;
    var b := e.target;
    assert SourceExact(nodes, order, cfg, a, ListAt(full, a)) && SourceExact(nodes, order, cfg, b, ListAt(full, b));
    QualifiesSymmetric(nodes, cfg, a, b);
    var i :| 0 <= i < |ListAt(full, b)| && ListAt(full, b)[i].target == a;
    var f := ListAt(full, b)[i];
    assert f in ListAt(full, b);
    assert TopSet(nodes, a) * TopSet(nodes, b) == TopSet(nodes, b) * TopSet(nodes, a);
  }

  /**
   * An edge that survives trimming is one of the full graph; one that does not has `maxEdges` at least as heavy
   * rivals.
   */
  lemma TrimmedEdges(full: Edges, trimmed: Edges, k: nat, a: DocId, e: GraphEdge)
    requires Trims(full, trimmed, k)
    ensures e in ListAt(trimmed, a) ==> e in ListAt(full, a)
    ensures e in ListAt(full, a) && e !in ListAt(trimmed, a) ==>
              |ListAt(trimmed, a)| == k && forall f :: f in ListAt(trimmed, a) ==> f.weight >= e.weight
    ensures |ListAt(trimmed, a)| <= k
  {
    hide Top;
    if a in full {
      var kept := Top(Heaviest, full[a], k);
      var cut := TrimKeepsHeaviest(full[a], k);
      assert e in multiset(full[a]) <==> e in multiset(kept) + multiset(cut);
      assert e in full[a] <==> e in multiset(full[a]);
      if e in full[a] && e !in kept {
        assert e in cut;
      }
    }
  }

  // ----- What weights mean -----

  /** How many keywords two documents share. */
  function SharedCount(nodes: Nodes, a: DocId, b: DocId): nat {
    |TopSet(nodes, a) * TopSet(nodes, b)|
  }

  /** How many keywords they have together. */
  function UnionCount(nodes: Nodes, a: DocId, b: DocId): nat {
    |TopSet(nodes, a) + TopSet(nodes, b)|
  }

  /** `a` and `b` share a smaller part of their keywords than `c` and `d`. */
  predicate LessSimilar(nodes: Nodes, a: DocId, b: DocId, c: DocId, d: DocId) {
    SharedCount(nodes, a, b) * UnionCount(nodes, c, d) < SharedCount(nodes, c, d) * UnionCount(nodes, a, b)
  }

  predicate EquallySimilar(nodes: Nodes, a: DocId, b: DocId, c: DocId, d: DocId) {
    SharedCount(nodes, a, b) * UnionCount(nodes, c, d) == SharedCount(nodes, c, d) * UnionCount(nodes, a, b)
  }

  /**
   * Edges by weight. With no more keywords shared and less similarity an edge is lighter; at equal similarity it is
   * lighter with fewer keywords shared, up to the maximal number. The weight is one exactly for equal keyword sets with
   * at least the maximal number.
   */
  lemma WeightOrder(nodes: Nodes, order: seq<DocId>, cfg: Config, full: Edges, a: DocId, e: GraphEdge, b: DocId,
                    f: GraphEdge)
    requires EdgesExact(nodes, order, cfg, full) && e in ListAt(full, a) && f in ListAt(full, b)
    ensures LessSimilar(nodes, a, e.target, b, f.target) ==>
              SharedCount(nodes, a, e.target) <= SharedCount(nodes, b, f.target) ==> e.weight < f.weight
    ensures EquallySimilar(nodes, a, e.target, b, f.target) ==>
              SharedCount(nodes, a, e.target) < SharedCount(nodes, b, f.target) ==>
                SharedCount(nodes, a, e.target) < Max(cfg.maxKeywords, 1) ==> e.weight < f.weight
    ensures e.weight == 1.0 <==>
            TopSet(nodes, a) == TopSet(nodes, e.target) && SharedCount(nodes, a, e.target) >= Max(cfg.maxKeywords, 1)
  {
    hide EdgeWeight, EvidenceFits, TopSet, Qualifies;
    ExactWeight(nodes, order, cfg, full, a, e);
    ExactWeight(nodes, order, cfg, full, b, f);
    var (n, u) := (SharedCount(nodes, a, e.target), UnionCount(nodes, a, e.target));
    var (n', u') := (SharedCount(nodes, b, f.target), UnionCount(nodes, b, f.target));
    WeightGrows(cfg, n, u, n', u');
    WeightOne(cfg, n, u);
    InclusionExclusion(TopSet(nodes, a), TopSet(nodes, e.target));
    SameCounts(TopSet(nodes, a), TopSet(nodes, e.target));
  }

  /** Two weights at a limit of ten keywords: two of two shared, and one of five. */
  lemma SampleWeights(nodes: Nodes, order: seq<DocId>, cfg: Config, full: Edges, a: DocId, e: GraphEdge)
    requires EdgesExact(nodes, order, cfg, full) && e in ListAt(full, a) && cfg.maxKeywords == 10
    ensures SharedCount(nodes, a, e.target) == UnionCount(nodes, a, e.target) == 2 ==> e.weight == 0.68
    ensures SharedCount(nodes, a, e.target) == 1 && UnionCount(nodes, a, e.target) == 5 ==> e.weight == 0.16
  {
    hide EdgesExact, TopSet;
    ExactWeight(nodes, order, cfg, full, a, e);
  }

  lemma SameCounts<T>(x: set<T>, y: set<T>)
    ensures |x * y| == |x + y| <==> x == y
  {
    SubsetSize(x * y, x);
    SubsetSize(x, x + y);
    SubsetSize(y, x + y);
    SubsetSize(x * y, y);
    if x == y {
      assert x * y == x && x + y == x;
    }
  }

  lemma ExactWeight(nodes: Nodes, order: seq<DocId>, cfg: Config, full: Edges, a: DocId, e: GraphEdge)
    requires EdgesExact(nodes, order, cfg, full) && e in ListAt(full, a)
    ensures 1 <= SharedCount(nodes, a, e.target) <= UnionCount(nodes, a, e.target)
    ensures e.weight == EdgeWeight(cfg, SharedCount(nodes, a, e.target),
                                   SharedCount(nodes, a, e.target) as real / UnionCount(nodes, a, e.target) as real)
  {
    hide EdgeWeight, EvidenceFits;
    assert SourceExact(nodes, order, cfg, a, ListAt(full, a));
    assert EdgeFits(nodes, order, cfg, a, e);
    InclusionExclusion(TopSet(nodes, a), TopSet(nodes, e.target));
  }

  lemma WeightGrows(cfg: Config, n: nat, u: nat, n': nat, u': nat)
    requires 1 <= n <= u && 1 <= n' <= u'
    ensures n <= n' && n * u' < n' * u ==>
              EdgeWeight(cfg, n, n as real / u as real) < EdgeWeight(cfg, n', n' as real / u' as real)
    ensures n < n' && n < Max(cfg.maxKeywords, 1) && n * u' == n' * u ==>
              EdgeWeight(cfg, n, n as real / u as real) < EdgeWeight(cfg, n', n' as real / u' as real)
  {
    var (j, j') := (n as real / u as real, n' as real / u' as real);
    RatioInUnit(n as real, u as real);
    RatioInUnit(n' as real, u' as real);
    RatioOrder(n, u, n', u');
    CountPart(cfg, n, n');
    WeightUncut(cfg, n, j);
    WeightUncut(cfg, n', j');
  }

  /** The part of the weight that comes from the number of shared keywords. */
  function CountShare(cfg: Config, n: nat): real {
    RealMin(n as real / (Max(cfg.maxKeywords, 1) as real), 1.0)
  }

  lemma CountPart(cfg: Config, n: nat, n': nat)
    ensures 0.0 <= CountShare(cfg, n) <= 1.0
    ensures n <= n' ==> CountShare(cfg, n) <= CountShare(cfg, n')
    ensures n < n' && n < Max(cfg.maxKeywords, 1) ==> CountShare(cfg, n) < CountShare(cfg, n')
    ensures CountShare(cfg, n) == 1.0 <==> n >= Max(cfg.maxKeywords, 1)
  {
    var m := Max(cfg.maxKeywords, 1);
    QuotientOrder(n, n', m);
    QuotientOrder(n, m, m);
    QuotientOrder(0, n, m);
  }

  lemma QuotientOrder(n: nat, n': nat, m: nat)
    requires m >= 1
    ensures n <= n' <==> n as real / m as real <= n' as real / m as real
    ensures m as real / m as real == 1.0 && 0.0 / m as real == 0.0
  {
    var (q, q', r) := (n as real / m as real, n' as real / m as real, m as real);
    assert q * r == n as real && q' * r == n' as real;
    if q <= q' {
      assert q * r <= q' * r;
    } else {
      assert q * r > q' * r;
    }
  }

  lemma RatioOrder(n: nat, u: nat, n': nat, u': nat)
    requires u >= 1 && u' >= 1
    ensures n * u' < n' * u <==> n as real / u as real < n' as real / u' as real
    ensures n * u' == n' * u <==> n as real / u as real == n' as real / u' as real
  {
    var (j, j', x, y) := (n as real / u as real, n' as real / u' as real, u as real, u' as real);
    assert j * x == n as real && j' * y == n' as real;
    assert (n * u') as real == j * (x * y);
    assert (n' * u) as real == j' * (x * y);
    Scaled(j, j', x * y);
  }

  lemma Scaled(j: real, j': real, s: real)
    requires s > 0.0
    ensures j * s < j' * s <==> j < j'
    ensures j * s == j' * s <==> j == j'
  {
    if j < j' {
      assert (j' - j) * s > 0.0;
    } else if j > j' {
      assert (j - j') * s > 0.0;
    }
  }

  /** Both parts lie in the unit interval, so the outer cut does nothing. */
  lemma WeightUncut(cfg: Config, n: nat, j: real)
    requires 0.0 <= j <= 1.0
    ensures EdgeWeight(cfg, n, j) == j * 0.6 + CountShare(cfg, n) * 0.4
  {
    CountPart(cfg, n, n);
  }

  lemma WeightOne(cfg: Config, n: nat, u: nat)
    requires 1 <= n <= u
    ensures EdgeWeight(cfg, n, n as real / u as real) == 1.0 <==> n == u && n >= Max(cfg.maxKeywords, 1)
  {
    var j := n as real / u as real;
    RatioInUnit(n as real, u as real);
    WeightUncut(cfg, n, j);
    CountPart(cfg, n, n);
    RatioOrder(n, u, 1, 1);
  }

  /** No edge is cut in favour of one that shares no more keywords and is less similar. */
  ghost predicate BetterKept(nodes: Nodes, full: Edges, trimmed: Edges) {
    forall a, e, f ::
      e in ListAt(full, a) && e !in ListAt(trimmed, a) && f in ListAt(trimmed, a)
      && SharedCount(nodes, a, f.target) <= SharedCount(nodes, a, e.target) ==>
        !LessSimilar(nodes, a, f.target, a, e.target)
  }

  lemma TrimKeepsBetter(nodes: Nodes, order: seq<DocId>, cfg: Config, full: Edges, trimmed: Edges)
    requires EdgesExact(nodes, order, cfg, full) && Trims(full, trimmed, cfg.maxEdges)
    ensures BetterKept(nodes, full, trimmed)
  {
    hide EdgesExact, Trims, SharedCount, LessSimilar;
    forall a, e, f | e in ListAt(full, a) && e !in ListAt(trimmed, a) && f in ListAt(trimmed, a)
                     && SharedCount(nodes, a, f.target) <= SharedCount(nodes, a, e.target)
      ensures !LessSimilar(nodes, a, f.target, a, e.target)
    {
      TrimmedEdges(full, trimmed, cfg.maxEdges, a, e);
      TrimmedEdges(full, trimmed, cfg.maxEdges, a, f);
      WeightOrder(nodes, order, cfg, full, a, f, a, e);
    }
  }

  /**
   * Whose weight is whose. The first weight of a shared keyword is documented as the source's, but it belongs to
   * the document added first. It is the source's on every edge of a pair exactly when the pair's smaller id was
   * added first, or the two weights happen to be equal.
   */
  lemma EvidenceOwnership(nodes: Nodes, order: seq<DocId>, a: DocId, b: DocId, s: SharedKeyword, wa: real, wb: real)
    requires NodesOk(nodes) && Distinct(order) && a != b && EvidenceFits(nodes, order, a, b, s)
    requires HasWeight(nodes, a, s.keyword, wa) && HasWeight(nodes, b, s.keyword, wb)
    ensures s.sourceWeight == wa && s.targetWeight == wb
            <==> Before(order, PairKey(a, b).0, PairKey(a, b).1) || wa == wb
  {
    hide LexLess, Before;
    LexTotal(a, b);
    var p := PairKey(a, b);
    NotBothBefore(order, p.0, p.1);
    var s' := if LexLess(a, b) then s else Swap(s);
    WeightsUnique(nodes, p.0, s.keyword);
    WeightsUnique(nodes, p.1, s.keyword);
  }

  /** Profiles of "b" and then "a", sharing one keyword to which they give different weights. */
  function OutOfOrder(): seq<Profile> {
    [Profile("b", "B", "md", 1, map["k" := 0.5]), Profile("a", "A", "md", 1, map["k" := 1.0])]
  }

  const SMALL := Config(0.0, 1, 1, 1)

  /** In whatever is built from them, the edge from "a" announces b's weight as its source's. */
  lemma OwnershipFailsOutOfOrder(nodes: Nodes, full: Edges)
    requires NodesFrom(SMALL, OutOfOrder(), nodes) && EdgesExact(nodes, IdsOf(OutOfOrder()), SMALL, full)
    ensures HasWeight(nodes, "a", "k", 1.0) && HasWeight(nodes, "b", "k", 0.5)
    ensures exists e, s :: e in ListAt(full, "a") && e.target == "b" && s in e.evidence.sharedKeywords
                           && s.keyword == "k" && s.sourceWeight == 0.5
  {
    hide EdgeWeight, IsTopOf, Before;
    var order := IdsOf(OutOfOrder());
    assert order == ["b", "a"];
    assert LastOfId(order, 0) && LastOfId(order, 1);
    OneKeyword(OutOfOrder()[0].keywords, nodes["b"].topKeywords, 0.5);
    OneKeyword(OutOfOrder()[1].keywords, nodes["a"].topKeywords, 1.0);
    assert TopSet(nodes, "a") == {"k"} && TopSet(nodes, "b") == {"k"};
    assert {"k"} * {"k"} == {"k"} && {"k"} + {"k"} == {"k"};
    assert Qualifies(nodes, SMALL, "a", "b");
    assert SourceExact(nodes, order, SMALL, "a", ListAt(full, "a"));
    var i :| 0 <= i < |ListAt(full, "a")| && ListAt(full, "a")[i].target == "b";
    var e := ListAt(full, "a")[i];
    assert e in ListAt(full, "a");
    assert "k" in KeywordsOf(e.evidence.sharedKeywords);
    var j :| 0 <= j < |e.evidence.sharedKeywords| && e.evidence.sharedKeywords[j].keyword == "k";
    var s := e.evidence.sharedKeywords[j];
    assert s in e.evidence.sharedKeywords;
    BeforeOnlyFirst();
    assert LexLess("a", "b");
    WeightsUnique(nodes, "b", "k");
  }

  lemma BeforeOnlyFirst()
    ensures !Before(["b", "a"], "a", "b")
  {
  }

  lemma OneKeyword(keywords: map<Keyword, real>, kws: seq<WeightedKeyword>, w: real)
    requires keywords == map["k" := w] && IsTopOf(keywords, 1, kws)
    ensures kws == [WeightedKeyword("k", w)] && Keywords(kws) == {"k"}
  {
    assert keywords.Keys == {"k"} && |keywords| == 1;
    assert kws[0].keyword == "k";
  }

  /** Building them does come to that. */
  method BuildOutOfOrder() returns (g: DocumentGraph, ghost full: Edges)
    ensures EdgesExact(g.nodes, ["b", "a"], SMALL, full) && Trims(full, g.edges, 1)
    ensures HasWeight(g.nodes, "a", "k", 1.0)
    ensures exists e, s :: e in ListAt(full, "a") && e.target == "b" && s in e.evidence.sharedKeywords
                           && s.keyword == "k" && s.sourceWeight == 0.5
  {
    hide EdgesExact, Trims, NodesFrom, IndexMatches, HasWeight;
    var builder := new DocumentGraphBuilder(SMALL);
    builder.AddDocument("b", "B", "md", 1, map["k" := 0.5]);
    builder.AddDocument("a", "A", "md", 1, map["k" := 1.0]);
    assert builder.profiles == OutOfOrder();
    assert IdsOf(OutOfOrder()) == ["b", "a"] && DistinctIds(OutOfOrder());
    ghost var tops;
    g, full, tops := builder.Build();
    OwnershipFailsOutOfOrder(g.nodes, full);
  }

  lemma WeightsUnique(nodes: Nodes, d: DocId, kw: Keyword)
    requires NodesOk(nodes)
    ensures forall v, w :: HasWeight(nodes, d, kw, v) && HasWeight(nodes, d, kw, w) ==> v == w
  {
  }

  lemma NotBothBefore(order: seq<DocId>, x: DocId, y: DocId)
    requires Distinct(order)
    ensures !(Before(order, x, y) && Before(order, y, x))
  {
  }

  // ----- Repeated ids -----

  /** Position `i` is superseded by a later one of its id, and shares a top keyword with position `j`. */
  ghost predicate Rivals(ids: seq<DocId>, tops: Tops, i: nat, j: nat, kw: Keyword)
    requires |ids| == |tops|
  {
    i < |ids| && j < |ids| && i != j && !LastOfId(ids, i) && kw in Keywords(tops[i]) && kw in Keywords(tops[j])
  }

  /** No superseded position shares a top keyword with another position. */
  ghost predicate NoRivals(ids: seq<DocId>, tops: Tops)
    requires |ids| == |tops|
  {
    forall i: nat, j: nat, kw :: !Rivals(ids, tops, i, j, kw)
  }

  lemma DistinctHaveNoRivals(ids: seq<DocId>, tops: Tops)
    requires |ids| == |tops| && Distinct(ids)
    ensures NoRivals(ids, tops)
  {
  }

  /** Every id has a last position, and no position of the id lies behind it. */
  lemma {:induction false} LastPosition(ids: seq<DocId>, d: DocId, j: nat) returns (i: nat)
    requires j < |ids| && ids[j] == d
    ensures j <= i < |ids| && ids[i] == d && LastOfId(ids, i)
    decreases |ids| - j
  {
    i := j;
    if k :| j < k < |ids| && ids[k] == d {
      i := LastPosition(ids, d, k);
    }
  }

  /** Without rivals every list that makes pairs has last positions only, so the index is in step with the nodes. */
  lemma NoRivalsInStep(ids: seq<DocId>, tops: Tops, nodes: Nodes, index: KeywordIndex)
    requires |ids| == |tops| && NodesCarry(ids, tops, nodes) && IndexLists(ids, tops, index) && NoRivals(ids, tops)
    ensures InStep(nodes, ids, index)
  {
    hide NodesCarry, NoRivals, KeywordInStep, Listed;
    forall kw ensures KeywordInStep(nodes, ids, kw, ListAt(index, kw)) {
      CarriersAreListed(ids, tops, nodes, kw);
      if |Listed(ids, tops, kw)| >= 2 {
        ListMatches(ids, tops, nodes, kw);
        ListOrdered(ids, tops, kw);
      }
      StepParts(nodes, ids, kw, Listed(ids, tops, kw));
    }
  }

  lemma StepParts(nodes: Nodes, order: seq<DocId>, kw: Keyword, entries: seq<KeywordEntry>)
    requires forall d :: Carries(nodes, d, kw) ==> HasDoc(entries, d)
    requires |entries| >= 2 ==> EntriesMatch(nodes, kw, entries) && EntriesOrdered(order, entries)
    ensures KeywordInStep(nodes, order, kw, entries)
  {
  }

  lemma CarriersAreListed(ids: seq<DocId>, tops: Tops, nodes: Nodes, kw: Keyword)
    requires |ids| == |tops| && NodesCarry(ids, tops, nodes)
    ensures forall d :: Carries(nodes, d, kw) ==> HasDoc(Listed(ids, tops, kw), d)
  {
    hide Carriers, WeightIn;
    forall d | Carries(nodes, d, kw) ensures HasDoc(Listed(ids, tops, kw), d) {
      var j :| 0 <= j < |ids| && ids[j] == d;
      var i := LastPosition(ids, d, j);
      assert nodes[d].topKeywords == tops[i];
      var c := Carriers(tops, kw);
      assert i in c;
      var x :| 0 <= x < |c| && c[x] == i;
      assert Listed(ids, tops, kw)[x].docId == d;
    }
  }

  lemma ListMatches(ids: seq<DocId>, tops: Tops, nodes: Nodes, kw: Keyword)
    requires |ids| == |tops| && NodesCarry(ids, tops, nodes) && NoRivals(ids, tops) && |Listed(ids, tops, kw)| >= 2
    ensures EntriesMatch(nodes, kw, Listed(ids, tops, kw))
  {
    hide Carriers, WeightIn, Keywords;
    var (c, entries) := (Carriers(tops, kw), Listed(ids, tops, kw));
    forall x | 0 <= x < |c| ensures LastOfId(ids, c[x]) {
      var y := if x == 0 then 1 else 0;
      assert !Rivals(ids, tops, c[x], c[y], kw);
    }
    forall x | 0 <= x < |entries|
      ensures entries[x].docId in nodes
      ensures WeightedKeyword(kw, entries[x].weight) in nodes[entries[x].docId].topKeywords
    {
      WeightIsIn(tops[c[x]], kw);
      assert nodes[ids[c[x]]].topKeywords == tops[c[x]];
    }
    CarriersAreListed(ids, tops, nodes, kw);
    forall d | d in nodes && kw in Keywords(nodes[d].topKeywords) ensures HasDoc(entries, d) {
      assert Carries(nodes, d, kw);
    }
  }

  lemma ListOrdered(ids: seq<DocId>, tops: Tops, kw: Keyword)
    requires |ids| == |tops|
    ensures EntriesOrdered(ids, Listed(ids, tops, kw))
  {
    hide Carriers, WeightIn, Keywords;
    var (c, entries) := (Carriers(tops, kw), Listed(ids, tops, kw));
    forall x, y | 0 <= x < y < |entries| ensures Before(ids, entries[x].docId, entries[y].docId) {
      assert ids[c[x]] == entries[x].docId && ids[c[y]] == entries[y].docId;
    }
  }

  /** Every pair that shares anything gets its edges. */
  predicate Lenient(cfg: Config) {
    cfg.minShared <= 1 && cfg.minJaccard <= 0.0
  }

  /** The edges come from what all pairs of positions in the index give. */
  ghost predicate FullFrom(nodes: Nodes, cfg: Config, index: KeywordIndex, full: Edges) {
    exists pairs :: MadeFrom(nodes, cfg, index, pairs, full)
  }

  ghost predicate MadeFrom(nodes: Nodes, cfg: Config, index: KeywordIndex, pairs: PairMap, full: Edges) {
    NoEmptyLists(pairs) && PairsFrom(index, index.Keys, pairs) && EdgesFrom(nodes, cfg, pairs, pairs.Keys, full)
  }

  /** Two positions in a keyword's list: their documents have edges whose evidence has the keyword. */
  lemma ListedPairHasEdge(nodes: Nodes, cfg: Config, index: KeywordIndex, pairs: PairMap, full: Edges, kw: Keyword,
                          x: nat, y: nat) returns (e: GraphEdge)
    requires MadeFrom(nodes, cfg, index, pairs, full) && Lenient(cfg)
    requires x < y < |ListAt(index, kw)|
    ensures var p := PairKey(ListAt(index, kw)[x].docId, ListAt(index, kw)[y].docId);
      e in ListAt(full, p.0) && e.target == p.1 && kw in KeywordsOf(e.evidence.sharedKeywords)
  {
    hide PairKey, EdgeWeight, OfKeyword, AllShared;
    var entries := index[kw];
    var p := PairKey(entries[x].docId, entries[y].docId);
    var s := SharedKeyword(kw, entries[x].weight, entries[y].weight);
    PositionsShare(kw, entries, x, y);
    OfKeywordMembers(ListAt(pairs, p), kw);
    assert OfKeyword(ListAt(pairs, p), kw) == AllShared(kw, entries, p);
    assert s in ListAt(pairs, p);
    var shared := pairs[p];
    var made := EdgesFor(nodes, cfg, p.0, p.1, shared);
    LenientMakes(nodes, cfg, p, shared);
    e := made.value.0;
    assert Makes(nodes, cfg, p, pairs[p], p.0, e);
    var i :| 0 <= i < |shared| && shared[i] == s;
    assert KeywordsOf(shared)[i] == kw;
  }

  lemma PositionsShare(kw: Keyword, entries: seq<KeywordEntry>, x: nat, y: nat)
    requires x < y < |entries|
    ensures SharedKeyword(kw, entries[x].weight, entries[y].weight)
            in AllShared(kw, entries, PairKey(entries[x].docId, entries[y].docId))
  {
    hide PairKey, FromEntries, RowsShared;
    RowsSharedMembers(kw, entries, |entries|, PairKey(entries[x].docId, entries[y].docId));
  }

  lemma LenientMakes(nodes: Nodes, cfg: Config, p: Pair, shared: seq<SharedKeyword>)
    requires Lenient(cfg) && shared != []
    ensures EdgesFor(nodes, cfg, p.0, p.1, shared).Some?
    ensures var (e, f) := EdgesFor(nodes, cfg, p.0, p.1, shared).value;
      e.target == p.1 && f.target == p.0 && e.evidence.sharedKeywords == shared
  {
    hide EdgeWeight;
    var union := WrappingSub(TopCount(nodes, p.0) + TopCount(nodes, p.1), |shared|);
    if union > 0 {
      Nonnegative(|shared| as real, union as real);
    }
  }

  lemma Nonnegative(n: real, m: real)
    requires n >= 0.0 && m > 0.0
    ensures n / m >= 0.0
  {
  }

  /** With lenient thresholds a rivalry shows: an edge from a document to itself, or evidence that is not shared. */
  lemma RivalsNotExact(ids: seq<DocId>, tops: Tops, nodes: Nodes, cfg: Config, index: KeywordIndex, pairs: PairMap,
                       full: Edges)
    requires |ids| == |tops| && NodesCarry(ids, tops, nodes) && IndexLists(ids, tops, index)
    requires MadeFrom(nodes, cfg, index, pairs, full) && Lenient(cfg) && !NoRivals(ids, tops)
    ensures !EdgesExact(nodes, ids, cfg, full)
  {
    hide IndexLists, MadeFrom, PairKey, EdgesExact, NodesCarry, Carriers;
    var i: nat, j: nat, kw :| Rivals(ids, tops, i, j, kw);
    var last := LastPosition(ids, ids[i], i);
    assert i < last;
    LastCarries(ids, tops, nodes, last);
    if kw in Keywords(tops[last]) {
      SharingPositions(ids, tops, nodes, cfg, index, pairs, full, kw, i, last);
    } else {
      SharingPositions(ids, tops, nodes, cfg, index, pairs, full, kw, if i < j then i else j, if i < j then j else i);
    }
  }

  lemma LastCarries(ids: seq<DocId>, tops: Tops, nodes: Nodes, i: nat)
    requires |ids| == |tops| && NodesCarry(ids, tops, nodes) && i < |ids| && LastOfId(ids, i)
    ensures TopSet(nodes, ids[i]) == Keywords(tops[i])
  {
  }

  /**
   * Two positions that share a keyword spoil the edges if they are of the same id, or if the keyword is not one of
   * both documents' nodes.
   */
  lemma SharingPositions(ids: seq<DocId>, tops: Tops, nodes: Nodes, cfg: Config, index: KeywordIndex, pairs: PairMap,
                         full: Edges, kw: Keyword, i: nat, j: nat)
    requires |ids| == |tops| && IndexLists(ids, tops, index) && MadeFrom(nodes, cfg, index, pairs, full) && Lenient(cfg)
    requires i < j < |ids| && kw in Keywords(tops[i]) && kw in Keywords(tops[j])
    requires ids[i] == ids[j] || kw !in TopSet(nodes, ids[i]) * TopSet(nodes, ids[j])
    ensures !EdgesExact(nodes, ids, cfg, full)
  {
    hide MadeFrom, Lenient, Carriers, Keywords, EdgesExact, LexLess, WeightIn, TopSet;
    var c := Carriers(tops, kw);
    var x :| 0 <= x < |c| && c[x] == i;
    var y :| 0 <= y < |c| && c[y] == j;
    assert ListAt(index, kw) == Listed(ids, tops, kw);
    var e := ListedPairHasEdge(nodes, cfg, index, pairs, full, kw, x, y);
    var p := PairKey(ids[i], ids[j]);
    assert p == (ids[i], ids[j]) || p == (ids[j], ids[i]);
    if EdgesExact(nodes, ids, cfg, full) {
      ExactIsShared(nodes, ids, cfg, full, p.0, e);
    }
  }

  /** In an exact edge set edges lead elsewhere, and their evidence is what both documents' nodes carry. */
  lemma ExactIsShared(nodes: Nodes, order: seq<DocId>, cfg: Config, full: Edges, a: DocId, e: GraphEdge)
    requires EdgesExact(nodes, order, cfg, full) && e in ListAt(full, a)
    ensures e.target != a
    ensures forall kw :: kw in KeywordsOf(e.evidence.sharedKeywords) ==>
              kw in TopSet(nodes, a) * TopSet(nodes, e.target)
  {
    hide EdgeWeight, EvidenceFits, TopSet;
    assert SourceExact(nodes, order, cfg, a, ListAt(full, a));
    assert EdgeFits(nodes, order, cfg, a, e);
  }

  /** Two positions of one id that share a keyword: the document gets an edge to itself. */
  lemma RepeatedIdLoops(nodes: Nodes, cfg: Config, index: KeywordIndex, full: Edges, kw: Keyword, x: nat, y: nat)
    requires FullFrom(nodes, cfg, index, full) && Lenient(cfg)
    requires x < y < |ListAt(index, kw)| && ListAt(index, kw)[x].docId == ListAt(index, kw)[y].docId
    ensures exists e :: e in ListAt(full, ListAt(index, kw)[x].docId) && e.target == ListAt(index, kw)[x].docId
  {
    hide MadeFrom;
    var pairs :| MadeFrom(nodes, cfg, index, pairs, full);
    var e := ListedPairHasEdge(nodes, cfg, index, pairs, full, kw, x, y);
  }

  /** Three positions of one id: more shared keywords than both keyword counts together, if there is only this one. */
  lemma ThirdTimeUnderflows(nodes: Nodes, index: KeywordIndex, pairs: PairMap, w: real)
    requires PairsFrom(index, index.Keys, pairs) && "k" in index
    requires index["k"] == [KeywordEntry("a", w), KeywordEntry("a", w), KeywordEntry("a", w)]
    requires TopCount(nodes, "a") == 1
    ensures |ListAt(pairs, ("a", "a"))| > TopCount(nodes, "a") + TopCount(nodes, "a")
  {
    hide OfKeyword, RowShared, RowsShared;
    var entries, p := index["k"], ("a", "a");
    assert PairKey("a", "a") == p;
    OfKeywordMembers(ListAt(pairs, p), "k");
    RowsStep("k", entries, 0, p);
    RowsStep("k", entries, 1, p);
    RowsStep("k", entries, 2, p);
    RowStep("k", entries, 0, 1, p);
    RowStep("k", entries, 0, 2, p);
    RowStep("k", entries, 1, 2, p);
  }

  /** Build from profiles of these ids, each with the same single keyword: exact exactly if the ids are distinct. */
  method BuildOneKeyword(ids: seq<DocId>) returns (g: DocumentGraph, ghost full: Edges)
    ensures g.Valid() && Trims(full, g.edges, 1)
    ensures forall a, e :: e in ListAt(full, a) ==> e.target in ids
    ensures FullFrom(g.nodes, SMALL, g.keywordIndex, full)
    ensures EdgesExact(g.nodes, ids, SMALL, full) <==> Distinct(ids)
    ensures forall i, j :: 0 <= i < j < |ids| && ids[i] == ids[j] ==>
              exists e :: e in ListAt(full, ids[i]) && e.target == ids[i]
  {
    hide EdgesExact, NodesFrom, NodesCarry, IndexLists, NoRivals, FullFrom, Trims, IndexMatches, DistinctIds, TopsOf,
         Distinct, LastOfId;
    var builder := new DocumentGraphBuilder(SMALL);
    for i := 0 to |ids|
      invariant builder.config == SMALL && |builder.profiles| == i
      invariant forall j :: 0 <= j < i ==> builder.profiles[j] == OneKeywordProfile(ids[j])
    {
      builder.AddDocument(ids[i], "", "md", 1, map["k" := 1.0]);
    }
    assert IdsOf(builder.profiles) == ids;
    ghost var profiles := builder.profiles;
    ghost var tops;
    g, full, tops := builder.Build();
    OneKeywordTops(profiles, ids, tops);
    if Distinct(ids) {
      DistinctHaveNoRivals(ids, tops);
    } else {
      RepeatedAreRivals(ids, tops);
    }
    OneKeywordLoops(ids, tops, g.nodes, g.keywordIndex, full);
    TargetsAreAdded(ids, tops, g.nodes, SMALL, g.keywordIndex, full);
  }

  /** Edges lead to documents that were added. */
  lemma TargetsAreAdded(ids: seq<DocId>, tops: Tops, nodes: Nodes, cfg: Config, index: KeywordIndex, full: Edges)
    requires |tops| == |ids| && IndexLists(ids, tops, index) && FullFrom(nodes, cfg, index, full)
    ensures forall a, e :: e in ListAt(full, a) ==> e.target in ids
  {
    hide EdgesFor, NoEmptyLists, PairsFrom, IndexLists;
    var pairs :| MadeFrom(nodes, cfg, index, pairs, full);
    forall a, e | e in ListAt(full, a) ensures e.target in ids {
      var p :| p in pairs && Makes(nodes, cfg, p, pairs[p], a, e);
      TargetsOf(nodes, cfg, p, pairs[p]);
      PairIsAdded(ids, tops, index, pairs, p);
    }
  }

  lemma TargetsOf(nodes: Nodes, cfg: Config, p: Pair, shared: seq<SharedKeyword>)
    ensures var made := EdgesFor(nodes, cfg, p.0, p.1, shared);
      made.Some? ==> made.value.0.target == p.1 && made.value.1.target == p.0
  {
    hide EdgeWeight;
  }

  lemma PairIsAdded(ids: seq<DocId>, tops: Tops, index: KeywordIndex, pairs: PairMap, p: Pair)
    requires |tops| == |ids| && IndexLists(ids, tops, index) && NoEmptyLists(pairs)
    requires PairsFrom(index, index.Keys, pairs) && p in pairs
    ensures p.0 in ids && p.1 in ids
  {
    hide OfKeyword, AllShared, PairKey, FromEntries, IndexLists, Listed;
    var s := pairs[p][0];
    OfKeywordMembers(ListAt(pairs, p), s.keyword);
    assert s in OfKeyword(ListAt(pairs, p), s.keyword);
    var entries := index[s.keyword];
    AllSharedFrom(s.keyword, entries, p, s);
    assert ListAt(index, s.keyword) == entries;
    ListedAreAdded(ids, tops, index, s.keyword);
    PairOfEntries(entries, s.keyword, p, s);
  }

  lemma AllSharedFrom(kw: Keyword, entries: seq<KeywordEntry>, p: Pair, s: SharedKeyword)
    requires s in AllShared(kw, entries, p)
    ensures FromEntries(kw, entries, p, s)
  {
    hide RowsShared, FromEntries;
    RowsSharedMembers(kw, entries, |entries|, p);
  }

  lemma ListedAreAdded(ids: seq<DocId>, tops: Tops, index: KeywordIndex, kw: Keyword)
    requires |tops| == |ids| && IndexLists(ids, tops, index)
    ensures forall x :: 0 <= x < |ListAt(index, kw)| ==> ListAt(index, kw)[x].docId in ids
  {
    hide Carriers, WeightIn;
    assert ListAt(index, kw) == Listed(ids, tops, kw);
  }

  lemma PairOfEntries(entries: seq<KeywordEntry>, kw: Keyword, p: Pair, s: SharedKeyword)
    requires FromEntries(kw, entries, p, s)
    ensures exists x, y :: 0 <= x < |entries| && 0 <= y < |entries| && p == (entries[x].docId, entries[y].docId)
  {
    hide LexLess;
    var i, j :| 0 <= i < j < |entries| && PairKey(entries[i].docId, entries[j].docId) == p
                && s == SharedKeyword(kw, entries[i].weight, entries[j].weight);
    assert p == (entries[i].docId, entries[j].docId) || p == (entries[j].docId, entries[i].docId);
  }

  function OneKeywordProfile(id: DocId): Profile {
    Profile(id, "", "md", 1, map["k" := 1.0])
  }

  lemma OneKeywordTops(profiles: seq<Profile>, ids: seq<DocId>, tops: Tops)
    requires TopsOf(SMALL, profiles, tops) && |profiles| == |ids|
    requires forall j :: 0 <= j < |ids| ==> profiles[j] == OneKeywordProfile(ids[j])
    ensures |tops| == |ids| && forall i :: 0 <= i < |ids| ==> Keywords(tops[i]) == {"k"}
  {
    hide IsTopOf;
    forall i | 0 <= i < |ids| ensures Keywords(tops[i]) == {"k"} {
      OneKeyword(profiles[i].keywords, tops[i], 1.0);
    }
  }

  lemma RepeatedAreRivals(ids: seq<DocId>, tops: Tops)
    requires |tops| == |ids| && (forall i :: 0 <= i < |ids| ==> Keywords(tops[i]) == {"k"}) && !Distinct(ids)
    ensures !NoRivals(ids, tops)
  {
    hide Keywords;
    var i, j :| 0 <= i < j < |ids| && ids[i] == ids[j];
    assert !LastOfId(ids, i);
    assert Rivals(ids, tops, i, j, "k");
  }

  lemma OneKeywordLoops(ids: seq<DocId>, tops: Tops, nodes: Nodes, index: KeywordIndex, full: Edges)
    requires |tops| == |ids| && (forall i :: 0 <= i < |ids| ==> Keywords(tops[i]) == {"k"})
    requires IndexLists(ids, tops, index) && FullFrom(nodes, SMALL, index, full)
    ensures forall i, j :: 0 <= i < j < |ids| && ids[i] == ids[j] ==>
              exists e :: e in ListAt(full, ids[i]) && e.target == ids[i]
  {
    hide FullFrom, Carriers, WeightIn, Keywords;
    assert ListAt(index, "k") == Listed(ids, tops, "k");
    forall i, j | 0 <= i < j < |ids| && ids[i] == ids[j]
      ensures exists e :: e in ListAt(full, ids[i]) && e.target == ids[i]
    {
      var c := Carriers(tops, "k");
      assert "k" in Keywords(tops[i]) && "k" in Keywords(tops[j]);
      assert i in c && j in c;
      var x :| 0 <= x < |c| && c[x] == i;
      var y :| 0 <= y < |c| && c[y] == j;
      RepeatedIdLoops(nodes, SMALL, index, full, "k", x, y);
    }
  }

  /** The same document twice: it gets an edge to itself, and trimming leaves it. */
  method BuildTwice() returns (g: DocumentGraph, ghost full: Edges)
    ensures |ListAt(g.edges, "a")| == 1 && ListAt(g.edges, "a")[0].target == "a"
    ensures !EdgesExact(g.nodes, ["a", "a"], SMALL, full)
  {
    hide EdgesExact, FullFrom, Top;
    g, full := BuildOneKeyword(["a", "a"]);
    assert ["a", "a"][0] == ["a", "a"][1];
    var cut := TrimKeepsHeaviest(full["a"], 1);
    var kept := Top(Heaviest, full["a"], 1);
    assert g.edges["a"] == kept;
    assert kept[0] in multiset(kept) + multiset(cut);
    assert kept[0] in multiset(full["a"]);
    assert kept[0] in ListAt(full, "a");
  }
}
