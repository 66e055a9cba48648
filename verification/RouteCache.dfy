/**
 * The route cache: which nodes answered a query, per document, filed under the query's intent and keyword set.
 * Keyword extraction is not part of this model; a query comes as its set of keywords.
 */
module RouteCache {
  import opened Prelude
  import opened Similarity
  import opened Sorting

  const LOOKUP_JACCARD := 0.8
  const LOOKUP_MIN_CONFIDENCE := 0.7
  const MAX_ENTRIES_PER_DOC := 200

  datatype Signature = Signature(intent: string, keywords: set<string>)

  datatype Entry = Entry(sig: Signature, nodeIds: seq<string>, confidence: real, hits: nat)

  /** One call of `record`. */
  datatype Route = Route(sig: Signature, nodeIds: seq<string>, confidence: real)

  // ----- Recording -----

  /** Calls without nodes or without keywords are ignored. */
  predicate Usable(r: Route) {
    r.nodeIds != [] && r.sig.keywords != {}
  }

  function Created(r: Route): Entry {
    Entry(r.sig, r.nodeIds, r.confidence, 1)
  }

  function Improved(e: Entry, r: Route): Entry {
    if r.confidence >= e.confidence then Entry(e.sig, r.nodeIds, r.confidence, e.hits + 1) else e.(hits := e.hits + 1)
  }

  /** The position of the first entry with the signature, or the number of entries if there is none. */
  function Position(es: seq<Entry>, sig: Signature): (i: nat)
    ensures i <= |es|
    ensures i < |es| ==> es[i].sig == sig
    ensures forall j :: 0 <= j < i ==> es[j].sig != sig
  {
    if es == [] || es[0].sig == sig then 0 else Position(es[1..], sig) + 1
  }

  function Upsert(es: seq<Entry>, r: Route): seq<Entry> {
    var i := Position(es, r.sig);
    if i < |es| then es[i := Improved(es[i], r)] else es + [Created(r)]
  }

  function Hits(e: Entry): real {
    e.hits as real
  }

  /** Over the limit, the least used entries go. */
  function Trimmed(es: seq<Entry>): seq<Entry> {
    if |es| <= MAX_ENTRIES_PER_DOC then es
    else
      SortSorts(Hits, es);
      Sort(Hits, es)[|es| - MAX_ENTRIES_PER_DOC..]
  }

  function Recorded(es: seq<Entry>, r: Route): seq<Entry> {
    if Usable(r) then Trimmed(Upsert(es, r)) else es
  }

  class RouteCache {
    var data: map<string, seq<Entry>>

    constructor ()
      ensures data == map[]
    {
      data := map[];
    }

    function Entries(docId: string): seq<Entry>
      reads this
    {
      if docId in data then data[docId] else []
    }

    method Record(docId: string, r: Route)
      modifies this
      ensures forall d :: Entries(d) == if d == docId then Recorded(old(Entries(d)), r) else old(Entries(d))
      ensures r.nodeIds == [] || r.sig.keywords == {} ==> forall d :: Entries(d) == old(Entries(d))
      ensures r.nodeIds != [] && r.sig.keywords != {} && old(Entries(docId)) == [] ==>
                Entries(docId) == [Entry(r.sig, r.nodeIds, r.confidence, 1)]
    {
      hide Trimmed;
      if !Usable(r) {
        return;
      }
      var entries := Entries(docId);
      var i := 0;
      while i < |entries| && entries[i].sig != r.sig
        invariant 0 <= i <= |entries|
        invariant forall j :: 0 <= j < i ==> entries[j].sig != r.sig
      {
        i := i + 1;
      }
      if i < |entries| {
        entries := entries[i := Improved(entries[i], r)];
      } else {
        entries := entries + [Created(r)];
      }
      if old(Entries(docId)) == [] {
        assert entries == [Created(r)];
        TrimmedSmall(entries);
      }
      data := data[docId := Trimmed(entries)];
    }

    /** The nodes of the first of the most similar routes of the intent, if it is similar enough. */
    method Look(docId: string, query: Signature) returns (r: Option<seq<string>>)
      ensures Answers(Entries(docId), query, r)
    {
      hide Eligible, SimilarityTo, Jaccard, SelectsNonEmpty, Reuse;
      var entries := Entries(docId);
      if query.keywords == {} {
        return None;
      }
      var best: Option<nat>, bestSimilarity := None, 0.0;
      for i := 0 to |entries|
        invariant best.None? ==> bestSimilarity == 0.0
        invariant best.None? ==> forall j :: 0 <= j < i && Eligible(entries[j], query) ==>
                  SimilarityTo(entries[j], query) <= 0.0
        invariant best.Some? ==> BestAmong(entries, query, i, best.value)
        invariant best.Some? ==> bestSimilarity == SimilarityTo(entries[best.value], query) > 0.0
      {
        if Eligible(entries[i], query) {
          var similarity := SimilarityTo(entries[i], query);
          if similarity > bestSimilarity {
            bestSimilarity, best := similarity, Some(i);
          }
        }
      }
      assert best.Some? ==> IsBest(entries, query, best.value);
      if best.Some? && bestSimilarity >= LOOKUP_JACCARD {
        ReuseSelects(entries[best.value], query);
        return Reuse(entries[best.value], query);
      }
      return None;
    }
  }

  // ----- Lookup -----

  predicate Eligible(e: Entry, query: Signature) {
    e.sig.intent == query.intent && e.confidence >= LOOKUP_MIN_CONFIDENCE
  }

  function SimilarityTo(e: Entry, query: Signature): real {
    Jaccard(query.keywords, e.sig.keywords)
  }

  function NonEmpty(ids: seq<string>): seq<string> {
    if ids == [] then [] else (if ids[0] == "" then [] else [ids[0]]) + NonEmpty(ids[1..])
  }

  function Reuse(e: Entry, query: Signature): Option<seq<string>> {
    if SimilarityTo(e, query) >= LOOKUP_JACCARD && NonEmpty(e.nodeIds) != [] then Some(NonEmpty(e.nodeIds)) else None
  }

  /** Among the first `n` entries, `i` is the first of the eligible ones most similar to the query. */
  ghost predicate BestAmong(es: seq<Entry>, query: Signature, n: nat, i: nat)
    requires n <= |es|
  {
    && i < n && Eligible(es[i], query)
    && forall j :: 0 <= j < n && Eligible(es[j], query) ==>
         SimilarityTo(es[j], query) <= SimilarityTo(es[i], query)
         && (j < i ==> SimilarityTo(es[j], query) < SimilarityTo(es[i], query))
  }

  ghost predicate IsBest(es: seq<Entry>, query: Signature, i: nat) {
    BestAmong(es, query, |es|, i)
  }

  /** `r` holds the ids that are not empty, all of them and in their order: `at` says where they stand. */
  ghost predicate Picks(ids: seq<string>, r: seq<string>, at: seq<nat>) {
    && |at| == |r| && Rising(at)
    && (forall k :: 0 <= k < |r| ==> at[k] < |ids| && r[k] == ids[at[k]] != "")
    && forall i :: 0 <= i < |ids| && ids[i] != "" ==> i in at
  }

  ghost predicate Rising(at: seq<nat>) {
    forall k, l :: 0 <= k < l < |at| ==> at[k] < at[l]
  }

  ghost predicate SelectsNonEmpty(ids: seq<string>, r: seq<string>) {
    exists at :: Picks(ids, r, at)
  }

  ghost predicate HasNonEmpty(ids: seq<string>) {
    exists i :: 0 <= i < |ids| && ids[i] != ""
  }

  /**
   * What a lookup may answer: nothing, exactly if the query has no keyword, no entry is best, the best one is not
   * similar enough or has only empty ids; otherwise the ids of the best one that are not empty.
   */
  ghost predicate Answers(es: seq<Entry>, query: Signature, r: Option<seq<string>>) {
    && (query.keywords == {} || (forall i: nat :: !IsBest(es, query, i)) ==> r == None)
    && (query.keywords != {} ==> forall i: nat :: IsBest(es, query, i) ==>
          && (r == None <==> SimilarityTo(es[i], query) < 0.8 || !HasNonEmpty(es[i].nodeIds))
          && (r.Some? ==> SelectsNonEmpty(es[i].nodeIds, r.value)))
  }

  lemma {:induction false} NonEmptySelects(ids: seq<string>) returns (at: seq<nat>)
    ensures Picks(ids, NonEmpty(ids), at)
  {
    at := [];
    if ids != [] {
      hide Picks;
      var later := NonEmptySelects(ids[1..]);
      at := PickFirst(ids, NonEmpty(ids[1..]), later);
    }
  }

  function Shifted(at: seq<nat>): (r: seq<nat>)
    ensures |r| == |at| && forall k :: 0 <= k < |at| ==> r[k] == at[k] + 1
  {
    seq(|at|, k requires 0 <= k < |at| => at[k] + 1)
  }

  lemma PickFirst(ids: seq<string>, r: seq<string>, later: seq<nat>) returns (at: seq<nat>)
    requires ids != [] && Picks(ids[1..], r, later)
    ensures Picks(ids, (if ids[0] == "" then [] else [ids[0]]) + r, at)
  {
    hide Shifted, Rising, Picks;
    PicksLater(ids, r, later);
    if ids[0] != "" {
      at := [0] + Shifted(later);
      PickAlso(ids, r, Shifted(later));
    } else {
      at := Shifted(later);
      assert [] + r == r;
      PickSame(ids, r, at);
    }
  }

  lemma PickSame(ids: seq<string>, r: seq<string>, at: seq<nat>)
    requires ids != [] && ids[0] == "" && PicksBehind(ids, r, at)
    ensures Picks(ids, r, at)
  {
  }

  lemma PickAlso(ids: seq<string>, r: seq<string>, at: seq<nat>)
    requires ids != [] && ids[0] != "" && PicksBehind(ids, r, at)
    ensures Picks(ids, [ids[0]] + r, [0] + at)
  {
    var all := [0] + at;
    assert all[0] == 0;
    assert Rising(all);
    forall i | 0 <= i < |ids| && ids[i] != "" ensures i in all {
      assert i > 0 ==> i in at;
    }
  }

  /** The same for the ids behind the first one. */
  ghost predicate PicksBehind(ids: seq<string>, r: seq<string>, at: seq<nat>) {
    && |at| == |r| && Rising(at)
    && (forall k :: 0 <= k < |r| ==> 0 < at[k] < |ids| && r[k] == ids[at[k]] != "")
    && forall i :: 0 < i < |ids| && ids[i] != "" ==> i in at
  }

  lemma PicksLater(ids: seq<string>, r: seq<string>, later: seq<nat>)
    requires ids != [] && Picks(ids[1..], r, later)
    ensures PicksBehind(ids, r, Shifted(later))
  {
    hide Shifted;
    forall i | 0 < i < |ids| && ids[i] != "" ensures i in Shifted(later) {
      assert ids[1..][i - 1] == ids[i];
      var k :| 0 <= k < |later| && later[k] == i - 1;
      assert Shifted(later)[k] == i;
    }
  }

  lemma ReuseSelects(e: Entry, query: Signature)
    requires query.keywords != {}
    ensures Reuse(e, query) == None <==> SimilarityTo(e, query) < 0.8 || !HasNonEmpty(e.nodeIds)
    ensures Reuse(e, query).Some? ==> SelectsNonEmpty(e.nodeIds, Reuse(e, query).value)
  {
    hide SimilarityTo, NonEmpty;
    var (ids, r) := (e.nodeIds, NonEmpty(e.nodeIds));
    var at := NonEmptySelects(ids);
    if r != [] {
      assert ids[at[0]] != "";
    }
  }

  /** Where no id is empty, all of them are selected. */
  lemma SelectsAll(ids: seq<string>, r: seq<string>)
    requires "" !in ids && SelectsNonEmpty(ids, r)
    ensures r == ids
  {
    var at :| Picks(ids, r, at);
    RisingReaches(at, |ids|);
  }

  lemma {:induction false} RisingReaches(at: seq<nat>, n: nat)
    requires Rising(at)
    requires forall k :: 0 <= k < |at| ==> at[k] < n
    requires forall i :: 0 <= i < n ==> i in at
    ensures |at| == n && forall k :: 0 <= k < n ==> at[k] == k
  {
    if at != [] {
      assert at[0] < n;
    }
    if n > 0 {
      var last := |at| - 1;
      assert n - 1 in at;
      assert at[last] == n - 1;
      forall i | 0 <= i < n - 1 ensures i in at[..last] {
        assert i in at;
      }
      RisingReaches(at[..last], n - 1);
    }
  }

  // ----- One entry per signature, and at most the limit -----

  ghost predicate OnePerSignature(es: seq<Entry>) {
    forall i, j :: 0 <= i < j < |es| ==> es[i].sig != es[j].sig
  }

  lemma SignaturesPermute(es: seq<Entry>, fs: seq<Entry>)
    requires OnePerSignature(es) && multiset(es) == multiset(fs)
    ensures OnePerSignature(fs)
  {
    PermutationMembers(es, fs);
    forall i, j | 0 <= i < j < |fs| ensures fs[i].sig != fs[j].sig {
      assert fs[i] in es && fs[j] in es && fs[i] != fs[j];
    }
  }

  lemma TrimmedKeeps(es: seq<Entry>)
    requires OnePerSignature(es)
    ensures OnePerSignature(Trimmed(es)) && |Trimmed(es)| == Min(|es|, MAX_ENTRIES_PER_DOC)
    ensures forall e :: e in Trimmed(es) ==> e in es
  {
    hide OnePerSignature, Sort;
    SortSorts(Hits, es);
    SignaturesPermute(es, Sort(Hits, es));
    PermutationMembers(es, Sort(Hits, es));
    if |es| > MAX_ENTRIES_PER_DOC {
      SuffixSignatures(Sort(Hits, es), |es| - MAX_ENTRIES_PER_DOC);
    }
  }

  lemma SuffixSignatures(es: seq<Entry>, k: nat)
    requires OnePerSignature(es) && k <= |es|
    ensures OnePerSignature(es[k..])
  {
  }

  // ----- What an entry stands for -----

  /** The call records a route of the signature. */
  predicate Records(r: Route, sig: Signature) {
    Usable(r) && r.sig == sig
  }

  /** How often the signature was recorded from position `from` on. */
  ghost function Uses(h: seq<Route>, from: nat, sig: Signature): nat
    decreases |h|
  {
    if |h| <= from then 0 else Uses(h[..|h| - 1], from, sig) + (if Records(h[|h| - 1], sig) then 1 else 0)
  }

  /**
   * The entry was created by record `from`; its nodes and its confidence are those of record `at`, the latest of the
   * most confident ones since then; its hits count them all.
   */
  ghost predicate Explains(h: seq<Route>, from: nat, at: nat, e: Entry) {
    && from <= at < |h| && Records(h[from], e.sig) && Records(h[at], e.sig)
    && h[at].nodeIds == e.nodeIds && h[at].confidence == e.confidence
    && (forall j :: from <= j < |h| && Records(h[j], e.sig) ==> h[j].confidence <= e.confidence)
    && (forall j :: at < j < |h| && Records(h[j], e.sig) ==> h[j].confidence < e.confidence)
    && e.hits == Uses(h, from, e.sig)
  }

  ghost predicate Explained(h: seq<Route>, e: Entry) {
    exists from: nat, at: nat :: Explains(h, from, at, e)
  }

  lemma ExplainOther(h: seq<Route>, r: Route, e: Entry)
    requires Explained(h, e) && !Records(r, e.sig)
    ensures Explained(h + [r], e)
  {
    var from: nat, at: nat :| Explains(h, from, at, e);
    assert (h + [r])[..|h|] == h;
    assert Explains(h + [r], from, at, e);
  }

  lemma ExplainImproved(h: seq<Route>, r: Route, e: Entry)
    requires Explained(h, e) && Records(r, e.sig)
    ensures Explained(h + [r], Improved(e, r))
  {
    var from: nat, at: nat :| Explains(h, from, at, e);
    assert (h + [r])[..|h|] == h;
    assert Explains(h + [r], from, if r.confidence >= e.confidence then |h| else at, Improved(e, r));
  }

  lemma ExplainCreated(h: seq<Route>, r: Route)
    requires Usable(r)
    ensures Explained(h + [r], Created(r))
  {
    assert (h + [r])[..|h|] == h;
    assert Explains(h + [r], |h|, |h|, Created(r));
  }

  // ----- Whole runs -----

  /** The entries of one document after the given calls. */
  function After(h: seq<Route>): seq<Entry> {
    if h == [] then [] else Recorded(After(h[..|h| - 1]), h[|h| - 1])
  }

  ghost predicate Good(h: seq<Route>, es: seq<Entry>) {
    && OnePerSignature(es) && |es| <= MAX_ENTRIES_PER_DOC
    && forall i :: 0 <= i < |es| ==> Explained(h, es[i])
  }

  lemma UpsertExplained(h: seq<Route>, es: seq<Entry>, r: Route)
    requires OnePerSignature(es) && (forall i :: 0 <= i < |es| ==> Explained(h, es[i])) && Usable(r)
    ensures OnePerSignature(Upsert(es, r))
    ensures forall e :: e in Upsert(es, r) ==> Explained(h + [r], e)
  {
    hide Explained;
    var (u, p) := (Upsert(es, r), Position(es, r.sig));
    forall i | 0 <= i < |u| ensures Explained(h + [r], u[i]) {
      if i == p == |es| {
        ExplainCreated(h, r);
      } else if i == p {
        ExplainImproved(h, r, es[i]);
      } else {
        ExplainOther(h, r, es[i]);
      }
    }
  }

  /** After any calls: one entry per signature, at most two hundred, each explained by the calls. */
  lemma {:induction false} RunsStayGood(h: seq<Route>)
    ensures Good(h, After(h))
  {
    if h != [] {
      hide OnePerSignature, Explained, Upsert, Trimmed, Usable;
      var (front, r) := (h[..|h| - 1], h[|h| - 1]);
      RunsStayGood(front);
      assert front + [r] == h;
      if Usable(r) {
        UpsertExplained(front, After(front), r);
        TrimmedKeeps(Upsert(After(front), r));
        forall i | 0 <= i < |After(h)| ensures Explained(h, After(h)[i]) {
          assert After(h)[i] in After(h);
        }
      } else {
        forall i | 0 <= i < |After(h)| ensures Explained(h, After(h)[i]) {
          ExplainOther(front, r, After(front)[i]);
        }
      }
    }
  }

  /** Confidence never falls while an entry lives, and the nodes change only with a record at least as confident. */
  lemma ConfidenceNeverFalls(es: seq<Entry>, r: Route, e: Entry, e': Entry)
    requires OnePerSignature(es) && e in es && e' in Recorded(es, r) && e.sig == e'.sig
    ensures e.confidence <= e'.confidence
    ensures e'.nodeIds != e.nodeIds ==> e'.nodeIds == r.nodeIds && e'.confidence == r.confidence
  {
    hide Trimmed, Upsert, OnePerSignature, Usable;
    if Usable(r) {
      UpsertSignatures(es, r);
      TrimmedKeeps(Upsert(es, r));
      Upserted(es, r, e, e');
    } else {
      SameEntry(es, e, e');
    }
  }

  lemma SameEntry(es: seq<Entry>, e: Entry, e': Entry)
    requires OnePerSignature(es) && e in es && e' in es && e.sig == e'.sig
    ensures e == e'
  {
  }

  /** An entry's successor is the entry itself, or the entry improved. */
  lemma Upserted(es: seq<Entry>, r: Route, e: Entry, e': Entry)
    requires OnePerSignature(es) && e in es && e' in Upsert(es, r) && e.sig == e'.sig
    ensures e' == if e.sig == r.sig then Improved(e, r) else e
  {
    hide Position;
    var i :| 0 <= i < |es| && es[i] == e;
    UpsertSignatures(es, r);
    var u := Upsert(es, r);
    assert u[i] == if i == Position(es, r.sig) then Improved(e, r) else e;
    SameEntry(u, u[i], e');
    PositionUnique(es, r.sig, i);
  }

  lemma PositionUnique(es: seq<Entry>, sig: Signature, i: nat)
    requires OnePerSignature(es) && i < |es|
    ensures Position(es, sig) == i <==> es[i].sig == sig
  {
  }

  lemma UpsertSignatures(es: seq<Entry>, r: Route)
    requires OnePerSignature(es)
    ensures OnePerSignature(Upsert(es, r))
  {
  }

  /** Record `at` put nodes under the entry's signature, and no later one of that signature was as confident. */
  ghost predicate LatestBest(h: seq<Route>, at: nat, e: Entry) {
    && at < |h| && Records(h[at], e.sig) && h[at].nodeIds == e.nodeIds && h[at].confidence == e.confidence
    && forall j :: at < j < |h| && Records(h[j], e.sig) ==> h[j].confidence < h[at].confidence
  }

  /** Whatever a lookup reuses was recorded, with the confidence the lookup asks for and a similar enough query. */
  lemma ReusedWasRecorded(h: seq<Route>, query: Signature, i: nat)
    requires IsBest(After(h), query, i) && Reuse(After(h)[i], query).Some?
    ensures var e := After(h)[i];
      && e.sig.intent == query.intent && e.confidence >= LOOKUP_MIN_CONFIDENCE
      && Jaccard(query.keywords, e.sig.keywords) >= LOOKUP_JACCARD
      && exists at: nat :: LatestBest(h, at, e)
  {
    hide Jaccard, After, OnePerSignature, NonEmpty, Usable;
    RunsStayGood(h);
    var from: nat, at: nat :| Explains(h, from, at, After(h)[i]);
    assert LatestBest(h, at, After(h)[i]);
  }

  // ----- Which entry goes -----

  /** Sorting brings the first of the smallest elements to the front. */
  ghost predicate FirstSmallest<T>(key: T -> real, s: seq<T>, m: nat) {
    && m < |s|
    && (forall j :: 0 <= j < |s| ==> key(s[m]) <= key(s[j]))
    && (forall j :: 0 <= j < m ==> key(s[m]) < key(s[j]))
  }

  lemma {:induction false} SortHead<T>(key: T -> real, s: seq<T>) returns (m: nat)
    requires s != []
    ensures FirstSmallest(key, s, m) && Sort(key, s) != [] && Sort(key, s)[0] == s[m]
  {
    m := 0;
    if |s| > 1 {
      hide Insert;
      var k := SortHead(key, s[1..]);
      assert s[1..][k] == s[k + 1];
      InsertHead(key, s[0], Sort(key, s[1..]));
      m := if key(s[0]) <= key(s[k + 1]) then 0 else k + 1;
      forall j | 0 < j < |s| ensures key(s[k + 1]) <= key(s[j]) && (j < k + 1 ==> key(s[k + 1]) < key(s[j])) {
        assert s[j] == s[1..][j - 1];
      }
    } else {
      SortOne(key, s);
    }
  }

  lemma InsertHead<T>(key: T -> real, x: T, s: seq<T>)
    requires s != []
    ensures Insert(key, x, s) != [] && Insert(key, x, s)[0] == if key(x) <= key(s[0]) then x else s[0]
  {
  }

  lemma SortOne<T>(key: T -> real, s: seq<T>)
    requires |s| == 1
    ensures Sort(key, s) == s
  {
    assert s[1..] == [];
  }

  /** One entry too many: the first of the least used ones goes, and nothing else. */
  lemma EvictedIsLeastUsed(es: seq<Entry>) returns (m: nat)
    requires |es| == MAX_ENTRIES_PER_DOC + 1
    ensures FirstSmallest(Hits, es, m)
    ensures multiset(es) == multiset(Trimmed(es)) + multiset{es[m]}
  {
    hide Sort, FirstSmallest, Hits;
    m := SortHead(Hits, es);
    SortSorts(Hits, es);
    var s := Sort(Hits, es);
    assert s == [s[0]] + s[1..];
    assert Trimmed(es) == s[1..];
  }

  /**
   * A full cache takes a route with a new signature exactly if some entry has been used only once. Otherwise the
   * fresh route itself is the least used and goes at once; nothing new is learnt any more.
   */
  lemma FullCacheLearnsIff(es: seq<Entry>, r: Route)
    requires OnePerSignature(es) && |es| == MAX_ENTRIES_PER_DOC && Usable(r)
    requires forall i :: 0 <= i < |es| ==> es[i].sig != r.sig && es[i].hits >= 1
    ensures Created(r) in Recorded(es, r) <==> exists i :: 0 <= i < |es| && es[i].hits == 1
  {
    hide Trimmed, Usable;
    var u := es + [Created(r)];
    assert Upsert(es, r) == u;
    var m := EvictedIsLeastUsed(u);
    UpsertSignatures(es, r);
    assert u[|es|] == Created(r) && Distinct(u);
    DistinctCounts(u);
    assert multiset(u)[Created(r)] == 1;
    assert Created(r) in multiset(Trimmed(u)) <==> Created(r) in Trimmed(u);
    if m == |es| {
      forall i | 0 <= i < |es| ensures es[i].hits != 1 {
        assert u[i] == es[i];
      }
    } else {
      assert u[m] == es[m] && Hits(u[m]) <= Hits(u[|es|]);
    }
  }

  // ----- A history after which nothing new is learnt -----

  function Letters(n: nat): string {
    if n == 0 then "" else Letters(n - 1) + "a"
  }

  lemma {:induction false} LettersLength(n: nat)
    ensures |Letters(n)| == n
  {
    if n > 0 {
      LettersLength(n - 1);
    }
  }

  /** A route for a query of its own. */
  function Numbered(n: nat): Route {
    Route(Signature("find", {Letters(n)}), ["node"], 1.0)
  }

  lemma NumberedDiffer(m: nat, n: nat)
    requires m != n
    ensures Numbered(m).sig != Numbered(n).sig
  {
    hide Letters;
    LettersLength(m);
    LettersLength(n);
    assert Letters(m) != Letters(n);
    assert Letters(m) !in Numbered(n).sig.keywords;
  }

  /** Record `n` different routes, each twice. */
  function EachTwice(n: nat): (h: seq<Route>)
    ensures |h| == 2 * n && forall i :: 0 <= i < |h| ==> Usable(h[i])
  {
    if n == 0 then [] else EachTwice(n - 1) + [Numbered(n - 1), Numbered(n - 1)]
  }

  ghost predicate UsedTwice(es: seq<Entry>, n: nat) {
    && |es| == n
    && forall i :: 0 <= i < n ==> es[i] == Entry(Numbered(i).sig, ["node"], 1.0, 2)
  }

  lemma AfterPush(h: seq<Route>, r: Route)
    ensures After(h + [r]) == Recorded(After(h), r)
  {
    assert (h + [r])[..|h|] == h;
  }

  lemma {:induction false} TwiceEach(n: nat)
    requires n <= MAX_ENTRIES_PER_DOC
    ensures UsedTwice(After(EachTwice(n)), n)
  {
    hide Numbered, Usable, Recorded, After, EachTwice, Position;
    NoRoutes();
    if n > 0 {
      TwiceEach(n - 1);
      var (h, r) := (EachTwice(n - 1), Numbered(n - 1));
      var es := After(h);
      MoreTwice(n);
      AfterPush(h, r);
      AfterPush(h + [r], r);
      NumberedIs(n - 1);
      forall i | 0 <= i < n - 1 ensures es[i].sig != r.sig {
        NumberedDiffer(i, n - 1);
      }
      RecordTwice(es, r);
    }
  }

  lemma NoRoutes()
    ensures EachTwice(0) == [] && After([]) == []
  {
  }

  lemma MoreTwice(n: nat)
    requires n > 0
    ensures EachTwice(n) == EachTwice(n - 1) + [Numbered(n - 1)] + [Numbered(n - 1)]
  {
  }

  /** A route recorded twice into a cache with room that does not know it. */
  lemma RecordTwice(es: seq<Entry>, r: Route)
    requires Usable(r) && |es| < MAX_ENTRIES_PER_DOC && forall i :: 0 <= i < |es| ==> es[i].sig != r.sig
    ensures Recorded(Recorded(es, r), r) == es + [Entry(r.sig, r.nodeIds, r.confidence, 2)]
  {
    hide Trimmed;
    var once := es + [Created(r)];
    TrimmedSmall(once);
    assert Recorded(es, r) == once;
    assert Position(once, r.sig) == |es| by {
      assert once[|es|].sig == r.sig;
    }
    TrimmedSmall(Upsert(once, r));
    assert Upsert(once, r) == es + [Improved(Created(r), r)];
  }

  lemma NumberedIs(n: nat)
    ensures Usable(Numbered(n)) && Numbered(n).nodeIds == ["node"] && Numbered(n).confidence == 1.0
  {
  }

  /** After 200 routes recorded twice each, a route for a further query is gone as soon as it is recorded. */
  lemma NothingNewIsLearnt()
    ensures var h := EachTwice(MAX_ENTRIES_PER_DOC);
      var r := Numbered(MAX_ENTRIES_PER_DOC);
      Usable(r) && Created(r) !in After(h + [r])
  {
    hide Numbered, After, Recorded, EachTwice, Created;
    var n := MAX_ENTRIES_PER_DOC;
    var (h, r) := (EachTwice(n), Numbered(n));
    TwiceEach(n);
    RunsStayGood(h);
    NumberedIs(n);
    AfterPush(h, r);
    forall i | 0 <= i < n ensures After(h)[i].sig != r.sig && After(h)[i].hits == 2 {
      NumberedDiffer(i, n);
    }
    FullCacheLearnsIff(After(h), r);
  }

  // ----- Recording, then looking up -----

  /** An entry of the query's own signature is the best of the eligible ones. */
  lemma OwnSignatureIsBest(fs: seq<Entry>, sig: Signature, i: nat)
    requires OnePerSignature(fs) && i < |fs| && fs[i].sig == sig && fs[i].confidence >= LOOKUP_MIN_CONFIDENCE
    ensures IsBest(fs, sig, i) && SimilarityTo(fs[i], sig) == 1.0
  {
    hide Jaccard;
    JaccardIsSimilarity(sig.keywords, fs[i].sig.keywords);
    forall j | 0 <= j < |fs| && Eligible(fs[j], sig)
      ensures SimilarityTo(fs[j], sig) <= SimilarityTo(fs[i], sig)
      ensures j < i ==> SimilarityTo(fs[j], sig) < SimilarityTo(fs[i], sig)
    {
      JaccardIsSimilarity(sig.keywords, fs[j].sig.keywords);
    }
  }

  /** A lookup of the route's own query comes upon an entry that carries the route's nodes and confidence. */
  ghost predicate Comes(fs: seq<Entry>, r: Route, i: nat) {
    i < |fs| && IsBest(fs, r.sig, i) && fs[i].sig == r.sig && fs[i].nodeIds == r.nodeIds
          && fs[i].confidence == r.confidence
  }

  /** There is room for the route: an entry of its signature, a free place, or an entry used only once. */
  ghost predicate HasRoom(es: seq<Entry>, sig: Signature) {
    HasSignature(es, sig) || |es| < MAX_ENTRIES_PER_DOC || exists i :: 0 <= i < |es| && es[i].hits == 1
  }

  ghost predicate HasSignature(es: seq<Entry>, sig: Signature) {
    exists i :: 0 <= i < |es| && es[i].sig == sig
  }

  /**
   * A confident route is what the same query comes upon next exactly if there was room for it and the entry it met,
   * if any, was not more confident.
   */
  lemma RecordThenLookup(es: seq<Entry>, r: Route)
    requires OnePerSignature(es) && |es| <= MAX_ENTRIES_PER_DOC && forall i :: 0 <= i < |es| ==> es[i].hits >= 1
    requires Usable(r) && r.confidence >= LOOKUP_MIN_CONFIDENCE
    ensures (exists i: nat :: Comes(Recorded(es, r), r, i))
            <==> HasRoom(es, r.sig) && forall j :: 0 <= j < |es| && es[j].sig == r.sig ==>
                  r.confidence >= es[j].confidence
  {
    hide Jaccard, Trimmed, Usable, IsBest;
    UpsertSignatures(es, r);
    TrimmedKeeps(Upsert(es, r));
    var (u, fs, p) := (Upsert(es, r), Recorded(es, r), Position(es, r.sig));
    if p < |es| {
      assert |u| <= MAX_ENTRIES_PER_DOC && fs == u by {
        TrimmedSmall(u);
      }
      if r.confidence >= es[p].confidence {
        OwnSignatureIsBest(fs, r.sig, p);
        assert Comes(fs, r, p);
      } else {
        forall i: nat ensures !Comes(fs, r, i) {
          assert fs[p].sig == r.sig && fs[p].confidence == es[p].confidence;
        }
      }
    } else if |es| < MAX_ENTRIES_PER_DOC {
      TrimmedSmall(u);
      OwnSignatureIsBest(fs, r.sig, p);
      assert Comes(fs, r, p);
    } else {
      FullCacheLearnsIff(es, r);
      CreatedOnly(es, r);
      if Created(r) in fs {
        var i :| 0 <= i < |fs| && fs[i] == Created(r);
        OwnSignatureIsBest(fs, r.sig, i);
        assert Comes(fs, r, i);
      } else {
        forall i: nat ensures !Comes(fs, r, i) {
          assert i < |fs| ==> fs[i] in fs;
        }
      }
    }
  }

  /**
   * Under that condition, and with no empty id among the route's, the lookup of the same query after the record
   * answers exactly the route's ids.
   */
  lemma RecordThenAnswer(es: seq<Entry>, r: Route, found: Option<seq<string>>)
    requires OnePerSignature(es) && |es| <= MAX_ENTRIES_PER_DOC && forall i :: 0 <= i < |es| ==> es[i].hits >= 1
    requires Usable(r) && r.confidence >= LOOKUP_MIN_CONFIDENCE && "" !in r.nodeIds
    requires HasRoom(es, r.sig) && forall j :: 0 <= j < |es| && es[j].sig == r.sig ==> r.confidence >= es[j].confidence
    requires Answers(Recorded(es, r), r.sig, found)
    ensures found == Some(r.nodeIds)
  {
    hide Recorded, Jaccard, SelectsNonEmpty, HasRoom, OnePerSignature, IsBest;
    RecordThenLookup(es, r);
    var fs := Recorded(es, r);
    var i: nat :| Comes(fs, r, i);
    JaccardIsSimilarity(r.sig.keywords, fs[i].sig.keywords);
    assert r.nodeIds[0] != "" by {
      assert r.nodeIds[0] in r.nodeIds;
    }
    SelectsAll(r.nodeIds, found.value);
  }

  /** Whatever was recorded before: the same, with the calls themselves. */
  method RecordThenLook(cache: RouteCache, docId: string, r: Route, ghost h: seq<Route>)
    returns (found: Option<seq<string>>)
    requires cache.Entries(docId) == After(h)
    modifies cache
    ensures cache.Entries(docId) == After(h + [r])
    ensures Usable(r) && r.confidence >= 0.7 && "" !in r.nodeIds && HasRoom(After(h), r.sig)
            && (forall j :: 0 <= j < |After(h)| && After(h)[j].sig == r.sig ==> r.confidence >= After(h)[j].confidence)
            ==> found == Some(r.nodeIds)
  {
    hide After, Recorded, OnePerSignature, HasRoom, Answers, Explained, Usable;
    RunsStayGood(h);
    ghost var es := After(h);
    forall i | 0 <= i < |es| ensures es[i].hits >= 1 {
      ExplainedIsUsed(h, es[i]);
    }
    AfterPush(h, r);
    cache.Record(docId, r);
    found := cache.Look(docId, r.sig);
    if Usable(r) && r.confidence >= 0.7 && "" !in r.nodeIds && HasRoom(es, r.sig)
       && forall j :: 0 <= j < |es| && es[j].sig == r.sig ==> r.confidence >= es[j].confidence {
      RecordThenAnswer(es, r, found);
    }
  }

  lemma ExplainedIsUsed(h: seq<Route>, e: Entry)
    requires Explained(h, e)
    ensures e.hits >= 1
  {
    var from: nat, at: nat :| Explains(h, from, at, e);
    UsedOnce(h, from, e.sig);
  }

  lemma {:induction false} UsedOnce(h: seq<Route>, from: nat, sig: Signature)
    requires from < |h| && Records(h[from], sig)
    ensures Uses(h, from, sig) >= 1
    decreases |h|
  {
    if from < |h| - 1 {
      UsedOnce(h[..|h| - 1], from, sig);
    }
  }

  /** A record that displaces nothing leaves every entry of another signature where it stands. */
  lemma OthersStay(es: seq<Entry>, r: Route, i: nat)
    requires HasSignature(es, r.sig) || |es| < MAX_ENTRIES_PER_DOC
    requires |es| <= MAX_ENTRIES_PER_DOC && i < |es| && es[i].sig != r.sig
    ensures i < |Recorded(es, r)| && Recorded(es, r)[i] == es[i]
  {
    hide Trimmed;
    TrimmedSmall(Upsert(es, r));
  }

  lemma CreatedOnly(es: seq<Entry>, r: Route)
    requires Position(es, r.sig) == |es|
    ensures forall e :: e in Upsert(es, r) && e.sig == r.sig ==> e == Created(r)
  {
  }

  lemma TrimmedSmall(es: seq<Entry>)
    requires |es| <= MAX_ENTRIES_PER_DOC
    ensures Trimmed(es) == es
  {
  }
}
