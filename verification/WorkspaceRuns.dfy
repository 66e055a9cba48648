/**
 * Runs of the workspace: any interleaving of the lock-scoped steps of concurrent operations. What callers see is
 * what a plain map of documents would answer at the step that answers them.
 */
module WorkspaceRuns {
  import opened Prelude
  import opened Recency
  import opened Workspace

  /** A load between its two steps. */
  datatype Pending = Loading(id: DocId) | LoadingToCache(id: DocId)

  datatype System = System(inner: Inner, pending: multiset<Pending>)

  datatype Event =
    | Added(doc: Document)
    | Removed(id: DocId, existed: bool)
    | Started(call: Pending, early: Option<Response>)
    | Finished(call: Pending, answer: Response)
    | Cleared

  /** One step of one operation. Documents are not filed under the keys of the workspace's own records. */
  ghost predicate Next(c: Codec, capacity: nat, s: System, e: Event, t: System) {
    match e
    case Added(doc) =>
      !Reserved(doc.docId) && t == s.(inner := AddStep(c, s.inner, doc))
    case Removed(id, existed) =>
      existed == (id in s.inner.metaIndex) && t == s.(inner := RemoveStep(c, s.inner, id))
    case Started(call, answer) =>
      var (inner, r) := LookStep(s.inner, call.id);
      answer == r && t == System(inner, if r.None? then s.pending + multiset{call} else s.pending)
    case Finished(call, answer) =>
      call in s.pending &&
      (match call
       case Loading(id) =>
         answer == ReadBackend(c, s.inner, id) && t == s.(pending := s.pending - multiset{call})
       case LoadingToCache(id) =>
         var (inner, r) := ReadAndCacheStep(c, s.inner, id, capacity);
         answer == r && t == System(inner, s.pending - multiset{call}))
    case Cleared =>
      t == s.(inner := s.inner.(cache := []))
  }

  // ----- The invariant -----

  /** The documents: what the backend holds for the indexed ids. */
  function Docs(c: Codec, s: Inner): map<DocId, Document> {
    map id | id in s.metaIndex && id in s.backend && c.load(s.backend[id]).Some? :: c.load(s.backend[id]).value
  }

  /** Outside the reserved keys, the backend holds exactly the indexed documents, each under its own id. */
  ghost predicate Indexed(c: Codec, s: Inner) {
    && (forall id :: id in s.metaIndex ==> !Reserved(id))
    && (forall k :: k in s.backend && !Reserved(k) ==> k in s.metaIndex)
    && (forall id :: id in s.metaIndex ==> StoredAt(c, s, id))
  }

  ghost predicate StoredAt(c: Codec, s: Inner, id: DocId)
    requires id in s.metaIndex
  {
    && id in s.backend && c.load(s.backend[id]).Some?
    && c.load(s.backend[id]).value.docId == id
    && s.metaIndex[id] == MetaOf(c.load(s.backend[id]).value)
  }

  /** The stored index is the one in memory; before the first change there is neither. */
  ghost predicate Persisted(c: Codec, s: Inner) {
    if META_KEY in s.backend then c.loadMeta(s.backend[META_KEY]) == Some(s.metaIndex) else s.metaIndex == map[]
  }

  /** A cached document is indexed, and is what the backend holds for its id. */
  ghost predicate Coherent(c: Codec, s: Inner, capacity: nat) {
    && DistinctKeys(s.cache) && |s.cache| <= capacity
    && forall id :: id in KeysOf(s.cache) ==> id in Docs(c, s) && Find(s.cache, id) == Some(Docs(c, s)[id])
  }

  ghost predicate Inv(c: Codec, capacity: nat, s: System) {
    && Indexed(c, s.inner) && Persisted(c, s.inner) && Coherent(c, s.inner, capacity)
    && forall p :: p in s.pending ==> !Reserved(p.id)
  }

  lemma DocsAreIndexed(c: Codec, s: Inner)
    requires Indexed(c, s)
    ensures Docs(c, s).Keys == s.metaIndex.Keys
    ensures forall id :: id in Docs(c, s) ==> Docs(c, s)[id].docId == id && s.metaIndex[id] == MetaOf(Docs(c, s)[id])
  {
    forall id | id in s.metaIndex ensures id in Docs(c, s) {
      assert StoredAt(c, s, id);
    }
    forall id | id in Docs(c, s) ensures Docs(c, s)[id].docId == id && s.metaIndex[id] == MetaOf(Docs(c, s)[id]) {
      assert StoredAt(c, s, id);
    }
  }

  /** Documents answer a read; for an id that is neither indexed nor reserved there is nothing to read. */
  lemma ReadIsLookup(c: Codec, s: Inner, id: DocId)
    requires Indexed(c, s) && !Reserved(id)
    ensures ReadBackend(c, s, id) == if id in Docs(c, s) then Found(Docs(c, s)[id]) else Absent
  {
    if id in s.metaIndex {
      assert StoredAt(c, s, id);
    }
  }

  /** The answer of a plain map. */
  function Answer(docs: map<DocId, Document>, id: DocId): Response {
    if id in docs then Found(docs[id]) else Absent
  }

  // ----- Steps keep the invariant and act on the documents as on a map -----

  lemma DropCoherent(c: Codec, s: Inner, t: Inner, id: DocId, capacity: nat)
    requires Coherent(c, s, capacity) && t.cache == Drop(s.cache, id)
    requires forall k :: k != id && k in Docs(c, s) ==> k in Docs(c, t) && Docs(c, t)[k] == Docs(c, s)[k]
    ensures Coherent(c, t, capacity)
  {
    hide Drop, Find, KeysOf, Docs;
    Caches.DropLength(s.cache, id);
    DropKeys(s.cache, id);
    WithoutMembers(KeysOf(s.cache), id);
    forall k | k in KeysOf(t.cache) ensures k in Docs(c, t) && Find(t.cache, k) == Some(Docs(c, t)[k]) {
      DropFind(s.cache, id, k);
    }
  }

  /** Outside the reserved keys, adding writes one key. */
  lemma AddBackend(c: Codec, s: Inner, doc: Document, k: Key)
    requires !Reserved(k)
    ensures Lookup(AddStep(c, s, doc).backend, k) == if k == doc.docId then Some(c.save(doc)) else Lookup(s.backend, k)
  {
    hide Drop, MetaOf;
  }

  lemma AddIndex(c: Codec, s: Inner, doc: Document)
    ensures AddStep(c, s, doc).metaIndex == s.metaIndex[doc.docId := MetaOf(doc)]
    ensures AddStep(c, s, doc).cache == Drop(s.cache, doc.docId)
  {
    hide Drop, MetaOf;
  }

  lemma AddIndexed(c: Codec, s: Inner, doc: Document)
    requires RoundTrips(c) && Indexed(c, s) && !Reserved(doc.docId)
    ensures Indexed(c, AddStep(c, s, doc))
  {
    hide AddStep, MetaOf, Reserved;
    var t := AddStep(c, s, doc);
    AddIndex(c, s, doc);
    assert c.load(c.save(doc)) == Some(doc);
    forall id | id in t.metaIndex ensures StoredAt(c, t, id) && !Reserved(id) {
      if id != doc.docId {
        assert StoredAt(c, s, id);
      }
      AddBackend(c, s, doc, id);
    }
    forall k | k in t.backend && !Reserved(k) ensures k in t.metaIndex {
      AddBackend(c, s, doc, k);
    }
  }

  lemma AddDocs(c: Codec, s: Inner, doc: Document)
    requires RoundTrips(c) && Indexed(c, s) && !Reserved(doc.docId)
    ensures Docs(c, AddStep(c, s, doc)) == Docs(c, s)[doc.docId := doc]
  {
    hide AddStep, MetaOf, Reserved, StoredAt;
    var t := AddStep(c, s, doc);
    AddIndex(c, s, doc);
    assert c.load(c.save(doc)) == Some(doc);
    forall id ensures Lookup(Docs(c, t), id) == Lookup(Docs(c, s)[doc.docId := doc], id) {
      if id in t.metaIndex {
        AddBackend(c, s, doc, id);
      }
    }
    SameLookups(Docs(c, t), Docs(c, s)[doc.docId := doc]);
  }

  lemma AddPersisted(c: Codec, s: Inner, doc: Document)
    requires RoundTrips(c)
    ensures !Reserved(doc.docId) ==> Persisted(c, AddStep(c, s, doc))
  {
    hide Drop, MetaOf;
    var t := AddStep(c, s, doc);
    assert c.loadMeta(c.saveMeta(t.metaIndex)) == Some(t.metaIndex);
  }

  lemma AddKeeps(c: Codec, capacity: nat, s: System, doc: Document)
    requires RoundTrips(c) && Inv(c, capacity, s) && !Reserved(doc.docId)
    ensures Inv(c, capacity, s.(inner := AddStep(c, s.inner, doc)))
    ensures Docs(c, AddStep(c, s.inner, doc)) == Docs(c, s.inner)[doc.docId := doc]
  {
    hide Drop, Coherent, Indexed, Persisted, Docs, RoundTrips, MetaOf, AddStep;
    AddIndex(c, s.inner, doc);
    AddIndexed(c, s.inner, doc);
    AddDocs(c, s.inner, doc);
    AddPersisted(c, s.inner, doc);
    DropCoherent(c, s.inner, AddStep(c, s.inner, doc), doc.docId, capacity);
  }

  lemma RemoveBackend(c: Codec, s: Inner, id: DocId, k: Key)
    requires id in s.metaIndex && !Reserved(k)
    ensures Lookup(RemoveStep(c, s, id).backend, k) == if k == id then None else Lookup(s.backend, k)
  {
    hide Drop;
  }

  lemma RemoveIndex(c: Codec, s: Inner, id: DocId)
    requires id in s.metaIndex
    ensures RemoveStep(c, s, id).metaIndex == s.metaIndex - {id}
    ensures RemoveStep(c, s, id).cache == Drop(s.cache, id)
  {
    hide Drop;
  }

  lemma RemoveIndexed(c: Codec, s: Inner, id: DocId)
    requires Indexed(c, s) && id in s.metaIndex
    ensures Indexed(c, RemoveStep(c, s, id))
  {
    hide RemoveStep, MetaOf, Reserved;
    var t := RemoveStep(c, s, id);
    RemoveIndex(c, s, id);
    forall k | k in t.metaIndex ensures StoredAt(c, t, k) && !Reserved(k) {
      assert StoredAt(c, s, k);
      RemoveBackend(c, s, id, k);
    }
    forall k | k in t.backend && !Reserved(k) ensures k in t.metaIndex {
      RemoveBackend(c, s, id, k);
    }
  }

  lemma RemoveDocs(c: Codec, s: Inner, id: DocId)
    requires Indexed(c, s) && id in s.metaIndex
    ensures Docs(c, RemoveStep(c, s, id)) == Docs(c, s) - {id}
  {
    hide RemoveStep, MetaOf, Reserved, StoredAt;
    var t := RemoveStep(c, s, id);
    RemoveIndex(c, s, id);
    forall k ensures Lookup(Docs(c, t), k) == Lookup(Docs(c, s) - {id}, k) {
      if k in s.metaIndex {
        RemoveBackend(c, s, id, k);
      }
    }
    SameLookups(Docs(c, t), Docs(c, s) - {id});
  }

  lemma RemovePersisted(c: Codec, s: Inner, id: DocId)
    requires RoundTrips(c) && id in s.metaIndex
    ensures Persisted(c, RemoveStep(c, s, id))
  {
    hide Drop;
    var t := RemoveStep(c, s, id);
    assert c.loadMeta(c.saveMeta(t.metaIndex)) == Some(t.metaIndex);
  }

  lemma RemoveKeeps(c: Codec, capacity: nat, s: System, id: DocId)
    requires RoundTrips(c) && Inv(c, capacity, s)
    ensures Inv(c, capacity, s.(inner := RemoveStep(c, s.inner, id)))
    ensures Docs(c, RemoveStep(c, s.inner, id)) == Docs(c, s.inner) - {id}
    ensures id in s.inner.metaIndex <==> id in Docs(c, s.inner)
  {
    hide Drop, Coherent, Indexed, Persisted, Docs, RoundTrips;
    DocsAreIndexed(c, s.inner);
    if id in s.inner.metaIndex {
      RemoveIndex(c, s.inner, id);
      RemoveIndexed(c, s.inner, id);
      RemoveDocs(c, s.inner, id);
      RemovePersisted(c, s.inner, id);
      DropCoherent(c, s.inner, RemoveStep(c, s.inner, id), id, capacity);
    } else {
      assert Docs(c, s.inner) - {id} == Docs(c, s.inner);
    }
  }

  /** A step that changes only the cache leaves everything else as it was. */
  lemma CacheOnly(c: Codec, s: Inner, t: Inner)
    requires t.backend == s.backend && t.metaIndex == s.metaIndex
    ensures Indexed(c, s) ==> Indexed(c, t)
    ensures Persisted(c, s) ==> Persisted(c, t)
    ensures Docs(c, t) == Docs(c, s)
  {
    if Indexed(c, s) {
      forall id | id in t.metaIndex ensures StoredAt(c, t, id) {
        assert StoredAt(c, s, id);
      }
    }
  }

  /** Reordering the cache keeps it coherent. */
  lemma TouchCoherent(c: Codec, s: Inner, t: Inner, id: DocId, capacity: nat)
    requires Coherent(c, s, capacity) && t.cache == Touch(s.cache, id) && Docs(c, t) == Docs(c, s)
    ensures Coherent(c, t, capacity)
  {
    hide Find, KeysOf, Touch, Docs, DistinctKeys, Without;
    TouchSpec(s.cache, id);
    WithoutMembers(KeysOf(s.cache), id);
  }

  lemma LookKeeps(c: Codec, capacity: nat, s: System, id: DocId)
    requires Inv(c, capacity, s)
    ensures Inv(c, capacity, s.(inner := LookStep(s.inner, id).0))
    ensures Docs(c, LookStep(s.inner, id).0) == Docs(c, s.inner)
    ensures LookStep(s.inner, id).1.Some? ==> LookStep(s.inner, id).1.value == Answer(Docs(c, s.inner), id)
    ensures LookStep(s.inner, id).1.None? ==> !Reserved(id)
  {
    hide Find, KeysOf, Touch, Indexed, Persisted, Docs, Coherent;
    var i := s.inner;
    var (t, r) := LookStep(i, id);
    CacheOnly(c, i, t);
    DocsAreIndexed(c, i);
    IndexedNotReserved(c, i);
    CachedIsCurrent(c, i, id, capacity);
    if t.cache != i.cache {
      TouchCoherent(c, i, t, id, capacity);
    } else {
      assert t == i;
    }
  }

  lemma CachedIsCurrent(c: Codec, s: Inner, id: DocId, capacity: nat)
    requires Coherent(c, s, capacity)
    ensures Find(s.cache, id).Some? ==> id in Docs(c, s) && Find(s.cache, id).value == Docs(c, s)[id]
  {
    hide Docs, DistinctKeys;
  }

  lemma IndexedNotReserved(c: Codec, s: Inner)
    requires Indexed(c, s)
    ensures forall id :: id in s.metaIndex ==> !Reserved(id)
  {
  }

  lemma CacheKeeps(c: Codec, capacity: nat, s: System, id: DocId)
    requires Inv(c, capacity, s) && capacity >= 1 && !Reserved(id)
    ensures Inv(c, capacity, s.(inner := ReadAndCacheStep(c, s.inner, id, capacity).0))
    ensures Docs(c, ReadAndCacheStep(c, s.inner, id, capacity).0) == Docs(c, s.inner)
    ensures ReadAndCacheStep(c, s.inner, id, capacity).1 == Answer(Docs(c, s.inner), id)
  {
    hide Drop, Find, KeysOf, PutIn, Indexed, Persisted, Docs, DistinctKeys, ReadBackend;
    var i := s.inner;
    var (t, r) := ReadAndCacheStep(c, i, id, capacity);
    ReadIsLookup(c, i, id);
    CacheOnly(c, i, t);
    if r.Found? {
      PutSpec(i.cache, id, r.doc, capacity);
    }
  }

  /** What an event does to the map of documents. */
  function Effect(docs: map<DocId, Document>, e: Event): map<DocId, Document> {
    match e
    case Added(doc) => docs[doc.docId := doc]
    case Removed(id, _) => docs - {id}
    case _ => docs
  }

  /** What an event may answer, given the map of documents at that moment. */
  ghost predicate Answers(docs: map<DocId, Document>, e: Event) {
    match e
    case Removed(id, existed) => existed <==> id in docs
    case Started(call, answer) => answer.Some? ==> answer.value == Answer(docs, call.id)
    case Finished(call, answer) => answer == Answer(docs, call.id)
    case _ => true
  }

  /** Every step of every operation keeps the invariant, and is a step of the plain map. */
  lemma StepRefinesMap(c: Codec, capacity: nat, s: System, e: Event, t: System)
    requires RoundTrips(c) && capacity >= 1 && Inv(c, capacity, s) && Next(c, capacity, s, e, t)
    ensures Inv(c, capacity, t)
    ensures Docs(c, t.inner) == Effect(Docs(c, s.inner), e)
    ensures Answers(Docs(c, s.inner), e)
  {
    hide Docs, Indexed, Persisted, Coherent, LookStep, ReadAndCacheStep, AddStep, RemoveStep, ReadBackend;
    match e {
      case Added(doc) => AddKeeps(c, capacity, s, doc);
      case Removed(id, _) => RemoveKeeps(c, capacity, s, id);
      case Started(call, _) => LookKeeps(c, capacity, s, call.id);
      case Finished(call, _) =>
        ReadIsLookup(c, s.inner, call.id);
        CacheKeeps(c, capacity, s, call.id);
      case Cleared => ClearKeeps(c, capacity, s);
    }
  }

  lemma ClearKeeps(c: Codec, capacity: nat, s: System)
    requires Inv(c, capacity, s)
    ensures Inv(c, capacity, s.(inner := s.inner.(cache := [])))
    ensures Docs(c, s.inner.(cache := [])) == Docs(c, s.inner)
  {
  }

  // ----- Whole runs -----

  /** `states[i]` is the state before event `i`. */
  ghost predicate IsRun(c: Codec, capacity: nat, states: seq<System>, events: seq<Event>) {
    && |states| == |events| + 1
    && forall i :: 0 <= i < |events| ==> Next(c, capacity, states[i], events[i], states[i + 1])
  }

  /** The documents after a sequence of events, as a map fed with the same changes would have them. */
  function MapAfter(docs: map<DocId, Document>, events: seq<Event>): map<DocId, Document> {
    if events == [] then docs else Effect(MapAfter(docs, events[..|events| - 1]), events[|events| - 1])
  }

  /** In every interleaving, from any good state, all states are good and hold the documents of the map. */
  lemma {:induction false} RunsRefineMap(c: Codec, capacity: nat, states: seq<System>, events: seq<Event>, i: nat)
    requires RoundTrips(c) && capacity >= 1 && IsRun(c, capacity, states, events) && Inv(c, capacity, states[0])
    requires i <= |events|
    ensures Inv(c, capacity, states[i])
    ensures Docs(c, states[i].inner) == MapAfter(Docs(c, states[0].inner), events[..i])
  {
    hide Inv, Next, Docs, RoundTrips;
    if i > 0 {
      RunsRefineMap(c, capacity, states, events, i - 1);
      StepRefinesMap(c, capacity, states[i - 1], events[i - 1], states[i]);
      assert events[..i][..i - 1] == events[..i - 1];
    }
  }

  /**
   * Every answer a caller gets, in any interleaving, is the plain map's at that moment: a removed document does not
   * come back, and a superseded one is not served.
   */
  lemma AnswersAreCurrent(c: Codec, capacity: nat, states: seq<System>, events: seq<Event>, i: nat)
    requires RoundTrips(c) && capacity >= 1 && IsRun(c, capacity, states, events) && Inv(c, capacity, states[0])
    requires i < |events|
    ensures Answers(MapAfter(Docs(c, states[0].inner), events[..i]), events[i])
  {
    hide Inv, Docs, RoundTrips, Answers;
    RunsRefineMap(c, capacity, states, events, i);
    StepRefinesMap(c, capacity, states[i], events[i], states[i + 1]);
  }

  /** Cache coherence in every reachable state, spelled out. */
  lemma CacheIsCoherent(c: Codec, capacity: nat, states: seq<System>, events: seq<Event>, i: nat, id: DocId)
    requires RoundTrips(c) && capacity >= 1 && IsRun(c, capacity, states, events) && Inv(c, capacity, states[0])
    requires i <= |events|
    ensures |states[i].inner.cache| <= capacity
    ensures Find(states[i].inner.cache, id).Some? ==>
              && id in states[i].inner.metaIndex && id in states[i].inner.backend
              && c.load(states[i].inner.backend[id]) == Find(states[i].inner.cache, id)
  {
    hide Next, RoundTrips, Find, KeysOf;
    RunsRefineMap(c, capacity, states, events, i);
  }

  /** A workspace just created on an empty backend. */
  const FRESH := System(Inner(map[], map[], map[], [], false), multiset{})

  lemma FreshIsGood(c: Codec, capacity: nat)
    ensures Inv(c, capacity, FRESH)
    ensures Docs(c, FRESH.inner) == map[]
  {
  }

  /** From a fresh workspace on, all answers are those of a map that starts empty, and the cache stays coherent. */
  lemma FreshRunsAreCurrent(c: Codec, capacity: nat, states: seq<System>, events: seq<Event>)
    requires RoundTrips(c) && capacity >= 1 && IsRun(c, capacity, states, events) && states[0] == FRESH
    ensures forall i :: 0 <= i < |events| ==> Answers(MapAfter(map[], events[..i]), events[i])
    ensures forall i :: 0 <= i <= |events| ==> Docs(c, states[i].inner) == MapAfter(map[], events[..i])
    ensures forall i :: 0 <= i <= |events| ==>
              Coherent(c, states[i].inner, capacity) && Rebuilt(c, states[i].inner.backend) == states[i].inner.metaIndex
  {
    hide Inv, Next, Docs, RoundTrips, Answers, Coherent, Rebuilt;
    FreshIsGood(c, capacity);
    forall i | 0 <= i < |events| ensures Answers(MapAfter(map[], events[..i]), events[i]) {
      AnswersAreCurrent(c, capacity, states, events, i);
    }
    forall i | 0 <= i <= |events|
      ensures Docs(c, states[i].inner) == MapAfter(map[], events[..i]) && Coherent(c, states[i].inner, capacity)
      ensures Rebuilt(c, states[i].inner.backend) == states[i].inner.metaIndex
    {
      RunsRefineMap(c, capacity, states, events, i);
      GoodIsCoherent(c, capacity, states[i]);
      RebuildIsMaintained(c, capacity, states[i]);
    }
  }

  lemma GoodIsCoherent(c: Codec, capacity: nat, s: System)
    requires Inv(c, capacity, s)
    ensures Coherent(c, s.inner, capacity)
  {
  }

  // ----- Reopening -----

  /**
   * In every good state the maintained index is what rebuilding from the stored documents gives, and what loading
   * the stored index gives.
   */
  lemma RebuildIsMaintained(c: Codec, capacity: nat, s: System)
    requires Inv(c, capacity, s)
    ensures FiledUnderOwnId(c, s.inner.backend)
    ensures Rebuilt(c, s.inner.backend) == s.inner.metaIndex
    ensures META_KEY in s.inner.backend ==> c.loadMeta(s.inner.backend[META_KEY]) == Some(s.inner.metaIndex)
    ensures META_KEY !in s.inner.backend ==> s.inner.metaIndex == map[]
  {
    hide Coherent;
  }

  /** Over whole runs: incremental maintenance equals rebuilding, wherever the run stops. */
  lemma RebuildAfterAnyRun(c: Codec, capacity: nat, states: seq<System>, events: seq<Event>)
    requires RoundTrips(c) && capacity >= 1 && IsRun(c, capacity, states, events) && Inv(c, capacity, states[0])
    ensures var last := states[|events|].inner;
      && Rebuilt(c, last.backend) == last.metaIndex
      && (META_KEY in last.backend ==> c.loadMeta(last.backend[META_KEY]) == Some(last.metaIndex))
  {
    hide Inv, Next, RoundTrips;
    RunsRefineMap(c, capacity, states, events, |events|);
    RebuildIsMaintained(c, capacity, states[|events|]);
  }

  /** Close and open again, with any cache size: the index is back, the cache empty, the documents the same. */
  method Reopen(c: Codec, ghost closed: System, ghost oldCapacity: nat, backend: Backend, cacheSize: nat)
    returns (w: WorkspaceInner)
    requires RoundTrips(c) && Inv(c, oldCapacity, closed) && backend == closed.inner.backend
    ensures w.Valid() && w.codec == c && w.cache.capacity == Max(cacheSize, 1)
    ensures w.metaIndex == closed.inner.metaIndex
    ensures Inv(c, w.cache.capacity, System(w.Value(), multiset{}))
    ensures Docs(c, w.Value()) == Docs(c, closed.inner)
  {
    hide Coherent, IndexesStored;
    RebuildIsMaintained(c, oldCapacity, closed);
    w := new WorkspaceInner(c, backend, cacheSize);
    var ok := w.LoadMetaIndex();
    assert w.metaIndex == closed.inner.metaIndex;
    assert w.backend == backend;
    EmptyCacheIsGood(c, closed, w.Value(), oldCapacity, w.cache.capacity);
  }

  lemma EmptyCacheIsGood(c: Codec, s: System, t: Inner, oldCapacity: nat, capacity: nat)
    requires Inv(c, oldCapacity, s)
    requires t.backend == s.inner.backend && t.metaIndex == s.inner.metaIndex && t.cache == []
    ensures Inv(c, capacity, System(t, multiset{})) && Docs(c, t) == Docs(c, s.inner)
  {
  }

  // ----- The catalog -----

  /** The catalog holds the cards of the current documents and nothing else. */
  ghost predicate CatalogMatches(c: Codec, s: Inner) {
    forall id :: Lookup(s.catalog, id) == if id in Docs(c, s) then Docs(c, s)[id].card else None
  }

  /**
   * Adding keeps the catalog right exactly if the document has a card or its id had none: re-adding a document
   * without its card leaves the old card behind.
   */
  lemma AddKeepsCatalogIff(c: Codec, capacity: nat, s: System, doc: Document)
    requires RoundTrips(c) && Inv(c, capacity, s) && !Reserved(doc.docId) && CatalogMatches(c, s.inner)
    ensures CatalogMatches(c, AddStep(c, s.inner, doc)) <==> doc.card.Some? || doc.docId !in s.inner.catalog
  {
    hide Inv, Docs, Drop, RoundTrips, MetaOf;
    AddKeeps(c, capacity, s, doc);
    var t := AddStep(c, s.inner, doc);
    assert Lookup(t.catalog, doc.docId) == if doc.card.Some? then doc.card else Lookup(s.inner.catalog, doc.docId);
    forall id | id != doc.docId ensures Lookup(t.catalog, id) == Lookup(s.inner.catalog, id) {
    }
  }

  lemma RemoveKeepsCatalog(c: Codec, capacity: nat, s: System, id: DocId)
    requires RoundTrips(c) && Inv(c, capacity, s) && CatalogMatches(c, s.inner)
    ensures CatalogMatches(c, RemoveStep(c, s.inner, id))
  {
    hide Inv, Docs, Drop, RoundTrips;
    RemoveKeeps(c, capacity, s, id);
    forall k ensures Lookup(s.inner.catalog - {id}, k) == if k == id then None else Lookup(s.inner.catalog, k) {
    }
  }

  /** Adding a document with a card and then, under the same id, one without: the catalog is wrong from then on. */
  lemma OldCardStays(c: Codec, capacity: nat, d: Document, bare: Document)
    requires RoundTrips(c) && d.card.Some? && bare.card.None? && bare.docId == d.docId && !Reserved(d.docId)
    ensures CatalogMatches(c, AddStep(c, FRESH.inner, d))
    ensures !CatalogMatches(c, AddStep(c, AddStep(c, FRESH.inner, d), bare))
  {
    hide Inv, Docs, AddStep, RoundTrips;
    FreshIsGood(c, capacity);
    AddKeeps(c, capacity, FRESH, d);
    assert CatalogMatches(c, FRESH.inner);
    AddKeepsCatalogIff(c, capacity, FRESH, d);
    var s := FRESH.(inner := AddStep(c, FRESH.inner, d));
    CardEntered(c, FRESH.inner, d);
    AddKeepsCatalogIff(c, capacity, s, bare);
  }

  lemma CardEntered(c: Codec, s: Inner, d: Document)
    requires d.card.Some?
    ensures d.docId in AddStep(c, s, d).catalog
  {
  }
}
