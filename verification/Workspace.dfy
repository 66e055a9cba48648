/**
 * The workspace: backend, metadata index, catalog and cache. Every public operation is one or two steps, each under
 * the lock; between the two steps of a load other operations may run. Backend calls are taken to succeed.
 */
module Workspace {
  import opened Prelude
  import opened Recency
  import Caches = DocumentCache

  type DocId = string
  type Key = string
  type Bytes = seq<Byte>
  type Card = string

  datatype DocMeta = DocMeta(lineCount: Option<nat>)

  datatype Document = Document(
    docId: DocId,
    name: string,
    summary: string,
    format: string,
    sourcePath: Option<string>,
    pageCount: Option<nat>,
    meta: Option<DocMeta>,
    card: Option<Card>,
    body: string)

  datatype MetaEntry = MetaEntry(
    id: DocId,
    docName: string,
    docDescription: Option<string>,
    docType: string,
    path: Option<string>,
    pageCount: Option<nat>,
    lineCount: Option<nat>)

  type MetaIndex = map<DocId, MetaEntry>
  type Catalog = map<DocId, Card>
  type Backend = map<Key, Bytes>

  /** The serializers, as given functions; a load that fails yields nothing. */
  datatype Codec = Codec(
    save: Document -> Bytes,
    load: Bytes -> Option<Document>,
    saveMeta: MetaIndex -> Bytes,
    loadMeta: Bytes -> Option<MetaIndex>,
    saveCatalog: Catalog -> Bytes)

  /** What is saved loads back; for documents this takes a schema version the reader supports. */
  ghost predicate RoundTrips(c: Codec) {
    && (forall d :: c.load(c.save(d)) == Some(d))
    && (forall m :: c.loadMeta(c.saveMeta(m)) == Some(m))
  }

  const META_KEY := "meta"
  const CATALOG_KEY := "catalog"
  const GRAPH_KEY := "_graph"

  predicate Reserved(k: Key) {
    k == META_KEY || k == CATALOG_KEY || k == GRAPH_KEY
  }

  function MetaOf(d: Document): MetaEntry {
    MetaEntry(d.docId, d.name, if d.summary == "" then None else Some(d.summary), d.format, d.sourcePath, d.pageCount,
              if d.meta.Some? then d.meta.value.lineCount else None)
  }

  // ----- The steps as functions -----

  datatype Inner = Inner(
    backend: Backend,
    metaIndex: MetaIndex,
    catalog: Catalog,
    cache: Entries<DocId, Document>,
    graphCached: bool)

  datatype Response = Found(doc: Document) | Absent | Corrupt

  function AddStep(c: Codec, s: Inner, doc: Document): Inner {
    var id := doc.docId;
    var stored := s.backend[id := c.save(doc)];
    var metaIndex := s.metaIndex[id := MetaOf(doc)];
    var indexed := stored[META_KEY := c.saveMeta(metaIndex)];
    var catalog := if doc.card.Some? then s.catalog[id := doc.card.value] else s.catalog;
    var backend := if doc.card.Some? then indexed[CATALOG_KEY := c.saveCatalog(catalog)] else indexed;
    Inner(backend, metaIndex, catalog, Drop(s.cache, id), false)
  }

  function RemoveStep(c: Codec, s: Inner, id: DocId): Inner {
    if id !in s.metaIndex then s
    else
      var metaIndex, catalog := s.metaIndex - {id}, s.catalog - {id};
      Inner((s.backend - {id})[META_KEY := c.saveMeta(metaIndex)][CATALOG_KEY := c.saveCatalog(catalog)],
            metaIndex, catalog, Drop(s.cache, id), false)
  }

  /** First step of both loads: answer from the index or the cache, or go on (no response yet). */
  function LookStep(s: Inner, id: DocId): (Inner, Option<Response>) {
    if id !in s.metaIndex then (s, Some(Absent))
    else
      match Find(s.cache, id)
      case Some(doc) => (s.(cache := Touch(s.cache, id)), Some(Found(doc)))
      case None => (s, None)
  }

  /** Second step of `load`: read the backend, whatever happened in between. */
  function ReadBackend(c: Codec, s: Inner, id: DocId): Response {
    if id !in s.backend then Absent
    else
      match c.load(s.backend[id])
      case None => Corrupt
      case Some(doc) => Found(doc)
  }

  /** Second step of `load_and_cache`: the same, and a document found enters the cache. */
  function ReadAndCacheStep(c: Codec, s: Inner, id: DocId, capacity: nat): (Inner, Response) {
    var r := ReadBackend(c, s, id);
    (if r.Found? then s.(cache := PutIn(s.cache, id, r.doc, capacity)) else s, r)
  }

  // ----- What the steps change -----

  /** The entry describes the document; an empty summary counts as none. */
  ghost predicate Describes(entry: MetaEntry, doc: Document) {
    && entry.id == doc.docId && entry.docName == doc.name && entry.docType == doc.format
    && entry.path == doc.sourcePath && entry.pageCount == doc.pageCount
    && (doc.summary == "" ==> entry.docDescription == None)
    && (doc.summary != "" ==> entry.docDescription == Some(doc.summary))
    && (doc.meta == None ==> entry.lineCount == None)
    && (doc.meta.Some? ==> entry.lineCount == doc.meta.value.lineCount)
  }

  /** No copy of the document is cached any more, and no graph; every other document is cached as before. */
  ghost predicate Forgets(s: Inner, id: DocId, s': Inner) {
    && !s'.graphCached && Find(s'.cache, id) == None
    && KeysOf(s'.cache) == Without(KeysOf(s.cache), id)
    && forall q :: q != id ==> Find(s'.cache, q) == Find(s.cache, q)
  }

  /** The document, its entry and its card are written, together with the new index and catalog; all else stays. */
  ghost predicate Adds(c: Codec, s: Inner, doc: Document, s': Inner) {
    && Forgets(s, doc.docId, s')
    && doc.docId in s'.metaIndex && Describes(s'.metaIndex[doc.docId], doc)
    && (forall q :: q != doc.docId ==> Lookup(s'.metaIndex, q) == Lookup(s.metaIndex, q))
    && (doc.card.Some? ==> Lookup(s'.catalog, doc.docId) == doc.card)
    && (forall q :: q != doc.docId || doc.card == None ==> Lookup(s'.catalog, q) == Lookup(s.catalog, q))
    && (doc.card.Some? ==> Lookup(s'.backend, CATALOG_KEY) == Some(c.saveCatalog(s'.catalog)))
    && Lookup(s'.backend, META_KEY) == Some(c.saveMeta(s'.metaIndex))
    && forall k :: k != META_KEY && (k != CATALOG_KEY || doc.card == None) ==>
         Lookup(s'.backend, k) == if k == doc.docId then Some(c.save(doc)) else Lookup(s.backend, k)
  }

  /** An indexed document, its entry and its card are gone, and the new index and catalog written; all else stays. */
  ghost predicate Removes(c: Codec, s: Inner, id: DocId, s': Inner) {
    && (id !in s.metaIndex ==> s' == s)
    && (id in s.metaIndex ==>
          && Forgets(s, id, s')
          && (forall q :: Lookup(s'.metaIndex, q) == if q == id then None else Lookup(s.metaIndex, q))
          && (forall q :: Lookup(s'.catalog, q) == if q == id then None else Lookup(s.catalog, q))
          && Lookup(s'.backend, META_KEY) == Some(c.saveMeta(s'.metaIndex))
          && Lookup(s'.backend, CATALOG_KEY) == Some(c.saveCatalog(s'.catalog))
          && forall k :: k != META_KEY && k != CATALOG_KEY ==>
               Lookup(s'.backend, k) == if k == id then None else Lookup(s.backend, k))
  }

  /** Nothing is stored or forgotten; a copy that was handed out is now the most recent one. */
  ghost predicate Looks(s: Inner, id: DocId, s': Inner, r: Option<Response>) {
    && s' == s.(cache := s'.cache) && (forall q :: Find(s'.cache, q) == Find(s.cache, q))
    && (r == Some(Absent) <==> id !in s.metaIndex)
    && (r == None <==> id in s.metaIndex && Find(s.cache, id) == None)
    && (r.Some? && r.value != Absent ==>
          && Find(s.cache, id).Some? && r.value == Found(Find(s.cache, id).value)
          && KeysOf(s'.cache) == Without(KeysOf(s.cache), id) + [id])
    && (r.None? || r.value == Absent ==> s' == s)
  }

  ghost predicate Reads(c: Codec, s: Inner, id: DocId, r: Response) {
    && (r == Absent <==> id !in s.backend)
    && (r == Corrupt <==> id in s.backend && c.load(s.backend[id]) == None)
    && forall doc :: r == Found(doc) <==> id in s.backend && c.load(s.backend[id]) == Some(doc)
  }

  /** A document read is cached as the most recent one; a full cache loses its least recent other one. */
  ghost predicate EntersCache(s: Inner, id: DocId, s': Inner, r: Response, capacity: nat) {
    && s' == s.(cache := s'.cache)
    && (!r.Found? ==> s' == s)
    && (r.Found? ==>
          && Find(s'.cache, id) == Some(r.doc)
          && (var ks := Without(KeysOf(s.cache), id) + [id];
              KeysOf(s'.cache) == if |ks| > capacity then ks[1..] else ks)
          && forall q :: q != id && q in KeysOf(s'.cache) ==> Find(s'.cache, q) == Find(s.cache, q))
  }

  lemma DropForgets(s: Inner, id: DocId, s': Inner)
    requires s'.cache == Drop(s.cache, id) && !s'.graphCached
    ensures Forgets(s, id, s')
  {
    hide Drop, Find, KeysOf, Without;
    DropKeys(s.cache, id);
    forall q ensures Find(s'.cache, q) == if q == id then None else Find(s.cache, q) {
      DropFind(s.cache, id, q);
    }
  }

  lemma AddStepAdds(c: Codec, s: Inner, doc: Document)
    ensures Adds(c, s, doc, AddStep(c, s, doc))
  {
    hide Drop, Find, KeysOf, Without, Forgets;
    DropForgets(s, doc.docId, AddStep(c, s, doc));
  }

  lemma RemoveStepRemoves(c: Codec, s: Inner, id: DocId)
    ensures Removes(c, s, id, RemoveStep(c, s, id))
  {
    hide Drop, Find, KeysOf, Without, Forgets;
    if id in s.metaIndex {
      DropForgets(s, id, RemoveStep(c, s, id));
    }
  }

  lemma LookStepLooks(s: Inner, id: DocId)
    requires DistinctKeys(s.cache)
    ensures var (s', r) := LookStep(s, id); Looks(s, id, s', r)
  {
    hide Find, KeysOf, Without, Touch;
    TouchSpec(s.cache, id);
  }

  lemma ReadAndCacheStepCaches(c: Codec, s: Inner, id: DocId, capacity: nat)
    requires DistinctKeys(s.cache) && |s.cache| <= capacity && capacity > 0
    ensures var (s', r) := ReadAndCacheStep(c, s, id, capacity);
      Reads(c, s, id, r) && EntersCache(s, id, s', r, capacity)
  {
    hide Find, KeysOf, Without, PutIn;
    var (s', r) := ReadAndCacheStep(c, s, id, capacity);
    if r.Found? {
      PutSpec(s.cache, id, r.doc, capacity);
    }
  }

  // ----- The operations -----

  class WorkspaceInner {
    var backend: Backend
    var metaIndex: MetaIndex
    var catalog: Catalog
    var graphCached: bool
    const cache: Caches.DocumentCache<Document>
    const codec: Codec

    ghost predicate Valid()
      reads this, cache
    {
      cache.Valid()
    }

    ghost function Value(): Inner
      reads this, cache
    {
      Inner(backend, metaIndex, catalog, cache.entries, graphCached)
    }

    constructor (codec: Codec, backend: Backend, cacheSize: nat)
      ensures Valid() && fresh(cache)
      ensures Value() == Inner(backend, map[], map[], [], false)
      ensures this.codec == codec && cache.capacity == if cacheSize == 0 then 1 else cacheSize
    {
      this.codec := codec;
      this.backend, metaIndex, catalog, graphCached := backend, map[], map[], false;
      cache := new Caches.DocumentCache<Document>(cacheSize);
    }

    method SaveMetaIndex()
      modifies this`backend
      ensures backend == old(backend)[META_KEY := codec.saveMeta(metaIndex)]
    {
      backend := backend[META_KEY := codec.saveMeta(metaIndex)];
    }

    method SaveCatalogIndex()
      modifies this`backend
      ensures backend == old(backend)[CATALOG_KEY := codec.saveCatalog(catalog)]
    {
      backend := backend[CATALOG_KEY := codec.saveCatalog(catalog)];
    }

    method Add(doc: Document)
      requires Valid()
      modifies this, cache
      ensures Valid() && Value() == AddStep(codec, old(Value()), doc)
      ensures Adds(codec, old(Value()), doc, Value())
    {
      hide Drop, Adds;
      AddStepAdds(codec, Value(), doc);
      var id := doc.docId;
      backend := backend[id := codec.save(doc)];
      metaIndex := metaIndex[id := MetaOf(doc)];
      SaveMetaIndex();
      if doc.card.Some? {
        catalog := catalog[id := doc.card.value];
        SaveCatalogIndex();
      }
      var _ := cache.Remove(id);
      graphCached := false;
    }

    method Remove(id: DocId) returns (existed: bool)
      requires Valid()
      modifies this, cache
      ensures Valid() && Value() == RemoveStep(codec, old(Value()), id)
      ensures Removes(codec, old(Value()), id, Value())
      ensures existed <==> id in old(metaIndex)
    {
      hide Drop, Removes;
      RemoveStepRemoves(codec, Value(), id);
      if id !in metaIndex {
        return false;
      }
      backend := backend - {id};
      metaIndex := metaIndex - {id};
      var _ := cache.Remove(id);
      catalog := catalog - {id};
      SaveMetaIndex();
      SaveCatalogIndex();
      graphCached := false;
      return true;
    }

    method Look(id: DocId) returns (r: Option<Response>)
      requires Valid()
      modifies cache
      ensures Valid() && (Value(), r) == LookStep(old(Value()), id)
      ensures Looks(old(Value()), id, Value(), r)
    {
      hide Touch, Find, Looks;
      LookStepLooks(Value(), id);
      if id !in metaIndex {
        return Some(Absent);
      }
      var cached := cache.Get(id);
      if cached.Some? {
        return Some(Found(cached.value));
      }
      TouchMiss(cache.entries, old(cache.entries), id);
      return None;
    }

    method Read(id: DocId) returns (r: Response)
      requires Valid()
      ensures r == ReadBackend(codec, Value(), id)
      ensures Reads(codec, Value(), id, r)
    {
      if id !in backend {
        return Absent;
      }
      var loaded := codec.load(backend[id]);
      return if loaded.None? then Corrupt else Found(loaded.value);
    }

    method ReadAndCache(id: DocId) returns (r: Response)
      requires Valid()
      modifies cache
      ensures Valid() && (Value(), r) == ReadAndCacheStep(codec, old(Value()), id, cache.capacity)
      ensures Reads(codec, old(Value()), id, r) && EntersCache(old(Value()), id, Value(), r, cache.capacity)
    {
      hide PutIn, Reads, EntersCache;
      ReadAndCacheStepCaches(codec, Value(), id, cache.capacity);
      r := Read(id);
      if r.Found? {
        var _ := cache.Put(id, r.doc);
      }
    }

    method ClearCache()
      requires Valid()
      modifies cache
      ensures Valid() && Value() == old(Value()).(cache := [])
    {
      cache.Clear();
    }

    /** Rebuild the index from the stored documents, the backend's keys coming in an arbitrary order. */
    method RebuildMetaIndex()
      requires metaIndex == map[]
      modifies this`metaIndex, this`backend
      ensures IndexesStored(codec, old(backend), old(backend).Keys, metaIndex)
      ensures FiledUnderOwnId(codec, old(backend)) ==> metaIndex == Rebuilt(codec, old(backend))
      ensures backend == if metaIndex == map[] then old(backend)
                else old(backend)[META_KEY := codec.saveMeta(metaIndex)]
    {
      var remaining := backend.Keys;
      while remaining != {}
        invariant remaining <= backend.Keys && backend == old(backend)
        invariant IndexesStored(codec, backend, backend.Keys - remaining, metaIndex)
        decreases remaining
      {
        var key :| key in remaining;
        OneKeyMore(codec, backend, backend.Keys - remaining, metaIndex, key);
        assert backend.Keys - (remaining - {key}) == backend.Keys - remaining + {key};
        remaining := remaining - {key};
        if !Reserved(key) {
          var loaded := codec.load(backend[key]);
          if loaded.Some? {
            metaIndex := metaIndex[loaded.value.docId := MetaOf(loaded.value)];
          }
        }
      }
      assert backend.Keys - {} == backend.Keys;
      if FiledUnderOwnId(codec, backend) {
        IndexOfOwnIds(codec, backend, metaIndex);
      }
      if metaIndex != map[] {
        SaveMetaIndex();
      }
    }

    /** At opening: take the stored index if there is one, otherwise rebuild it. */
    method LoadMetaIndex() returns (ok: bool)
      requires metaIndex == map[]
      modifies this`metaIndex, this`backend
      ensures META_KEY in old(backend) ==>
                && backend == old(backend)
                && (ok <==> codec.loadMeta(old(backend)[META_KEY]).Some?)
                && metaIndex == (if ok then codec.loadMeta(old(backend)[META_KEY]).value else map[])
      ensures META_KEY !in old(backend) ==>
                ok && IndexesStored(codec, old(backend), old(backend).Keys, metaIndex)
                && (FiledUnderOwnId(codec, old(backend)) ==> metaIndex == Rebuilt(codec, old(backend)))
                && backend == (if metaIndex == map[] then old(backend)
                      else old(backend)[META_KEY := codec.saveMeta(metaIndex)])
    {
      if META_KEY in backend {
        var loaded := codec.loadMeta(backend[META_KEY]);
        if loaded.None? {
          return false;
        }
        metaIndex := loaded.value;
      } else {
        RebuildMetaIndex();
      }
      return true;
    }
  }

  lemma TouchMiss(after: Entries<DocId, Document>, before: Entries<DocId, Document>, id: DocId)
    requires after == Touch(before, id) && Find(before, id).None?
    ensures after == before
  {
  }

  // ----- Rebuilding -----

  /** Every stored document lies under its own id. */
  ghost predicate FiledUnderOwnId(c: Codec, backend: Backend) {
    forall k :: k in backend && !Reserved(k) && c.load(backend[k]).Some? ==> c.load(backend[k]).value.docId == k
  }

  /** A document can be read under the key, which is not one of the workspace's own. */
  predicate Stored(c: Codec, backend: Backend, k: Key) {
    k in backend && !Reserved(k) && c.load(backend[k]).Some?
  }

  /** The key holds a document of this id, and the entry is that document's. */
  predicate Justifies(c: Codec, backend: Backend, k: Key, id: DocId, entry: MetaEntry) {
    Stored(c, backend, k) && c.load(backend[k]).value.docId == id && entry == MetaOf(c.load(backend[k]).value)
  }

  /** Each entry is that of some document read under one of the keys, and each of these documents' ids has one. */
  ghost predicate IndexesStored(c: Codec, backend: Backend, keys: set<Key>, m: MetaIndex) {
    && (forall k :: k in keys && Stored(c, backend, k) ==> c.load(backend[k]).value.docId in m)
    && (forall id :: id in m ==> exists k :: k in keys && Justifies(c, backend, k, id, m[id]))
  }

  lemma OneKeyMore(c: Codec, backend: Backend, keys: set<Key>, m: MetaIndex, k: Key)
    requires IndexesStored(c, backend, keys, m)
    ensures Stored(c, backend, k) ==>
              var d := c.load(backend[k]).value; IndexesStored(c, backend, keys + {k}, m[d.docId := MetaOf(d)])
    ensures !Stored(c, backend, k) ==> IndexesStored(c, backend, keys + {k}, m)
  {
    hide MetaOf, Reserved;
    if Stored(c, backend, k) {
      var d := c.load(backend[k]).value;
      assert Justifies(c, backend, k, d.docId, MetaOf(d));
    }
  }

  /** If every document lies under its own id, that leaves one index. */
  lemma IndexOfOwnIds(c: Codec, backend: Backend, m: MetaIndex)
    requires FiledUnderOwnId(c, backend) && IndexesStored(c, backend, backend.Keys, m)
    ensures m == Rebuilt(c, backend)
  {
    hide MetaOf, Reserved;
    forall id ensures Lookup(m, id) == Lookup(Rebuilt(c, backend), id) {
      assert Stored(c, backend, id) ==> c.load(backend[id]).value.docId in m;
      if id in m {
        var k :| k in backend.Keys && Justifies(c, backend, k, id, m[id]);
      }
    }
    SameLookups(m, Rebuilt(c, backend));
  }

  /** The index as a function of the stored documents. */
  function Rebuilt(c: Codec, backend: Backend): MetaIndex {
    map k | k in backend && Stored(c, backend, k) :: MetaOf(c.load(backend[k]).value)
  }

  lemma SameLookups<K, V>(m: map<K, V>, n: map<K, V>)
    requires forall k :: Lookup(m, k) == Lookup(n, k)
    ensures m == n
  {
    forall k ensures k in m <==> k in n {
      assert Lookup(m, k) == Lookup(n, k);
    }
    forall k | k in m ensures m[k] == n[k] {
      assert Lookup(m, k) == Lookup(n, k);
    }
  }
}
