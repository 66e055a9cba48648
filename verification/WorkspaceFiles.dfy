/**
 * What becomes of a stored document when others are added or removed: reserved ids, and ids whose keys share a file.
 */
module WorkspaceFiles {
  import opened Prelude
  import opened Recency
  import opened Workspace
  import opened FileNames

  /** Changes to a workspace whose documents may lie under any id, and to the stored graph. */
  datatype Change = Put(doc: Document) | Delete(id: DocId) | SetGraph(graph: Bytes) | InvalidateGraph

  function Apply(c: Codec, s: Inner, ch: Change): Inner {
    match ch
    case Put(doc) => AddStep(c, s, doc)
    case Delete(id) => RemoveStep(c, s, id)
    case SetGraph(graph) => s.(backend := s.backend[GRAPH_KEY := graph], graphCached := true)
    case InvalidateGraph => s.(backend := s.backend - {GRAPH_KEY}, graphCached := false)
  }

  function AfterChanges(c: Codec, s: Inner, chs: seq<Change>): Inner {
    if chs == [] then s else Apply(c, AfterChanges(c, s, chs[..|chs| - 1]), chs[|chs| - 1])
  }

  /** The change adds or removes the document itself. */
  predicate Concerns(ch: Change, id: DocId) {
    (ch.Put? && ch.doc.docId == id) || (ch.Delete? && ch.id == id)
  }

  /** The change rewrites the workspace's own record under the key. */
  predicate Rewrites(s: Inner, ch: Change, k: Key) {
    match ch
    case Put(doc) => k == META_KEY || (k == CATALOG_KEY && doc.card.Some?)
    case Delete(id) => id in s.metaIndex && (k == META_KEY || k == CATALOG_KEY)
    case _ => k == GRAPH_KEY
  }

  /** No record of the workspace reads as a document. */
  ghost predicate RecordsAreNoDocuments(c: Codec, chs: seq<Change>) {
    && (forall m :: c.load(c.saveMeta(m)).None?)
    && (forall m :: c.load(c.saveCatalog(m)).None?)
    && (forall i :: 0 <= i < |chs| && chs[i].SetGraph? ==> c.load(chs[i].graph).None?)
  }

  /** Adding the document, or one of the later changes, puts a record in its place. */
  predicate Rewritten(c: Codec, s: Inner, d: Document, chs: seq<Change>) {
    if chs == [] then Rewrites(s, Put(d), d.docId)
    else
      var front := chs[..|chs| - 1];
      || Rewritten(c, s, d, front)
      || Rewrites(AfterChanges(c, AddStep(c, s, d), front), chs[|chs| - 1], d.docId)
  }

  /** What lies under the id: the document's bytes, or something that is no document. */
  ghost predicate StoredOrRecord(c: Codec, s: Inner, d: Document, kept: bool) {
    if kept then Lookup(s.backend, d.docId) == Some(c.save(d))
    else Lookup(s.backend, d.docId).Some? ==> c.load(s.backend[d.docId]).None?
  }

  lemma AddedBytes(c: Codec, s: Inner, d: Document, chs: seq<Change>)
    requires RecordsAreNoDocuments(c, chs)
    ensures StoredOrRecord(c, AddStep(c, s, d), d, !Rewrites(s, Put(d), d.docId))
  {
    hide Drop, MetaOf;
  }

  lemma ChangedBytes(c: Codec, s: Inner, d: Document, kept: bool, chs: seq<Change>, i: nat)
    requires RecordsAreNoDocuments(c, chs) && StoredOrRecord(c, s, d, kept) && i < |chs| && !Concerns(chs[i], d.docId)
    ensures StoredOrRecord(c, Apply(c, s, chs[i]), d, kept && !Rewrites(s, chs[i], d.docId))
  {
    hide Drop, MetaOf;
  }

  lemma {:induction false} BytesAfterChanges(c: Codec, s: Inner, d: Document, chs: seq<Change>)
    requires RecordsAreNoDocuments(c, chs) && forall i :: 0 <= i < |chs| ==> !Concerns(chs[i], d.docId)
    ensures StoredOrRecord(c, AfterChanges(c, AddStep(c, s, d), chs), d, !Rewritten(c, s, d, chs))
  {
    hide AddStep, Apply, StoredOrRecord, Rewrites;
    if chs == [] {
      AddedBytes(c, s, d, chs);
    } else {
      var front := chs[..|chs| - 1];
      BytesAfterChanges(c, s, d, front);
      ChangedBytes(c, AfterChanges(c, AddStep(c, s, d), front), d, !Rewritten(c, s, d, front), chs, |chs| - 1);
    }
  }

  /**
   * After its addition and any later changes to other documents and the graph, a document is what the backend gives
   * exactly if no record was rewritten in its place; and rebuilding indexes it exactly if its id is not reserved.
   */
  lemma ReadAfterChanges(c: Codec, s: Inner, d: Document, chs: seq<Change>)
    requires RoundTrips(c) && RecordsAreNoDocuments(c, chs)
    requires forall i :: 0 <= i < |chs| ==> !Concerns(chs[i], d.docId)
    ensures var t := AfterChanges(c, AddStep(c, s, d), chs);
      && (ReadBackend(c, t, d.docId) == Found(d) <==> !Rewritten(c, s, d, chs))
      && Lookup(Rebuilt(c, t.backend), d.docId) == if Reserved(d.docId) then None else Some(MetaOf(d))
  {
    hide AddStep, AfterChanges, Rewritten, MetaOf;
    BytesAfterChanges(c, s, d, chs);
    assert c.load(c.save(d)) == Some(d);
    UnreservedNotRewritten(c, s, d, chs);
  }

  lemma {:induction false} UnreservedNotRewritten(c: Codec, s: Inner, d: Document, chs: seq<Change>)
    ensures !Reserved(d.docId) ==> !Rewritten(c, s, d, chs)
  {
    if chs != [] {
      UnreservedNotRewritten(c, s, d, chs[..|chs| - 1]);
    }
  }

  // ----- Files -----

  type Files = map<string, Bytes>

  datatype Write = PutAt(key: Key, bytes: Bytes) | DeleteAt(key: Key)

  /** One backend call, when the keys' files are named by `file`. */
  function WriteTo(file: Key -> string, fs: Files, w: Write): Files {
    match w
    case PutAt(k, bytes) => fs[file(k) := bytes]
    case DeleteAt(k) => fs - {file(k)}
  }

  function WriteAll(file: Key -> string, fs: Files, ws: seq<Write>): Files {
    if ws == [] then fs else WriteTo(file, WriteAll(file, fs, ws[..|ws| - 1]), ws[|ws| - 1])
  }

  /** The backend calls a change makes, in order. */
  function WritesOf(c: Codec, s: Inner, ch: Change): seq<Write> {
    var t := Apply(c, s, ch);
    match ch
    case Put(doc) =>
      [PutAt(doc.docId, c.save(doc)), PutAt(META_KEY, c.saveMeta(t.metaIndex))]
      + (if doc.card.Some? then [PutAt(CATALOG_KEY, c.saveCatalog(t.catalog))] else [])
    case Delete(id) =>
      if id !in s.metaIndex then []
      else [DeleteAt(id), PutAt(META_KEY, c.saveMeta(t.metaIndex)), PutAt(CATALOG_KEY, c.saveCatalog(t.catalog))]
    case SetGraph(graph) => [PutAt(GRAPH_KEY, graph)]
    case InvalidateGraph => [DeleteAt(GRAPH_KEY)]
  }

  function KeyItself(k: Key): string {
    k
  }

  lemma WriteSteps(file: Key -> string, fs: Files, ws: seq<Write>)
    requires |ws| <= 3
    ensures |ws| == 0 ==> WriteAll(file, fs, ws) == fs
    ensures |ws| == 1 ==> WriteAll(file, fs, ws) == WriteTo(file, fs, ws[0])
    ensures |ws| == 2 ==> WriteAll(file, fs, ws) == WriteTo(file, WriteTo(file, fs, ws[0]), ws[1])
    ensures |ws| == 3 ==>
              WriteAll(file, fs, ws) == WriteTo(file, WriteTo(file, WriteTo(file, fs, ws[0]), ws[1]), ws[2])
  {
    hide WriteTo;
    if |ws| > 0 {
      WriteSteps(file, fs, ws[..|ws| - 1]);
    }
  }

  /** On a backend with one entry per key these calls are what the change does. */
  lemma WritesAreApplied(c: Codec, s: Inner, ch: Change)
    ensures WriteAll(KeyItself, s.backend, WritesOf(c, s, ch)) == Apply(c, s, ch).backend
  {
    hide WriteAll, Drop, MetaOf;
    WriteSteps(KeyItself, s.backend, WritesOf(c, s, ch));
  }

  /** The files after a sequence of changes; `s` is what the workspace holds in memory. */
  function FilesAfter(c: Codec, file: Key -> string, fs: Files, s: Inner, chs: seq<Change>): Files {
    if chs == [] then fs
    else
      var front := chs[..|chs| - 1];
      WriteAll(file, FilesAfter(c, file, fs, s, front), WritesOf(c, AfterChanges(c, s, front), chs[|chs| - 1]))
  }

  // ----- When files stand for keys -----

  ghost predicate KeptApart(file: Key -> string, keys: set<Key>) {
    forall k, k' :: k in keys && k' in keys && file(k) == file(k') ==> k == k'
  }

  /** For these keys the files hold what a map from keys would. */
  ghost predicate Mirrors(file: Key -> string, fs: Files, m: Backend, keys: set<Key>) {
    forall k :: k in keys ==> Lookup(fs, file(k)) == Lookup(m, k)
  }

  lemma {:induction false} WritesMirrored(file: Key -> string, fs: Files, m: Backend, keys: set<Key>, ws: seq<Write>)
    requires KeptApart(file, keys) && Mirrors(file, fs, m, keys) && forall i :: 0 <= i < |ws| ==> ws[i].key in keys
    ensures Mirrors(file, WriteAll(file, fs, ws), WriteAll(KeyItself, m, ws), keys)
  {
    if ws != [] {
      WritesMirrored(file, fs, m, keys, ws[..|ws| - 1]);
    }
  }

  /** Files act as a map from these keys, whatever is written under them, exactly if they keep them apart. */
  lemma FilesAreMapIff(file: Key -> string, keys: set<Key>)
    ensures (forall ws: seq<Write> :: (forall i :: 0 <= i < |ws| ==> ws[i].key in keys) ==>
               Mirrors(file, WriteAll(file, map[], ws), WriteAll(KeyItself, map[], ws), keys))
            <==> KeptApart(file, keys)
  {
    if KeptApart(file, keys) {
      forall ws: seq<Write> | forall i :: 0 <= i < |ws| ==> ws[i].key in keys
        ensures Mirrors(file, WriteAll(file, map[], ws), WriteAll(KeyItself, map[], ws), keys)
      {
        WritesMirrored(file, map[], map[], keys, ws);
      }
    } else {
      var k, k' :| k in keys && k' in keys && file(k) == file(k') && k != k';
      var w := PutAt(k, []);
      WriteSteps(file, map[], [w]);
      WriteSteps(KeyItself, map[], [w]);
      assert [w][0].key in keys;
      assert Lookup(WriteAll(file, map[], [w]), file(k')) == Some([]);
      assert Lookup(WriteAll(KeyItself, map[], [w]), k') == None;
    }
  }

  // ----- Safe ids -----

  /** No call writes the key's file. */
  lemma {:induction false} OtherFiles(file: Key -> string, fs: Files, ws: seq<Write>, f: string)
    requires forall i :: 0 <= i < |ws| ==> file(ws[i].key) != f
    ensures Lookup(WriteAll(file, fs, ws), f) == Lookup(fs, f)
  {
    if ws != [] {
      OtherFiles(file, fs, ws[..|ws| - 1], f);
    }
  }

  /** After its addition the document's file holds it, if no record of the workspace has that file. */
  lemma AddedFile(c: Codec, file: Key -> string, fs: Files, s: Inner, d: Document)
    requires !Reserved(d.docId) && OwnFile(file, d.docId)
    ensures Lookup(WriteAll(file, fs, WritesOf(c, s, Put(d))), file(d.docId)) == Some(c.save(d))
  {
    hide AddStep, WriteAll;
    WriteSteps(file, fs, WritesOf(c, s, Put(d)));
  }

  lemma {:induction false} OwnFileStays(c: Codec, file: Key -> string, fs: Files, s: Inner, id: DocId, chs: seq<Change>)
    requires !Reserved(id) && OwnFile(file, id) && forall i :: 0 <= i < |chs| ==> !Concerns(chs[i], id)
    ensures Lookup(FilesAfter(c, file, fs, s, chs), file(id)) == Lookup(fs, file(id))
  {
    if chs != [] {
      hide AddStep, RemoveStep, WriteAll, AfterChanges;
      var (front, ch) := (chs[..|chs| - 1], chs[|chs| - 1]);
      OwnFileStays(c, file, fs, s, id, front);
      var ws := WritesOf(c, AfterChanges(c, s, front), ch);
      OtherFiles(file, FilesAfter(c, file, fs, s, front), ws, file(id));
    }
  }

  /** The document's file holds something else. */
  ghost predicate Lost(c: Codec, file: Key -> string, fs: Files, d: Document) {
    Lookup(fs, file(d.docId)) != Some(c.save(d))
  }

  function Plainly(id: DocId): Document {
    Document(id, "", "", "", None, None, None, None, "")
  }

  /** A change to another document, or to the graph, that ends by rewriting the file of the key. */
  function Rewriting(d: Document, k: Key): Change {
    if k == GRAPH_KEY then InvalidateGraph
    else if k == CATALOG_KEY then Put(Plainly(d.docId + "x").(card := Some("")))
    else if k == META_KEY then Put(Plainly(d.docId + "x"))
    else Put(Plainly(k))
  }

  lemma RewritingLoses(c: Codec, file: Key -> string, fs: Files, s: Inner, d: Document, k: Key)
    requires RoundTrips(c) && RecordsAreNoDocuments(c, []) && file(k) == file(d.docId) && (k != d.docId || Reserved(k))
    ensures !Concerns(Rewriting(d, k), d.docId) && RecordsAreNoDocuments(c, [Rewriting(d, k)])
    ensures Lost(c, file, WriteAll(file, fs, WritesOf(c, s, Rewriting(d, k))), d)
  {
    hide AddStep, WriteAll;
    assert c.load(c.save(d)) == Some(d);
    WriteSteps(file, fs, WritesOf(c, s, Rewriting(d, k)));
    if !Reserved(k) {
      assert c.load(c.save(Plainly(k))) == Some(Plainly(k));
    }
    assert |d.docId + "x"| > |d.docId|;
  }

  /** The document can be read back from the files after any changes to others. */
  ghost predicate Safe(c: Codec, file: Key -> string, fs: Files, s: Inner, d: Document) {
    forall chs: seq<Change> ::
      RecordsAreNoDocuments(c, chs) && (forall i :: 0 <= i < |chs| ==> !Concerns(chs[i], d.docId)) ==>
        Lookup(FilesAfter(c, file, WriteAll(file, fs, WritesOf(c, s, Put(d))), AddStep(c, s, d), chs), file(d.docId))
        == Some(c.save(d))
  }

  /**
   * Once added, a document is safe from all changes to others exactly if its id is not reserved and no other key has
   * its file.
   */
  lemma SafeIff(c: Codec, file: Key -> string, fs: Files, s: Inner, d: Document)
    requires RoundTrips(c) && RecordsAreNoDocuments(c, [])
    ensures Safe(c, file, fs, s, d) <==> !Reserved(d.docId) && OwnFile(file, d.docId)
  {
    hide AddStep, WritesOf, WriteAll, RoundTrips, RecordsAreNoDocuments, Reserved;
    var added := WriteAll(file, fs, WritesOf(c, s, Put(d)));
    if !Reserved(d.docId) && OwnFile(file, d.docId) {
      AddedFile(c, file, fs, s, d);
      forall chs: seq<Change> | forall i :: 0 <= i < |chs| ==> !Concerns(chs[i], d.docId)
        ensures Lookup(FilesAfter(c, file, added, AddStep(c, s, d), chs), file(d.docId)) == Some(c.save(d))
      {
        OwnFileStays(c, file, added, AddStep(c, s, d), d.docId, chs);
      }
    } else {
      var k :| file(k) == file(d.docId) && (k != d.docId || Reserved(k));
      var ch := Rewriting(d, k);
      RewritingLoses(c, file, added, AddStep(c, s, d), d, k);
      OneChange(c, file, added, AddStep(c, s, d), ch);
      assert !Concerns([ch][0], d.docId);
    }
  }

  lemma OneChange(c: Codec, file: Key -> string, fs: Files, s: Inner, ch: Change)
    ensures FilesAfter(c, file, fs, s, [ch]) == WriteAll(file, fs, WritesOf(c, s, ch))
  {
    hide WriteAll, WritesOf;
    assert [ch][..0] == [];
    assert AfterChanges(c, s, []) == s && FilesAfter(c, file, fs, s, []) == fs;
  }

  /** On a backend with one entry per key: exactly if the id is not reserved. */
  lemma SafeInMemoryIff(c: Codec, fs: Files, s: Inner, d: Document)
    requires RoundTrips(c) && RecordsAreNoDocuments(c, [])
    ensures Safe(c, KeyItself, fs, s, d) <==> !Reserved(d.docId)
  {
    hide Safe, RoundTrips, RecordsAreNoDocuments;
    SafeIff(c, KeyItself, fs, s, d);
  }

  /**
   * On files: exactly if the id has no underscore, slash, backslash or colon and no two dots in a row, and is neither
   * "meta" nor "catalog".
   */
  lemma SafeOnFilesIff(c: Codec, fs: Files, s: Inner, d: Document)
    requires RoundTrips(c) && RecordsAreNoDocuments(c, [])
    ensures Safe(c, FileName, fs, s, d) <==> Plain(d.docId) && d.docId != META_KEY && d.docId != CATALOG_KEY
  {
    hide Safe, RoundTrips, RecordsAreNoDocuments, FileName;
    SafeIff(c, FileName, fs, s, d);
    OwnFileIff(d.docId);
    assert GRAPH_KEY[0] == '_';
  }

  /** Adding "docs_a" overwrites "docs/a": a read of the first id then gives the second document. */
  lemma SlashAndUnderscoreCollide(c: Codec, fs: Files, s: Inner, d: Document, e: Document)
    requires RoundTrips(c) && d.docId == "docs/a" && e.docId == "docs_a"
    ensures !Reserved(d.docId) && !Reserved(e.docId)
    ensures var both := FilesAfter(c, FileName, fs, s, [Put(d), Put(e)]);
      Lookup(both, FileName("docs/a")) == Some(c.save(e)) && c.load(c.save(e)) == Some(e)
  {
    hide AddStep, WriteAll, FileName;
    SlashAndUnderscore();
    RecordNames();
    var t := AddStep(c, s, d);
    var one := WriteAll(FileName, fs, WritesOf(c, s, Put(d)));
    assert [Put(d), Put(e)][..1] == [Put(d)];
    OneChange(c, FileName, fs, s, Put(d));
    AfterOne(c, s, Put(d));
    WriteSteps(FileName, one, WritesOf(c, t, Put(e)));
  }

  lemma AfterOne(c: Codec, s: Inner, ch: Change)
    ensures AfterChanges(c, s, [ch]) == Apply(c, s, ch)
  {
    hide Apply;
    assert [ch][..0] == [];
    assert AfterChanges(c, s, []) == s;
  }

  lemma RecordNames()
    ensures FileName(META_KEY) == META_KEY && FileName(CATALOG_KEY) == CATALOG_KEY
  {
    hide NoDotPairs;
    NoDots(META_KEY);
    NoDots(CATALOG_KEY);
    assert Flat(META_KEY) == META_KEY && Flat(CATALOG_KEY) == CATALOG_KEY;
  }
}
