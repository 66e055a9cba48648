/** Consolidation of collected evidence: quality filter, one piece per source, no near-duplicates. */
module Consolidate {
  import opened Prelude
  import opened Similarity

  const MIN_EVIDENCE_CHARS := 50
  const SIMILARITY_THRESHOLD := 0.8

  datatype Evidence = Evidence(sourcePath: string, nodeTitle: string, content: string, docName: Option<string>)

  /** The library's text functions: whitespace stripping, and the set of lower-case words. */
  datatype Text = Text(strip: string -> string, words: string -> set<string>)

  predicate Long(t: Text, e: Evidence) {
    |t.strip(e.content)| >= MIN_EVIDENCE_CHARS
  }

  const UNKNOWN := "_unknown"

  /** `doc_name or "_unknown"` */
  function NameOr(docName: Option<string>): string {
    if docName.None? || docName.value == "" then UNKNOWN else docName.value
  }

  function DocKey(e: Evidence): string {
    NameOr(e.docName)
  }

  function Join(doc: string, path: string): string {
    doc + ":" + path
  }

  function Key(e: Evidence): string {
    Join(DocKey(e), e.sourcePath)
  }

  predicate Near(t: Text, a: Evidence, b: Evidence) {
    Jaccard(t.words(a.content), t.words(b.content)) >= SIMILARITY_THRESHOLD
  }

  lemma NearSymmetric(t: Text, a: Evidence, b: Evidence)
    ensures Near(t, a, b) == Near(t, b, a)
    ensures Near(t, a, a)
  {
    JaccardIsSimilarity(t.words(a.content), t.words(b.content));
    JaccardIsSimilarity(t.words(a.content), t.words(a.content));
  }

  // ----- The stages -----

  function Filtered(t: Text, es: seq<Evidence>): seq<Evidence> {
    if es == [] then []
    else
      var e := es[|es| - 1];
      Filtered(t, es[..|es| - 1]) + (if Long(t, e) then [e] else [])
  }

  ghost predicate Claimed(es: seq<Evidence>, key: string) {
    exists i :: 0 <= i < |es| && Key(es[i]) == key
  }

  ghost predicate NearAny(t: Text, es: seq<Evidence>, e: Evidence) {
    exists i :: 0 <= i < |es| && Near(t, e, es[i])
  }

  ghost function FirstOfSource(es: seq<Evidence>): seq<Evidence> {
    if es == [] then []
    else
      var (front, e) := (es[..|es| - 1], es[|es| - 1]);
      FirstOfSource(front) + (if Claimed(front, Key(e)) then [] else [e])
  }

  ghost function Dissimilar(t: Text, es: seq<Evidence>): seq<Evidence> {
    if es == [] then []
    else
      var (front, e) := (es[..|es| - 1], es[|es| - 1]);
      var kept := Dissimilar(t, front);
      kept + (if NearAny(t, kept, e) then [] else [e])
  }

  /**
   * The same in one pass, piece by piece as it arrives: keep it if it is long enough, the first long piece of its
   * source, and not near any piece kept so far.
   */
  ghost function Deduped(t: Text, es: seq<Evidence>): seq<Evidence> {
    if es == [] then []
    else
      var (front, e) := (es[..|es| - 1], es[|es| - 1]);
      var kept := Deduped(t, front);
      kept + (if Welcome(t, front, kept, e) then [e] else [])
  }

  ghost predicate Welcome(t: Text, earlier: seq<Evidence>, kept: seq<Evidence>, e: Evidence) {
    Long(t, e) && FirstLong(t, earlier, e) && !NearAny(t, kept, e)
  }

  /** No earlier long piece comes from the source of `e`, kept or not. */
  ghost predicate FirstLong(t: Text, earlier: seq<Evidence>, e: Evidence) {
    forall i :: 0 <= i < |earlier| && Long(t, earlier[i]) ==> Key(earlier[i]) != Key(e)
  }

  lemma {:induction false} FilteredMembers(t: Text, es: seq<Evidence>)
    ensures forall e :: e in Filtered(t, es) <==> e in es && Long(t, e)
  {
    if es != [] {
      FilteredMembers(t, es[..|es| - 1]);
      assert es == es[..|es| - 1] + [es[|es| - 1]];
    }
  }

  lemma FirstLongIsUnclaimed(t: Text, es: seq<Evidence>, e: Evidence)
    ensures FirstLong(t, es, e) <==> !Claimed(Filtered(t, es), Key(e))
  {
    FilteredMembers(t, es);
    var f := Filtered(t, es);
    if Claimed(f, Key(e)) {
      var i :| 0 <= i < |f| && Key(f[i]) == Key(e);
      assert f[i] in f;
    }
    if !FirstLong(t, es, e) {
      var i :| 0 <= i < |es| && Long(t, es[i]) && Key(es[i]) == Key(e);
      assert es[i] in f;
    }
  }

  lemma OneMore(t: Text, es: seq<Evidence>, e: Evidence)
    ensures FirstOfSource(es + [e]) == FirstOfSource(es) + (if Claimed(es, Key(e)) then [] else [e])
    ensures Dissimilar(t, es + [e]) == Dissimilar(t, es) + (if NearAny(t, Dissimilar(t, es), e) then [] else [e])
  {
    hide Claimed, NearAny, Key;
    assert (es + [e])[..|es|] == es;
  }

  /** The three stages one after the other, each over the whole list, come to the one-pass form. */
  lemma {:induction false} StagesAreOnePass(t: Text, es: seq<Evidence>)
    ensures Dissimilar(t, FirstOfSource(Filtered(t, es))) == Deduped(t, es)
  {
    hide Long, Claimed, NearAny, FirstLong, Key, FirstOfSource, Dissimilar;
    if es == [] {
      NoStages(t);
    } else {
      var (front, e) := (es[..|es| - 1], es[|es| - 1]);
      StagesAreOnePass(t, front);
      FirstLongIsUnclaimed(t, front, e);
      var f := Filtered(t, front);
      assert Filtered(t, es) == if Long(t, e) then f + [e] else f;
      OneMore(t, f, e);
      assert FirstOfSource(f + [e]) == if Claimed(f, Key(e)) then FirstOfSource(f) else FirstOfSource(f) + [e];
      OneMore(t, FirstOfSource(f), e);
    }
  }

  lemma NoStages(t: Text)
    ensures FirstOfSource([]) == [] && Dissimilar(t, []) == []
  {
  }

  method Dedup(t: Text, evidence: seq<Evidence>) returns (result: seq<Evidence>)
    ensures result == Deduped(t, evidence)
    ensures forall i :: 0 <= i < |result| ==> |t.strip(result[i].content)| >= 50
    ensures forall i, j :: 0 <= i < j < |result| ==>
              Jaccard(t.words(result[i].content), t.words(result[j].content)) < 0.8
  {
    hide Clean;
    var filtered := Filtered(t, evidence);
    var stage2 := SourceDedup(filtered);
    result := [];
    for i := 0 to |stage2|
      invariant result == Dissimilar(t, stage2[..i])
    {
      var e := stage2[i];
      var isDuplicate := HasNear(t, result, e);
      if !isDuplicate {
        result := result + [e];
      }
      assert stage2[..i + 1][..i] == stage2[..i];
    }
    assert stage2[..|stage2|] == stage2;
    StagesAreOnePass(t, evidence);
    DedupedIsClean(t, evidence);
    CleanMeans(t, result);
  }

  method SourceDedup(filtered: seq<Evidence>) returns (stage2: seq<Evidence>)
    ensures stage2 == FirstOfSource(filtered)
  {
    var seenKeys: set<string> := {};
    stage2 := [];
    for i := 0 to |filtered|
      invariant forall k :: k in seenKeys <==> Claimed(filtered[..i], k)
      invariant stage2 == FirstOfSource(filtered[..i])
    {
      var e := filtered[i];
      var key := Key(e);
      ClaimedStep(filtered, i);
      if key !in seenKeys {
        seenKeys := seenKeys + {key};
        stage2 := stage2 + [e];
      }
      assert filtered[..i + 1][..i] == filtered[..i];
    }
    assert filtered[..|filtered|] == filtered;
  }

  lemma ClaimedStep(es: seq<Evidence>, i: nat)
    requires i < |es|
    ensures forall k :: Claimed(es[..i + 1], k) <==> Claimed(es[..i], k) || k == Key(es[i])
  {
    forall k ensures Claimed(es[..i + 1], k) <==> Claimed(es[..i], k) || k == Key(es[i]) {
      if Claimed(es[..i], k) {
        var j :| 0 <= j < i && Key(es[..i][j]) == k;
        assert Key(es[..i + 1][j]) == k;
      }
      if k == Key(es[i]) {
        assert Key(es[..i + 1][i]) == k;
      }
      if Claimed(es[..i + 1], k) && k != Key(es[i]) {
        var j :| 0 <= j < i + 1 && Key(es[..i + 1][j]) == k;
        assert Key(es[..i][j]) == k;
      }
    }
  }

  method HasNear(t: Text, result: seq<Evidence>, e: Evidence) returns (found: bool)
    ensures found == NearAny(t, result, e)
  {
    for i := 0 to |result|
      invariant forall j :: 0 <= j < i ==> !Near(t, e, result[j])
    {
      if Near(t, e, result[i]) {
        return true;
      }
    }
    return false;
  }

  // ----- What deduplication gives -----

  /** Every piece is long, no two come from one source, no two are near each other. */
  ghost predicate Clean(t: Text, es: seq<Evidence>) {
    && (forall i :: 0 <= i < |es| ==> Long(t, es[i]))
    && (forall i, j :: 0 <= i < j < |es| ==> Key(es[i]) != Key(es[j]) && !Near(t, es[i], es[j]))
  }

  lemma CleanMeans(t: Text, es: seq<Evidence>)
    ensures Clean(t, es) <==>
            && (forall i :: 0 <= i < |es| ==> |t.strip(es[i].content)| >= 50)
            && (forall i, j :: 0 <= i < j < |es| ==> Key(es[i]) != Key(es[j]))
            && forall i, j :: 0 <= i < j < |es| ==> Jaccard(t.words(es[i].content), t.words(es[j].content)) < 0.8
  {
    hide Key, Jaccard;
  }

  lemma {:induction false} DedupedMembers(t: Text, es: seq<Evidence>)
    ensures forall e :: e in Deduped(t, es) ==> e in es && Long(t, e)
  {
    if es != [] {
      hide Long, FirstLong, NearAny;
      DedupedMembers(t, es[..|es| - 1]);
      assert es == es[..|es| - 1] + [es[|es| - 1]];
    }
  }

  lemma {:induction false} DedupedIsClean(t: Text, es: seq<Evidence>)
    ensures Clean(t, Deduped(t, es))
  {
    if es != [] {
      hide Long, Near, Key;
      var (front, e) := (es[..|es| - 1], es[|es| - 1]);
      DedupedIsClean(t, front);
      DedupedMembers(t, front);
      var kept := Deduped(t, front);
      if Welcome(t, front, kept, e) {
        forall i | 0 <= i < |kept| ensures Key(kept[i]) != Key(e) && !Near(t, kept[i], e) {
          assert kept[i] in kept;
          NearSymmetric(t, e, kept[i]);
        }
      }
    }
  }

  /** The lists that deduplication leaves alone are exactly the clean ones. */
  lemma {:induction false} FixpointsAreClean(t: Text, es: seq<Evidence>)
    ensures Deduped(t, es) == es <==> Clean(t, es)
  {
    DedupedIsClean(t, es);
    if Clean(t, es) && es != [] {
      hide Long, Near, Key;
      var (front, e) := (es[..|es| - 1], es[|es| - 1]);
      FixpointsAreClean(t, front);
      assert es == front + [e];
      forall i | 0 <= i < |front| ensures !Near(t, e, front[i]) {
        assert es[i] == front[i] && es[|es| - 1] == e;
        NearSymmetric(t, e, front[i]);
      }
    }
  }

  lemma DedupIdempotent(t: Text, es: seq<Evidence>)
    ensures Deduped(t, Deduped(t, es)) == Deduped(t, es)
  {
    DedupedIsClean(t, es);
    FixpointsAreClean(t, Deduped(t, es));
  }

  /** More evidence at the end never costs what was kept before. */
  lemma {:induction false} DedupPrefixMonotone(t: Text, xs: seq<Evidence>, ys: seq<Evidence>)
    ensures Deduped(t, xs) <= Deduped(t, xs + ys)
    decreases |ys|
  {
    if ys == [] {
      assert xs + ys == xs;
    } else {
      hide Welcome;
      var front := ys[..|ys| - 1];
      DedupPrefixMonotone(t, xs, front);
      assert (xs + ys)[..|xs + ys| - 1] == xs + front;
    }
  }

  /** The result keeps the order of the input: it picks increasing positions. */
  lemma {:induction false} DedupKeepsOrder(t: Text, es: seq<Evidence>) returns (at: seq<nat>)
    ensures |at| == |Deduped(t, es)|
    ensures forall i, j :: 0 <= i < j < |at| ==> at[i] < at[j]
    ensures forall i :: 0 <= i < |at| ==>
              && at[i] < |es| && es[at[i]] == Deduped(t, es)[i]
              && FirstLong(t, es[..at[i]], es[at[i]])
  {
    at := [];
    if es != [] {
      hide FirstLong, NearAny, Long;
      var (front, e) := (es[..|es| - 1], es[|es| - 1]);
      at := DedupKeepsOrder(t, front);
      forall i | 0 <= i < |at| ensures es[..at[i]] == front[..at[i]] {
      }
      if Welcome(t, front, Deduped(t, front), e) {
        at := at + [|es| - 1];
      }
    }
  }

  /**
   * Nothing is dropped without a reason: a long piece, first of its source, is in the result or near a piece that is
   * in the result already when it comes up.
   */
  lemma DroppedPieceIsNear(t: Text, es: seq<Evidence>, i: nat)
    requires i < |es| && Long(t, es[i]) && FirstLong(t, es[..i], es[i])
    ensures es[i] in Deduped(t, es) || exists k :: k in Deduped(t, es[..i]) && k in Deduped(t, es) && Near(t, es[i], k)
  {
    hide Long, FirstLong, Near;
    var kept := Deduped(t, es[..i]);
    assert es[..i + 1][..i] == es[..i];
    assert es == es[..i + 1] + es[i + 1..] && es == es[..i] + es[i..];
    DedupPrefixMonotone(t, es[..i], es[i..]);
    DedupPrefixMonotone(t, es[..i + 1], es[i + 1..]);
    if NearAny(t, kept, es[i]) {
      var j :| 0 <= j < |kept| && Near(t, es[i], kept[j]);
      assert kept[j] in kept;
      assert Deduped(t, es)[j] == kept[j];
    } else {
      assert Deduped(t, es[..i + 1]) == kept + [es[i]];
      assert Deduped(t, es)[|kept|] == es[i];
    }
  }

  /** Nothing survives exactly if nothing is long enough. */
  lemma {:induction false} DedupedEmptyIff(t: Text, es: seq<Evidence>)
    ensures Deduped(t, es) == [] <==> forall e :: e in es ==> !Long(t, e)
  {
    DedupedMembers(t, es);
    if es != [] {
      hide Long;
      var (front, e) := (es[..|es| - 1], es[|es| - 1]);
      DedupedEmptyIff(t, front);
      assert es == front + [e];
      if Deduped(t, front) == [] {
        forall i | 0 <= i < |front| ensures !Long(t, front[i]) {
          assert front[i] in front;
        }
      }
    }
  }

  // ----- The source key -----

  /** When the joined keys of two sources coincide: equal sources, or a separator inside a name. */
  lemma KeysCoincide(d1: string, p1: string, d2: string, p2: string)
    ensures Join(d1, p1) == Join(d2, p2) <==>
            || (d1 == d2 && p1 == p2)
            || (d2 + ":" <= d1 && p2 == d1[|d2| + 1..] + ":" + p1)
            || (d1 + ":" <= d2 && p1 == d2[|d1| + 1..] + ":" + p2)
  {
    if |d1| >= |d2| {
      KeysCoincideOrdered(d1, p1, d2, p2);
    } else {
      KeysCoincideOrdered(d2, p2, d1, p1);
    }
  }

  lemma KeysCoincideOrdered(d1: string, p1: string, d2: string, p2: string)
    requires |d1| >= |d2|
    ensures Join(d1, p1) == Join(d2, p2) <==>
            || (d1 == d2 && p1 == p2)
            || (d2 + ":" <= d1 && p2 == d1[|d2| + 1..] + ":" + p1)
  {
    var k1, k2 := Join(d1, p1), Join(d2, p2);
    assert k1[..|d1|] == d1 && k1[|d1|] == ':' && k1[|d1| + 1..] == p1;
    assert k2[..|d2|] == d2 && k2[|d2|] == ':' && k2[|d2| + 1..] == p2;
    if k1 == k2 && |d1| == |d2| {
      assert d1 == d2 && p1 == p2;
    } else if k1 == k2 {
      assert d1[..|d2|] == k1[..|d2|] == d2;
      assert d1[|d2|] == k1[|d2|] == ':';
      assert d2 + ":" == d1[..|d2| + 1];
      assert p2 == k1[|d2| + 1..];
    }
    if d2 + ":" <= d1 && p2 == d1[|d2| + 1..] + ":" + p1 {
      var rest := d1[|d2| + 1..];
      assert d1 == d2 + ":" + rest;
      assert k2 == d2 + ":" + (rest + ":" + p1) == (d2 + ":" + rest) + ":" + p1;
    }
  }

  /** No name is another one followed by the separator. */
  predicate Separate(docs: set<string>) {
    forall d, d' :: d in docs && d' in docs ==> !(d + ":" <= d')
  }

  /** Joining is injective on these names, whatever the paths, exactly if they are separate. */
  lemma JoinInjectiveIff(docs: set<string>)
    ensures Separate(docs) <==>
            forall d, d', p, p' :: d in docs && d' in docs && Join(d, p) == Join(d', p') ==> d == d' && p == p'
  {
    if Separate(docs) {
      forall d, d', p, p' | d in docs && d' in docs && Join(d, p) == Join(d', p') ensures d == d' && p == p' {
        KeysCoincide(d, p, d', p');
      }
    } else {
      var d, d' :| d in docs && d' in docs && d + ":" <= d';
      var p := d'[|d| + 1..] + ":";
      KeysCoincide(d, p, d', "");
      assert p == d'[|d| + 1..] + ":" + "";
      assert Join(d, p) == Join(d', "");
      assert |d| < |d'|;
    }
  }

  /** The names that stand for an unknown document. */
  predicate Unknown(docName: Option<string>) {
    docName == None || docName == Some("") || docName == Some(UNKNOWN)
  }

  /** The pieces' documents can be told apart by key: no colon in the way, and one spelling of unknown. */
  ghost predicate Tellable(docNames: set<Option<string>>) {
    && Separate(set d | d in docNames :: NameOr(d))
    && forall d, d' :: d in docNames && d' in docNames && Unknown(d) && Unknown(d') ==> d == d'
  }

  /** Two pieces with the same key come from the same path of the same document. */
  ghost predicate KeyTells(e: Evidence, e': Evidence) {
    Key(e) == Key(e') ==> e.docName == e'.docName && e.sourcePath == e'.sourcePath
  }

  /**
   * The key stands for (document name, path), for all pieces from documents of these names, exactly if no name is
   * another one followed by a colon, and not two of the spellings of unknown are among them.
   */
  lemma KeyIsSourceIff(docNames: set<Option<string>>)
    ensures (forall e: Evidence, e': Evidence :: e.docName in docNames && e'.docName in docNames ==> KeyTells(e, e'))
            <==> Tellable(docNames)
  {
    var names := set d | d in docNames :: NameOr(d);
    JoinInjectiveIff(names);
    if Tellable(docNames) {
      forall e: Evidence, e': Evidence | e.docName in docNames && e'.docName in docNames ensures KeyTells(e, e') {
        assert NameOr(e.docName) in names && NameOr(e'.docName) in names;
      }
    } else if !Separate(names) {
      var d, d', p, p' :| d in names && d' in names && Join(d, p) == Join(d', p') && !(d == d' && p == p');
      var n :| n in docNames && NameOr(n) == d;
      var n' :| n' in docNames && NameOr(n') == d';
      assert !KeyTells(Evidence(p, "", "", n), Evidence(p', "", "", n'));
    } else {
      var d, d' :| d in docNames && d' in docNames && Unknown(d) && Unknown(d') && d != d';
      assert !KeyTells(Evidence("", "", "", d), Evidence("", "", "", d'));
    }
  }

  ghost function DocNames(es: seq<Evidence>): set<Option<string>> {
    set i | 0 <= i < |es| :: es[i].docName
  }

  /** Where documents can be told apart, only an earlier long piece of the same document and path stands in the way. */
  lemma FirstOfPair(t: Text, earlier: seq<Evidence>, e: Evidence)
    requires Tellable(DocNames(earlier + [e]))
    ensures FirstLong(t, earlier, e) <==>
            forall i :: 0 <= i < |earlier| && Long(t, earlier[i]) ==>
              earlier[i].docName != e.docName || earlier[i].sourcePath != e.sourcePath
  {
    hide Long, Tellable;
    KeyIsSourceIff(DocNames(earlier + [e]));
    forall i | 0 <= i < |earlier| ensures KeyTells(earlier[i], e) {
      assert (earlier + [e])[i] == earlier[i] && (earlier + [e])[|earlier|] == e;
    }
  }

  /** Whenever two long, unlike pieces share a key, only the first is kept. */
  lemma SharedKeyLosesEvidence(t: Text, a: Evidence, b: Evidence)
    requires Long(t, a) && Long(t, b) && !Near(t, b, a) && Key(a) == Key(b)
    ensures Deduped(t, [a, b]) == [a]
  {
    hide Long, Near, Deduped, Key;
    assert FirstLong(t, [], a) && !NearAny(t, [], a);
    assert !FirstLong(t, [a], b) by {
      assert Long(t, [a][0]);
    }
    DedupOneMore(t, [], a);
    DedupOneMore(t, [a], b);
    assert [a] + [b] == [a, b] && [] + [a] == [a];
  }

  /** A failing case: pieces of different documents, one name being the other followed by a colon and more. */
  lemma ColonInNameLosesEvidence(t: Text, a: Evidence, b: Evidence)
    requires Long(t, a) && Long(t, b) && !Near(t, b, a)
    requires a.docName == Some("Q3") && a.sourcePath == "Report:Summary"
    requires b.docName == Some("Q3:Report") && b.sourcePath == "Summary"
    ensures Deduped(t, [a, b]) == [a]
  {
    hide Long, Near, Deduped;
    assert Key(a) == Key(b) == "Q3:Report:Summary";
    SharedKeyLosesEvidence(t, a, b);
  }

  /** Another: a piece whose document's name could not be fetched, and one of a document called "_unknown". */
  lemma UnknownNameLosesEvidence(t: Text, a: Evidence, b: Evidence)
    requires Long(t, a) && Long(t, b) && !Near(t, b, a) && a.sourcePath == b.sourcePath
    requires a.docName == None || a.docName == Some("")
    requires b.docName == Some(UNKNOWN)
    ensures Deduped(t, [a, b]) == [a]
  {
    hide Long, Near, Deduped;
    SharedKeyLosesEvidence(t, a, b);
  }

  lemma DedupOneMore(t: Text, es: seq<Evidence>, e: Evidence)
    ensures Deduped(t, es + [e]) == Deduped(t, es) + (if Welcome(t, es, Deduped(t, es), e) then [e] else [])
    ensures Deduped(t, []) == []
  {
    hide Welcome;
    assert (es + [e])[..|es|] == es;
  }
}
