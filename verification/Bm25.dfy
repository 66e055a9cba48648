/**
 * Ranked full-text search over the nodes of a document. Scores are real numbers; of the logarithm only its sign above
 * one is used and, for the order of the answer, that it grows. The character classes of the language are given
 * functions.
 */
module Bm25 {
  import opened Prelude
  import opened Sorting

  // ----- Tokens -----

  datatype Chars = Chars(alphanumeric: char -> bool, lower: char -> string, width: char -> nat)

  const STOPWORDS: set<string> := {
    "the", "and", "for", "are", "with", "that", "this", "from", "what", "how", "was", "were", "has", "have", "had",
    "you", "your", "all", "any", "can", "will", "its", "into", "than", "then", "there", "their", "which"
  }

  /** Length in bytes, as the source measures it. */
  function ByteLength(c: Chars, w: string): nat {
    if w == "" then 0 else c.width(w[0]) + ByteLength(c, w[1..])
  }

  predicate IsToken(c: Chars, w: string) {
    ByteLength(c, w) >= 2 && w !in STOPWORDS
  }

  function Lower(c: Chars, w: string): string {
    if w == "" then "" else Lower(c, w[..|w| - 1]) + c.lower(w[|w| - 1])
  }

  /** Length of the longest alphanumeric prefix. */
  function Run(c: Chars, text: string): (n: nat)
    ensures n <= |text|
    ensures forall k :: 0 <= k < n ==> c.alphanumeric(text[k])
    ensures n < |text| ==> !c.alphanumeric(text[n])
  {
    if text == "" || !c.alphanumeric(text[0]) then 0 else Run(c, text[1..]) + 1
  }

  /** The maximal alphanumeric runs in lower case, without very short ones and stopwords. */
  function Tokens(c: Chars, text: string): seq<string>
    decreases |text|
  {
    if text == "" then []
    else
      var n := Run(c, text);
      if n == 0 then Tokens(c, text[1..])
      else (if IsToken(c, Lower(c, text[..n])) then [Lower(c, text[..n])] else []) + Tokens(c, text[n..])
  }

  lemma TokensOfRun(c: Chars, text: string, n: nat)
    requires n <= |text| && (forall k :: 0 <= k < n ==> c.alphanumeric(text[k]))
    requires n < |text| ==> !c.alphanumeric(text[n])
    ensures Tokens(c, text) == (if IsToken(c, Lower(c, text[..n])) then [Lower(c, text[..n])] else [])
                               + (if n == |text| then [] else Tokens(c, text[n + 1..]))
  {
    assert Run(c, text) == n;
    assert text[..0] == "";
    if 0 < n < |text| {
      assert Run(c, text[n..]) == 0;
      assert text[n..][1..] == text[n + 1..];
    }
  }

  /** The tokens from `s` on, when a run reaches from `s` to `i`. */
  lemma TokensFrom(c: Chars, text: string, s: nat, i: nat)
    requires s <= i <= |text| && (forall k :: s <= k < i ==> c.alphanumeric(text[k]))
    requires i < |text| ==> !c.alphanumeric(text[i])
    ensures Tokens(c, text[s..]) == (if IsToken(c, Lower(c, text[s..i])) then [Lower(c, text[s..i])] else [])
                                    + (if i == |text| then [] else Tokens(c, text[i + 1..]))
  {
    hide Tokens, IsToken, Lower;
    TokensOfRun(c, text[s..], i - s);
    assert text[s..][..i - s] == text[s..i];
    if i < |text| {
      assert text[s..][i - s + 1..] == text[i + 1..];
    }
  }

  lemma LowerPush(c: Chars, text: string, s: nat, i: nat)
    requires s <= i < |text|
    ensures Lower(c, text[s..i + 1]) == Lower(c, text[s..i]) + c.lower(text[i])
  {
    assert text[s..i + 1][..i - s] == text[s..i];
  }

  method Tokenize(c: Chars, text: string) returns (out: seq<string>)
    ensures out == Tokens(c, text)
  {
    hide IsToken, Tokens, Lower;
    EmptyIsNoToken(c);
    out := [];
    var cur := "";
    ghost var s := 0;
    assert text[0..] == text && text[0..0] == "";
    for i := 0 to |text|
      invariant 0 <= s <= i && cur == Lower(c, text[s..i])
      invariant forall k :: s <= k < i ==> c.alphanumeric(text[k])
      invariant Tokens(c, text) == out + Tokens(c, text[s..])
    {
      LowerPush(c, text, s, i);
      if c.alphanumeric(text[i]) {
        cur := cur + c.lower(text[i]);
      } else {
        TokensFrom(c, text, s, i);
        if cur != "" {
          if IsToken(c, cur) {
            out := out + [cur];
          }
          cur := "";
        }
        s := i + 1;
        assert text[s..i + 1] == "";
      }
    }
    TokensFrom(c, text, s, |text|);
    if IsToken(c, cur) {
      out := out + [cur];
    }
  }

  lemma EmptyIsNoToken(c: Chars)
    ensures !IsToken(c, "") && Lower(c, "") == ""
  {
  }

  // ----- The corpus -----

  datatype Node = Node(id: nat, title: string, summary: string, content: string)

  /** A node with at least one token: how many it has, and how often each query term is among them. */
  datatype Entry = Entry(id: nat, len: nat, tf: seq<nat>)

  function TokensOf(c: Chars, d: Node): seq<string> {
    Tokens(c, d.title) + Tokens(c, d.summary) + Tokens(c, d.content)
  }

  /** Each word once, in the order of first occurrence. */
  function FirstOccurrences(ws: seq<string>): (r: seq<string>)
    ensures Distinct(r) && forall w :: w in r <==> w in ws
  {
    if ws == [] then []
    else
      var (front, w) := (ws[..|ws| - 1], ws[|ws| - 1]);
      assert ws == front + [w];
      if w in FirstOccurrences(front) then FirstOccurrences(front) else FirstOccurrences(front) + [w]
  }

  function Terms(c: Chars, query: string): seq<string> {
    FirstOccurrences(Tokens(c, query))
  }

  function EntryOf(c: Chars, terms: seq<string>, d: Node): Entry {
    var toks := TokensOf(c, d);
    Entry(d.id, |toks|, seq(|terms|, i requires 0 <= i < |terms| => multiset(toks)[terms[i]]))
  }

  function Corpus(c: Chars, terms: seq<string>, docs: seq<Node>): seq<Entry> {
    if docs == [] then []
    else
      var d := docs[|docs| - 1];
      Corpus(c, terms, docs[..|docs| - 1]) + (if TokensOf(c, d) == [] then [] else [EntryOf(c, terms, d)])
  }

  /** How many entries contain term `i`. */
  function DocumentFrequency(es: seq<Entry>, i: nat): (n: nat)
    ensures n <= |es|
  {
    if es == [] then 0
    else
      var e := es[|es| - 1];
      DocumentFrequency(es[..|es| - 1], i) + (if i < |e.tf| && e.tf[i] > 0 then 1 else 0)
  }

  function TotalLength(es: seq<Entry>): nat {
    if es == [] then 0 else TotalLength(es[..|es| - 1]) + es[|es| - 1].len
  }

  ghost predicate Proper(es: seq<Entry>, terms: nat) {
    forall i :: 0 <= i < |es| ==> es[i].len > 0 && |es[i].tf| == terms
  }

  lemma {:induction false} CorpusProper(c: Chars, terms: seq<string>, docs: seq<Node>)
    ensures Proper(Corpus(c, terms, docs), |terms|)
  {
    if docs != [] {
      CorpusProper(c, terms, docs[..|docs| - 1]);
    }
  }

  lemma {:induction false} LengthAtLeastSize(es: seq<Entry>, terms: nat)
    requires Proper(es, terms)
    ensures TotalLength(es) >= |es|
  {
    if es != [] {
      LengthAtLeastSize(es[..|es| - 1], terms);
    }
  }

  // ----- Scores -----

  const K1 := 1.5
  const B := 0.75

  type Ln = real -> real

  /** All that is used of the logarithm to tell what is found. */
  ghost predicate PositiveAboveOne(ln: Ln) {
    forall x: real :: x > 1.0 ==> ln(x) > 0.0
  }

  function Idf(ln: Ln, n: nat, df: nat): real {
    ln((n as real - df as real + 0.5) / (df as real + 0.5) + 1.0)
  }

  function Idfs(ln: Ln, es: seq<Entry>, terms: nat): seq<real> {
    seq(terms, i requires 0 <= i < terms => Idf(ln, |es|, DocumentFrequency(es, i)))
  }

  function Denominator(f: nat, len: nat, avgdl: real): real
    requires avgdl > 0.0
  {
    f as real + K1 * (1.0 - B + B * (len as real / avgdl))
  }

  lemma DenominatorPositive(f: nat, len: nat, avgdl: real)
    requires avgdl > 0.0 && f > 0
    ensures Denominator(f, len, avgdl) > 0.0
  {
    var q := len as real / avgdl;
    assert q * avgdl == len as real;
    assert q >= 0.0;
  }

  /** The contribution of one term; terms that do not occur contribute nothing. */
  function Weight(idf: real, f: nat, len: nat, avgdl: real): real
    requires avgdl > 0.0
  {
    if f == 0 then 0.0
    else
      DenominatorPositive(f, len, avgdl);
      idf * (f as real * (K1 + 1.0)) / Denominator(f, len, avgdl)
  }

  function Score(idfs: seq<real>, e: Entry, avgdl: real, k: nat): real
    requires avgdl > 0.0 && k <= |e.tf| && k <= |idfs|
  {
    if k == 0 then 0.0 else Score(idfs, e, avgdl, k - 1) + Weight(idfs[k - 1], e.tf[k - 1], e.len, avgdl)
  }

  /** Every inverse document frequency is positive, as no term is in more entries than there are. */
  lemma IdfPositive(ln: Ln, n: nat, df: nat)
    requires PositiveAboveOne(ln) && df <= n
    ensures Idf(ln, n, df) > 0.0
  {
    var a, b := n as real - df as real + 0.5, df as real + 0.5;
    assert (a / b) * b == a;
    assert a / b > 0.0;
  }

  lemma WeightSign(idf: real, f: nat, len: nat, avgdl: real)
    requires idf > 0.0 && avgdl > 0.0
    ensures Weight(idf, f, len, avgdl) >= 0.0
    ensures Weight(idf, f, len, avgdl) > 0.0 <==> f > 0
  {
    if f > 0 {
      hide Denominator;
      DenominatorPositive(f, len, avgdl);
      var num, den := idf * (f as real * (K1 + 1.0)), Denominator(f, len, avgdl);
      assert num > 0.0;
      assert (num / den) * den == num;
    }
  }

  /** A score is positive exactly if some term occurs. */
  lemma {:induction false} ScorePositiveIff(idfs: seq<real>, e: Entry, avgdl: real, k: nat)
    requires avgdl > 0.0 && k <= |e.tf| && k <= |idfs| && forall i :: 0 <= i < k ==> idfs[i] > 0.0
    ensures Score(idfs, e, avgdl, k) >= 0.0
    ensures Score(idfs, e, avgdl, k) > 0.0 <==> exists i :: 0 <= i < k && e.tf[i] > 0
  {
    if k > 0 {
      ScorePositiveIff(idfs, e, avgdl, k - 1);
      WeightSign(idfs[k - 1], e.tf[k - 1], e.len, avgdl);
    }
  }

  // ----- The search -----

  datatype Hit = Hit(id: nat, score: real)

  function Descending(h: Hit): real {
    -h.score
  }

  function AverageLength(es: seq<Entry>): real
    requires es != []
  {
    TotalLength(es) as real / |es| as real
  }

  lemma AveragePositive(es: seq<Entry>, terms: nat)
    requires es != [] && Proper(es, terms)
    ensures AverageLength(es) > 0.0
  {
    LengthAtLeastSize(es, terms);
    var t, n := TotalLength(es) as real, |es| as real;
    assert (t / n) * n == t;
  }

  function Scored(idfs: seq<real>, es: seq<Entry>, avgdl: real): seq<Hit>
    requires avgdl > 0.0 && forall i :: 0 <= i < |es| ==> |es[i].tf| == |idfs|
  {
    if es == [] then []
    else
      var (front, e) := (es[..|es| - 1], es[|es| - 1]);
      var score := Score(idfs, e, avgdl, |idfs|);
      Scored(idfs, front, avgdl) + (if score > 0.0 then [Hit(e.id, score)] else [])
  }

  /** All nodes with a positive score, before ranking. */
  function Hits(c: Chars, ln: Ln, docs: seq<Node>, query: string): seq<Hit> {
    var terms := Terms(c, query);
    var es := Corpus(c, terms, docs);
    if terms == [] || es == [] then []
    else
      CorpusProper(c, terms, docs);
      AveragePositive(es, |terms|);
      Scored(Idfs(ln, es, |terms|), es, AverageLength(es))
  }

  method Search(c: Chars, ln: Ln, docs: seq<Node>, query: string, limit: nat) returns (hits: seq<Hit>)
    ensures hits == Top(Descending, Hits(c, ln, docs, query), if limit == 0 then 10 else limit)
    ensures |hits| <= if limit == 0 then 10 else limit
    ensures Increasing(ln) && PositiveAboveOne(ln) && DistinctNodes(docs) ==> RanksRight(c, docs, query, hits)
  {
    hide Hits, Top, RanksRight, Increasing, PositiveAboveOne, DistinctNodes;
    if Increasing(ln) && PositiveAboveOne(ln) && DistinctNodes(docs) {
      AnswerRanksRight(c, ln, docs, query, if limit == 0 then 10 else limit);
    }
    ghost var _ := TopIsTop(Descending, Hits(c, ln, docs, query), if limit == 0 then 10 else limit);
    hits := RankedHits(c, ln, docs, query, limit);
  }

  method RankedHits(c: Chars, ln: Ln, docs: seq<Node>, query: string, limit: nat) returns (hits: seq<Hit>)
    ensures hits == Top(Descending, Hits(c, ln, docs, query), if limit == 0 then 10 else limit)
  {
    var terms := QueryTerms(c, query);
    if terms == [] {
      return [];
    }
    var es, df, totalLen := CountTerms(c, terms, docs);
    if es == [] {
      return [];
    }
    CorpusProper(c, terms, docs);
    AveragePositive(es, |terms|);
    var avgdl := totalLen as real / |es| as real;
    var idfs := seq(|terms|, i requires 0 <= i < |terms| => Idf(ln, |es|, df[i]));
    assert idfs == Idfs(ln, es, |terms|);
    var scored := ScoreAll(idfs, es, avgdl);
    hits := Top(Descending, scored, if limit == 0 then 10 else limit);
  }

  method QueryTerms(c: Chars, query: string) returns (terms: seq<string>)
    ensures terms == Terms(c, query)
  {
    var toks := Tokenize(c, query);
    terms := [];
    for i := 0 to |toks|
      invariant terms == FirstOccurrences(toks[..i])
    {
      assert toks[..i + 1][..i] == toks[..i];
      if toks[i] !in terms {
        terms := terms + [toks[i]];
      }
    }
    assert toks[..|toks|] == toks;
  }

  function IndexOf(terms: seq<string>, w: string): (i: nat)
    ensures i <= |terms| && (i < |terms| ==> terms[i] == w) && forall j :: 0 <= j < i ==> terms[j] != w
  {
    if terms == [] || terms[0] == w then 0 else IndexOf(terms[1..], w) + 1
  }

  lemma CountedOneMore(terms: seq<string>, seen: seq<string>, w: string, i: nat, tf: seq<nat>)
    requires Distinct(terms) && |tf| == |terms|
    requires forall j :: 0 <= j < |terms| ==> tf[j] == multiset(seen)[terms[j]]
    requires i <= |terms| && (i < |terms| ==> terms[i] == w) && forall j :: 0 <= j < i ==> terms[j] != w
    ensures var tf' := if i < |terms| then tf[i := tf[i] + 1] else tf;
      forall j :: 0 <= j < |terms| ==> tf'[j] == multiset(seen + [w])[terms[j]]
  {
  }

  /** Add the tokens of one field to the counts. */
  method CountField(c: Chars, terms: seq<string>, text: string, ghost before: seq<string>, len: nat, tf: seq<nat>)
    returns (len': nat, tf': seq<nat>)
    requires Distinct(terms) && |tf| == |terms| && len == |before|
    requires forall i :: 0 <= i < |terms| ==> tf[i] == multiset(before)[terms[i]]
    ensures len' == |before + Tokens(c, text)| && |tf'| == |terms|
    ensures forall i :: 0 <= i < |terms| ==> tf'[i] == multiset(before + Tokens(c, text))[terms[i]]
  {
    hide Distinct, Tokens, IndexOf;
    var toks := Tokenize(c, text);
    len', tf' := len, tf;
    assert before + toks[..0] == before;
    for k := 0 to |toks|
      invariant len' == len + k && |tf'| == |terms|
      invariant forall i :: 0 <= i < |terms| ==> tf'[i] == multiset(before + toks[..k])[terms[i]]
    {
      var i := IndexOf(terms, toks[k]);
      CountedOneMore(terms, before + toks[..k], toks[k], i, tf');
      assert before + toks[..k + 1] == before + toks[..k] + [toks[k]];
      len' := len' + 1;
      if i < |terms| {
        tf' := tf'[i := tf'[i] + 1];
      }
    }
    assert toks[..|toks|] == toks;
  }

  /** Length and term counts of one node, field by field. */
  method CountNode(c: Chars, terms: seq<string>, d: Node) returns (e: Entry)
    requires Distinct(terms)
    ensures e == EntryOf(c, terms, d)
  {
    hide Tokens, Distinct;
    var len, tf := CountField(c, terms, d.title, [], 0, seq(|terms|, i => 0));
    assert [] + Tokens(c, d.title) == Tokens(c, d.title);
    len, tf := CountField(c, terms, d.summary, Tokens(c, d.title), len, tf);
    len, tf := CountField(c, terms, d.content, Tokens(c, d.title) + Tokens(c, d.summary), len, tf);
    e := Entry(d.id, len, tf);
    assert tf == EntryOf(c, terms, d).tf;
  }

  method CountTerms(c: Chars, terms: seq<string>, docs: seq<Node>) returns (es: seq<Entry>, df: seq<nat>, totalLen: nat)
    requires Distinct(terms)
    ensures es == Corpus(c, terms, docs) && totalLen == TotalLength(es)
    ensures |df| == |terms| && forall i :: 0 <= i < |df| ==> df[i] == DocumentFrequency(es, i)
  {
    hide TokensOf, Distinct;
    es, totalLen := [], 0;
    df := seq(|terms|, i => 0);
    for k := 0 to |docs|
      invariant es == Corpus(c, terms, docs[..k]) && totalLen == TotalLength(es)
      invariant |df| == |terms| && forall i :: 0 <= i < |df| ==> df[i] == DocumentFrequency(es, i)
    {
      var e := CountNode(c, terms, docs[k]);
      assert docs[..k + 1][..k] == docs[..k];
      if e.len != 0 {
        df := Bump(es, df, e);
        totalLen := totalLen + e.len;
        assert (es + [e])[..|es|] == es;
        es := es + [e];
      }
    }
    assert docs[..|docs|] == docs;
  }

  method Bump(ghost es: seq<Entry>, df: seq<nat>, e: Entry) returns (df': seq<nat>)
    requires |df| == |e.tf| && forall i :: 0 <= i < |df| ==> df[i] == DocumentFrequency(es, i)
    ensures |df'| == |df| && forall i :: 0 <= i < |df| ==> df'[i] == DocumentFrequency(es + [e], i)
  {
    df' := df;
    assert (es + [e])[..|es|] == es;
    for i := 0 to |df|
      invariant |df'| == |df|
      invariant forall j :: 0 <= j < i ==> df'[j] == DocumentFrequency(es + [e], j)
      invariant forall j :: i <= j < |df| ==> df'[j] == df[j]
    {
      if e.tf[i] > 0 {
        df' := df'[i := df'[i] + 1];
      }
    }
  }

  method ScoreAll(idfs: seq<real>, es: seq<Entry>, avgdl: real) returns (scored: seq<Hit>)
    requires avgdl > 0.0 && forall i :: 0 <= i < |es| ==> |es[i].tf| == |idfs|
    ensures scored == Scored(idfs, es, avgdl)
  {
    hide Weight;
    scored := [];
    for k := 0 to |es|
      invariant scored == Scored(idfs, es[..k], avgdl)
    {
      var score := 0.0;
      for i := 0 to |idfs|
        invariant score == Score(idfs, es[k], avgdl, i)
      {
        score := score + Weight(idfs[i], es[k].tf[i], es[k].len, avgdl);
      }
      assert es[..k + 1][..k] == es[..k];
      if score > 0.0 {
        scored := scored + [Hit(es[k].id, score)];
      }
    }
    assert es[..|es|] == es;
  }

  // ----- What is found -----

  /** The node has a token of the query in its title, summary or content. */
  ghost predicate Matches(c: Chars, d: Node, query: string) {
    exists w :: w in Tokens(c, query)
                && (w in Tokens(c, d.title) || w in Tokens(c, d.summary) || w in Tokens(c, d.content))
  }

  lemma TokensOfFields(c: Chars, d: Node, w: string)
    ensures w in TokensOf(c, d) <==> w in Tokens(c, d.title) || w in Tokens(c, d.summary) || w in Tokens(c, d.content)
    ensures multiset(TokensOf(c, d))
         == multiset(Tokens(c, d.title)) + multiset(Tokens(c, d.summary)) + multiset(Tokens(c, d.content))
  {
  }

  ghost predicate HasId(hits: seq<Hit>, id: nat) {
    exists i :: 0 <= i < |hits| && hits[i].id == id
  }

  lemma EntryMatches(c: Chars, d: Node, query: string)
    ensures var e := EntryOf(c, Terms(c, query), d);
      (exists i :: 0 <= i < |e.tf| && e.tf[i] > 0) <==> Matches(c, d, query)
    ensures Matches(c, d, query) ==> TokensOf(c, d) != [] && Terms(c, query) != []
  {
    hide Tokens, TokensOf;
    var (terms, e) := (Terms(c, query), EntryOf(c, Terms(c, query), d));
    var toks := TokensOf(c, d);
    forall w ensures w in toks <==> w in Tokens(c, d.title) || w in Tokens(c, d.summary) || w in Tokens(c, d.content) {
      TokensOfFields(c, d, w);
    }
    if i :| 0 <= i < |e.tf| && e.tf[i] > 0 {
      assert terms[i] in terms && terms[i] in multiset(toks);
    }
    if w :| w in Tokens(c, query) && w in toks {
      var i :| 0 <= i < |terms| && terms[i] == w;
      assert w in multiset(toks) && e.tf[i] > 0;
    }
  }

  ghost predicate Occurs(e: Entry) {
    exists i :: 0 <= i < |e.tf| && e.tf[i] > 0
  }

  ghost predicate AnyOccurs(es: seq<Entry>, id: nat) {
    exists i :: 0 <= i < |es| && es[i].id == id && Occurs(es[i])
  }

  ghost predicate AnyMatches(c: Chars, docs: seq<Node>, query: string, id: nat) {
    exists i :: 0 <= i < |docs| && docs[i].id == id && Matches(c, docs[i], query)
  }

  lemma ScoreOccurs(idfs: seq<real>, e: Entry, avgdl: real)
    requires avgdl > 0.0 && |e.tf| == |idfs| && forall i :: 0 <= i < |idfs| ==> idfs[i] > 0.0
    ensures Score(idfs, e, avgdl, |idfs|) > 0.0 <==> Occurs(e)
  {
    ScorePositiveIff(idfs, e, avgdl, |idfs|);
  }

  lemma HasIdPush(hits: seq<Hit>, h: Hit, id: nat)
    ensures HasId(hits + [h], id) <==> HasId(hits, id) || h.id == id
  {
    if HasId(hits, id) {
      var i :| 0 <= i < |hits| && hits[i].id == id;
      assert (hits + [h])[i].id == id;
    }
    if h.id == id {
      assert (hits + [h])[|hits|].id == id;
    }
  }

  lemma AnyOccursPush(es: seq<Entry>, e: Entry, id: nat)
    ensures AnyOccurs(es + [e], id) <==> AnyOccurs(es, id) || (e.id == id && Occurs(e))
  {
    hide Occurs;
    if AnyOccurs(es, id) {
      var i :| 0 <= i < |es| && es[i].id == id && Occurs(es[i]);
      assert (es + [e])[i] == es[i];
    }
    if e.id == id && Occurs(e) {
      assert (es + [e])[|es|] == e;
    }
  }

  lemma AnyMatchesPush(c: Chars, docs: seq<Node>, d: Node, query: string, id: nat)
    ensures AnyMatches(c, docs + [d], query, id) <==>
            AnyMatches(c, docs, query, id) || (d.id == id && Matches(c, d, query))
  {
    hide Matches;
    if AnyMatches(c, docs, query, id) {
      var i :| 0 <= i < |docs| && docs[i].id == id && Matches(c, docs[i], query);
      assert (docs + [d])[i] == docs[i];
    }
    if d.id == id && Matches(c, d, query) {
      assert (docs + [d])[|docs|] == d;
    }
  }

  lemma {:induction false} ScoredAreThoseOccurring(idfs: seq<real>, es: seq<Entry>, avgdl: real, id: nat)
    requires avgdl > 0.0 && forall i :: 0 <= i < |es| ==> |es[i].tf| == |idfs|
    requires forall i :: 0 <= i < |idfs| ==> idfs[i] > 0.0
    ensures HasId(Scored(idfs, es, avgdl), id) <==> AnyOccurs(es, id)
  {
    hide Score, Occurs, HasId, AnyOccurs;
    NothingOccurs(id);
    if es != [] {
      var (front, e) := (es[..|es| - 1], es[|es| - 1]);
      ScoredAreThoseOccurring(idfs, front, avgdl, id);
      ScoreOccurs(idfs, e, avgdl);
      assert es == front + [e];
      var hit := Hit(e.id, Score(idfs, e, avgdl, |idfs|));
      var hits := Scored(idfs, front, avgdl);
      assert Scored(idfs, es, avgdl) == if hit.score > 0.0 then hits + [hit] else hits;
      HasIdPush(hits, hit, id);
      AnyOccursPush(front, e, id);
    }
  }

  lemma {:induction false} CorpusHasThoseMatching(c: Chars, docs: seq<Node>, query: string, id: nat)
    ensures AnyOccurs(Corpus(c, Terms(c, query), docs), id) <==> AnyMatches(c, docs, query, id)
  {
    hide TokensOf, Terms, EntryOf, Occurs, AnyOccurs, AnyMatches, Matches;
    NothingOccurs(id);
    NothingMatches(c, query, id);
    if docs != [] {
      var (front, d) := (docs[..|docs| - 1], docs[|docs| - 1]);
      CorpusHasThoseMatching(c, front, query, id);
      EntryOccurs(c, d, query);
      assert docs == front + [d];
      var (es, e) := (Corpus(c, Terms(c, query), front), EntryOf(c, Terms(c, query), d));
      assert Corpus(c, Terms(c, query), docs) == if TokensOf(c, d) == [] then es else es + [e];
      AnyOccursPush(es, e, id);
      AnyMatchesPush(c, front, d, query, id);
    }
  }

  lemma EntryOccurs(c: Chars, d: Node, query: string)
    ensures Occurs(EntryOf(c, Terms(c, query), d)) <==> Matches(c, d, query)
    ensures Matches(c, d, query) ==> TokensOf(c, d) != []
    ensures EntryOf(c, Terms(c, query), d).id == d.id
  {
    EntryMatches(c, d, query);
  }

  lemma AllIdfsPositive(ln: Ln, es: seq<Entry>, terms: nat)
    requires PositiveAboveOne(ln)
    ensures forall i :: 0 <= i < terms ==> Idfs(ln, es, terms)[i] > 0.0
  {
    hide Idf, DocumentFrequency;
    forall i | 0 <= i < terms ensures Idfs(ln, es, terms)[i] > 0.0 {
      IdfPositive(ln, |es|, DocumentFrequency(es, i));
    }
  }

  lemma NothingToFind(c: Chars, docs: seq<Node>, query: string, id: nat)
    requires Terms(c, query) == []
    ensures !AnyMatches(c, docs, query, id)
  {
    hide Tokens, TokensOf;
  }

  lemma NothingOccurs(id: nat)
    ensures !AnyOccurs([], id) && !HasId([], id)
  {
  }

  lemma NothingMatches(c: Chars, query: string, id: nat)
    ensures !AnyMatches(c, [], query, id)
  {
  }

  /** Before ranking, exactly the nodes that have a token of the query are found. */
  lemma FindsExactlyMatches(c: Chars, ln: Ln, docs: seq<Node>, query: string, id: nat)
    requires PositiveAboveOne(ln)
    ensures HasId(Hits(c, ln, docs, query), id) <==> AnyMatches(c, docs, query, id)
  {
    hide HasId, AnyOccurs, AnyMatches, Scored, Corpus, Terms, PositiveAboveOne, Idfs, AverageLength;
    var terms := Terms(c, query);
    var es := Corpus(c, terms, docs);
    NothingOccurs(id);
    CorpusHasThoseMatching(c, docs, query, id);
    if terms == [] {
      NothingToFind(c, docs, query, id);
    } else if es != [] {
      CorpusProper(c, terms, docs);
      AveragePositive(es, |terms|);
      AllIdfsPositive(ln, es, |terms|);
      IdfsLength(ln, es, |terms|);
      ScoredAreThoseOccurring(Idfs(ln, es, |terms|), es, AverageLength(es), id);
    }
  }

  lemma IdfsLength(ln: Ln, es: seq<Entry>, terms: nat)
    ensures |Idfs(ln, es, terms)| == terms
  {
  }

  function IdsOf(hits: seq<Hit>): (r: seq<nat>)
    ensures |r| == |hits| && forall i :: 0 <= i < |hits| ==> r[i] == hits[i].id
  {
    seq(|hits|, i requires 0 <= i < |hits| => hits[i].id)
  }

  ghost predicate DistinctNodes(docs: seq<Node>) {
    forall i, j :: 0 <= i < j < |docs| ==> docs[i].id != docs[j].id
  }

  ghost predicate DistinctEntries(es: seq<Entry>) {
    forall i, j :: 0 <= i < j < |es| ==> es[i].id != es[j].id
  }

  lemma {:induction false} CorpusDistinct(c: Chars, terms: seq<string>, docs: seq<Node>)
    requires DistinctNodes(docs)
    ensures DistinctEntries(Corpus(c, terms, docs))
    ensures forall i :: 0 <= i < |Corpus(c, terms, docs)| ==>
              exists j :: 0 <= j < |docs| && docs[j].id == Corpus(c, terms, docs)[i].id
  {
    hide TokensOf;
    if docs != [] {
      var front := docs[..|docs| - 1];
      CorpusDistinct(c, terms, front);
      var (es, all) := (Corpus(c, terms, front), Corpus(c, terms, docs));
      forall i | 0 <= i < |es| ensures exists j :: 0 <= j < |docs| && docs[j].id == es[i].id {
        var j :| 0 <= j < |front| && front[j].id == es[i].id;
        assert docs[j] == front[j];
      }
      assert docs[|docs| - 1].id == EntryOf(c, terms, docs[|docs| - 1]).id;
    }
  }

  lemma {:induction false} ScoredDistinct(idfs: seq<real>, es: seq<Entry>, avgdl: real)
    requires avgdl > 0.0 && (forall i :: 0 <= i < |es| ==> |es[i].tf| == |idfs|) && DistinctEntries(es)
    ensures Distinct(IdsOf(Scored(idfs, es, avgdl)))
    ensures forall i :: 0 <= i < |Scored(idfs, es, avgdl)| ==>
              exists j :: 0 <= j < |es| && es[j].id == Scored(idfs, es, avgdl)[i].id
  {
    hide Score;
    if es != [] {
      var front := es[..|es| - 1];
      ScoredDistinct(idfs, front, avgdl);
      var hits := Scored(idfs, front, avgdl);
      forall i | 0 <= i < |hits| ensures exists j :: 0 <= j < |es| && es[j].id == hits[i].id {
        var j :| 0 <= j < |front| && front[j].id == hits[i].id;
        assert es[j] == front[j];
      }
      var all := Scored(idfs, es, avgdl);
      forall i, j | 0 <= i < j < |all| ensures IdsOf(all)[i] != IdsOf(all)[j] {
        assert IdsOf(hits)[i] == hits[i].id;
        if j < |hits| {
          assert IdsOf(hits)[j] == hits[j].id;
        }
      }
    }
  }

  /** Nodes with distinct ids are each found once. */
  lemma HitsDistinct(c: Chars, ln: Ln, docs: seq<Node>, query: string)
    requires DistinctNodes(docs)
    ensures Distinct(IdsOf(Hits(c, ln, docs, query)))
  {
    hide Scored, Corpus, Terms, Idfs, AverageLength, DistinctEntries;
    var terms := Terms(c, query);
    var es := Corpus(c, terms, docs);
    if terms != [] && es != [] {
      CorpusProper(c, terms, docs);
      AveragePositive(es, |terms|);
      IdfsLength(ln, es, |terms|);
      CorpusDistinct(c, terms, docs);
      ScoredDistinct(Idfs(ln, es, |terms|), es, AverageLength(es));
    }
  }

  /** Of distinct nodes none is answered twice, nor answered and cut. */
  lemma AnswerDistinct(c: Chars, ln: Ln, docs: seq<Node>, query: string, found: seq<Hit>, cut: seq<Hit>)
    requires DistinctNodes(docs) && multiset(found) + multiset(cut) == multiset(Hits(c, ln, docs, query))
    ensures Distinct(IdsOf(found + cut))
  {
    hide Hits, DistinctNodes;
    var (hits, all) := (Hits(c, ln, docs, query), found + cut);
    HitsDistinct(c, ln, docs, query);
    forall i, j | 0 <= i < j < |hits| ensures hits[i] != hits[j] {
      assert IdsOf(hits)[i] != IdsOf(hits)[j];
    }
    PermutationMembers(hits, all);
    forall i, j | 0 <= i < j < |all| ensures IdsOf(all)[i] != IdsOf(all)[j] {
      assert all[i] in hits && all[j] in hits && all[i] != all[j];
      var x :| 0 <= x < |hits| && hits[x] == all[i];
      var y :| 0 <= y < |hits| && hits[y] == all[j];
      assert IdsOf(hits)[x] != IdsOf(hits)[y];
    }
  }

  /**
   * The answer of a search: in order of falling score, as many as asked for and available; every entry is a matching
   * node, and a matching node left out scores no higher than any shown.
   */
  lemma AnswerIsTop(c: Chars, ln: Ln, docs: seq<Node>, query: string, limit: nat) returns (cut: seq<Hit>)
    requires PositiveAboveOne(ln)
    ensures var found := Top(Descending, Hits(c, ln, docs, query), limit);
      && |found| == Min(limit, |Hits(c, ln, docs, query)|)
      && (forall i, j :: 0 <= i < j < |found| ==> found[i].score >= found[j].score)
      && (forall i :: 0 <= i < |found| ==> AnyMatches(c, docs, query, found[i].id))
      && multiset(found) + multiset(cut) == multiset(Hits(c, ln, docs, query))
      && (forall x, y :: x in found && y in cut ==> x.score >= y.score)
      && (forall id :: AnyMatches(c, docs, query, id) ==> HasId(found, id) || HasId(cut, id))
      && (DistinctNodes(docs) ==> Distinct(IdsOf(found + cut)))
  {
    hide Hits, AnyMatches, Top, Sort, DistinctNodes, IdsOf;
    var hits := Hits(c, ln, docs, query);
    cut := TopIsTop(Descending, hits, limit);
    var found := Top(Descending, hits, limit);
    if DistinctNodes(docs) {
      AnswerDistinct(c, ln, docs, query, found, cut);
    }
    PermutationMembers(hits, found + cut);
    forall i | 0 <= i < |found| ensures AnyMatches(c, docs, query, found[i].id) {
      assert (found + cut)[i] in hits;
      FindsExactlyMatches(c, ln, docs, query, found[i].id);
    }
    forall id | AnyMatches(c, docs, query, id) ensures HasId(found, id) || HasId(cut, id) {
      FindsExactlyMatches(c, ln, docs, query, id);
      var i :| 0 <= i < |hits| && hits[i].id == id;
      assert hits[i] in found + cut;
    }
    forall x, y | x in found && y in cut ensures x.score >= y.score {
      assert Descending(x) <= Descending(y);
    }
    forall i, j | 0 <= i < j < |found| ensures found[i].score >= found[j].score {
      assert Descending(found[i]) <= Descending(found[j]);
    }
  }

  // ----- What tokens are -----

  /** A separator divides the tokens of a text. */
  lemma {:induction false} TokensDivide(c: Chars, x: string, sep: char, y: string)
    requires !c.alphanumeric(sep)
    ensures Tokens(c, x + [sep] + y) == Tokens(c, x) + Tokens(c, y)
    decreases |x|
  {
    hide Tokens, IsToken, Lower;
    var text := x + [sep] + y;
    var n := Run(c, x);
    RunBefore(c, x, sep, y);
    TokensOfRun(c, text, n);
    assert text[..n] == x[..n];
    TokensOfRun(c, x, n);
    if n < |x| {
      assert text[n + 1..] == x[n + 1..] + [sep] + y;
      TokensDivide(c, x[n + 1..], sep, y);
    } else {
      assert text[n + 1..] == y;
    }
  }

  lemma {:induction false} RunBefore(c: Chars, x: string, sep: char, y: string)
    requires !c.alphanumeric(sep)
    ensures Run(c, x + [sep] + y) == Run(c, x)
  {
    if x != "" {
      assert (x + [sep] + y)[1..] == x[1..] + [sep] + y;
      RunBefore(c, x[1..], sep, y);
    }
  }

  /**
   * A text without separators is one token, in lower case character by character, unless it is less than two bytes
   * long or a stopword.
   */
  lemma TokensOfWord(c: Chars, word: string, parts: seq<string>)
    requires forall k :: 0 <= k < |word| ==> c.alphanumeric(word[k])
    requires |parts| == |word| && forall k :: 0 <= k < |word| ==> parts[k] == c.lower(word[k])
    ensures var w := Concat(parts);
      Tokens(c, word) == if Bytes(c, w) >= 2 && w !in STOPWORDS then [w] else []
  {
    hide Tokens, Lower, Concat;
    TokensOfRun(c, word, |word|);
    assert word[..|word|] == word;
    LowerConcat(c, word, parts);
    BytesAre(c, Concat(parts));
  }

  function Concat(parts: seq<string>): string {
    if parts == [] then "" else Concat(parts[..|parts| - 1]) + parts[|parts| - 1]
  }

  lemma {:induction false} LowerConcat(c: Chars, word: string, parts: seq<string>)
    requires |parts| == |word| && forall k :: 0 <= k < |word| ==> parts[k] == c.lower(word[k])
    ensures Lower(c, word) == Concat(parts)
  {
    if word != "" {
      LowerConcat(c, word[..|word| - 1], parts[..|word| - 1]);
    }
  }

  /** The widths of all characters together. */
  function Bytes(c: Chars, w: string): nat {
    if w == "" then 0 else Bytes(c, w[..|w| - 1]) + c.width(w[|w| - 1])
  }

  lemma {:induction false} BytesAre(c: Chars, w: string)
    ensures ByteLength(c, w) == Bytes(c, w)
  {
    if w != "" {
      BytesAre(c, w[..|w| - 1]);
      ByteLengthLast(c, w[..|w| - 1], w[|w| - 1]);
      assert w == w[..|w| - 1] + [w[|w| - 1]];
    }
  }

  lemma {:induction false} ByteLengthLast(c: Chars, w: string, x: char)
    ensures ByteLength(c, w + [x]) == ByteLength(c, w) + c.width(x)
  {
    if w != "" {
      assert (w + [x])[1..] == w[1..] + [x];
      ByteLengthLast(c, w[1..], x);
    } else {
      assert (w + [x])[1..] == "";
    }
  }

  // ----- What scores mean -----

  /** The logarithm grows on the positive numbers. */
  ghost predicate Increasing(ln: Ln) {
    forall x, y :: 0.0 < x < y ==> ln(x) < ln(y)
  }

  /** How often the word occurs in the node. */
  ghost function Count(c: Chars, d: Node, w: string): nat {
    multiset(Tokens(c, d.title))[w] + multiset(Tokens(c, d.summary))[w] + multiset(Tokens(c, d.content))[w]
  }

  /** How many tokens the node has. */
  function Length(c: Chars, d: Node): nat {
    |Tokens(c, d.title)| + |Tokens(c, d.summary)| + |Tokens(c, d.content)|
  }

  /** How many of the nodes contain the word. */
  ghost function Spread(c: Chars, docs: seq<Node>, w: string): nat {
    if docs == [] then 0
    else Spread(c, docs[..|docs| - 1], w) + (if Count(c, docs[|docs| - 1], w) > 0 then 1 else 0)
  }

  /** The node's score, if the search finds it. */
  ghost predicate ScoredAs(c: Chars, ln: Ln, docs: seq<Node>, query: string, d: Node, score: real) {
    Hit(d.id, score) in Hits(c, ln, docs, query)
  }

  /** The node contains `w` and no other word of the query. */
  ghost predicate OnlyWord(c: Chars, d: Node, query: string, w: string) {
    && w in Tokens(c, query) && Count(c, d, w) > 0
    && forall v :: v in Tokens(c, query) && v != w ==> Count(c, d, v) == 0
  }

  lemma IdfFalls(ln: Ln, n: nat, df: nat, df': nat)
    requires Increasing(ln) && df < df' <= n
    ensures Idf(ln, n, df) > Idf(ln, n, df')
  {
    var (a, b, s) := (df as real + 0.5, df' as real + 0.5, n as real + 1.0);
    IdfArgument(n, df);
    IdfArgument(n, df');
    QuotientFalls(s, a, b);
  }

  lemma IdfArgument(n: nat, df: nat)
    ensures (n as real - df as real + 0.5) / (df as real + 0.5) + 1.0 == (n as real + 1.0) / (df as real + 0.5)
  {
    var (p, b) := (n as real - df as real + 0.5, df as real + 0.5);
    assert (p / b) * b == p;
    assert ((p + b) / b) * b == p + b;
    assert (p / b + 1.0) * b == p + b;
    Cancel(p / b + 1.0, (p + b) / b, b);
    assert p + b == n as real + 1.0;
  }

  lemma Cancel(x: real, y: real, b: real)
    requires b > 0.0 && x * b == y * b
    ensures x == y
  {
    assert (x - y) * b == 0.0;
  }

  lemma QuotientFalls(s: real, a: real, b: real)
    requires s > 0.0 && 0.0 < a < b
    ensures s / a > s / b > 0.0
  {
    var (x, y) := (s / a, s / b);
    assert x * a == s && y * b == s;
    SignOfProduct(y, b);
    assert (x - y) * a == y * (b - a);
    SignOfProduct(y, b - a);
    SignOfProduct(x - y, a);
  }

  lemma SignOfProduct(z: real, a: real)
    requires a > 0.0
    ensures z > 0.0 <==> z * a > 0.0
    ensures z >= 0.0 <==> z * a >= 0.0
  {
    if z > 0.0 {
      assert z * a > 0.0;
    } else if z < 0.0 {
      assert z * a < 0.0;
    }
  }

  lemma QuotientsBy(p: real, q: real, p': real, q': real)
    requires q > 0.0 && q' > 0.0 && p * q' < p' * q
    ensures p / q < p' / q'
  {
    var (x, y) := (p / q, p' / q');
    assert x * q == p && y * q' == p';
    assert p' * q - p * q' == (y - x) * (q * q');
    assert q * q' > 0.0;
    SignOfProduct(y - x, q * q');
  }

  /** A weight by its factor `g`, the count `x` and the length's part `k`. */
  function Saturation(g: real, x: real, k: real): real
    requires x > 0.0 && k > 0.0
  {
    g * x / (x + k)
  }

  lemma SaturationsCompare(g: real, x: real, k: real, g': real, x': real, k': real)
    requires x > 0.0 && k > 0.0 && x' > 0.0 && k' > 0.0
    requires (g * x) * (x' + k') < (g' * x') * (x + k)
    ensures Saturation(g, x, k) < Saturation(g', x', k')
  {
    QuotientsBy(g * x, x + k, g' * x', x' + k');
  }

  lemma SaturationByCount(g: real, x: real, y: real, k: real)
    requires g > 0.0 && k > 0.0 && 0.0 < x < y
    ensures Saturation(g, x, k) < Saturation(g, y, k)
  {
    hide Saturation;
    MoreCount(g, x, y, k);
    SaturationsCompare(g, x, k, g, y, k);
  }

  lemma MoreCount(g: real, x: real, y: real, k: real)
    requires g > 0.0 && k > 0.0 && 0.0 < x < y
    ensures (g * x) * (y + k) < (g * y) * (x + k)
  {
    SmallerTimes(x, y, g);
    SmallerTimes(g * x, g * y, k);
    Exchange(g, x, y);
    Distribute(g * x, y, k);
    Distribute(g * y, x, k);
  }

  lemma SaturationByLength(g: real, x: real, k: real, l: real)
    requires g > 0.0 && x > 0.0 && 0.0 < k < l
    ensures Saturation(g, x, l) < Saturation(g, x, k)
  {
    hide Saturation;
    SignOfProduct(g, x);
    SmallerTimes(x + k, x + l, g * x);
    SaturationsCompare(g, x, l, g, x, k);
  }

  lemma SaturationByFactor(g: real, g': real, x: real, k: real)
    requires g < g' && x > 0.0 && k > 0.0
    ensures Saturation(g, x, k) < Saturation(g', x, k)
  {
    hide Saturation;
    MoreFactor(g, g', x, x + k);
    SaturationsCompare(g, x, k, g', x, k);
  }

  lemma MoreFactor(g: real, g': real, x: real, q: real)
    requires g < g' && x > 0.0 && q > 0.0
    ensures (g * x) * q < (g' * x) * q
  {
    SmallerTimes(g, g', x);
    SmallerTimes(g * x, g' * x, q);
  }

  lemma SaturationBounded(g: real, x: real, k: real)
    requires g > 0.0 && x > 0.0 && k > 0.0
    ensures Saturation(g, x, k) < g
  {
    LessThanAll(g, x, k);
    QuotientBelow(g * x, x + k, g);
  }

  lemma LessThanAll(g: real, x: real, k: real)
    requires g > 0.0 && x > 0.0 && k > 0.0
    ensures (g * x) * 1.0 < g * (x + k)
  {
    SignOfProduct(g, k);
    Distribute(g, x, k);
  }

  lemma QuotientBelow(p: real, q: real, g: real)
    requires q > 0.0 && p * 1.0 < g * q
    ensures p / q < g
  {
    QuotientsBy(p, q, g, 1.0);
    assert g / 1.0 == g;
  }

  lemma SmallerTimes(p: real, q: real, k: real)
    requires p < q && k > 0.0
    ensures p * k < q * k
  {
    assert q * k - p * k == (q - p) * k;
    SignOfProduct(q - p, k);
  }

  lemma Exchange(g: real, x: real, y: real)
    ensures (g * x) * y == (g * y) * x
  {
  }

  lemma Distribute(p: real, y: real, k: real)
    ensures p * (y + k) == p * y + p * k
  {
  }

  /** More occurrences of a term weigh more. */
  lemma WeightByCount(idf: real, f: nat, f': nat, len: nat, avgdl: real)
    requires idf > 0.0 && avgdl > 0.0 && f < f'
    ensures Weight(idf, f, len, avgdl) < Weight(idf, f', len, avgdl)
  {
    hide Weight, Denominator, LengthPart, Saturation;
    WeightSign(idf, f', len, avgdl);
    if f > 0 {
      WeightParts(idf, f, len, avgdl);
      WeightParts(idf, f', len, avgdl);
      SaturationByCount(idf * 2.5, f as real, f' as real, LengthPart(len, avgdl));
    } else {
      NoWeight(idf, len, avgdl);
    }
  }

  lemma NoWeight(idf: real, len: nat, avgdl: real)
    requires avgdl > 0.0
    ensures Weight(idf, 0, len, avgdl) == 0.0
  {
  }

  /** The same occurrences weigh less in a longer node. */
  lemma WeightByLength(idf: real, f: nat, len: nat, len': nat, avgdl: real)
    requires idf > 0.0 && avgdl > 0.0 && f > 0 && len < len'
    ensures Weight(idf, f, len, avgdl) > Weight(idf, f, len', avgdl)
  {
    hide Weight, Denominator, LengthPart, Saturation;
    WeightParts(idf, f, len, avgdl);
    WeightParts(idf, f, len', avgdl);
    DenominatorParts(len, len', avgdl);
    SaturationByLength(idf * 2.5, f as real, LengthPart(len, avgdl), LengthPart(len', avgdl));
  }

  function LengthPart(len: nat, avgdl: real): real
    requires avgdl > 0.0
  {
    K1 * (1.0 - B + B * (len as real / avgdl))
  }

  lemma WeightParts(idf: real, f: nat, len: nat, avgdl: real)
    requires avgdl > 0.0 && f > 0
    ensures LengthPart(len, avgdl) > 0.0
    ensures Weight(idf, f, len, avgdl) == Saturation(idf * 2.5, f as real, LengthPart(len, avgdl))
  {
    DenominatorParts(len, len, avgdl);
    DenominatorPositive(f, len, avgdl);
    assert idf * (f as real * (K1 + 1.0)) == idf * 2.5 * f as real;
  }

  lemma DenominatorParts(len: nat, len': nat, avgdl: real)
    requires avgdl > 0.0
    ensures LengthPart(len, avgdl) > 0.0
    ensures len < len' ==> LengthPart(len, avgdl) < LengthPart(len', avgdl)
  {
    var (x, y) := (len as real / avgdl, len' as real / avgdl);
    assert x * avgdl == len as real && y * avgdl == len' as real;
    SignOfProduct(x, avgdl);
    assert (y - x) * avgdl == len' as real - len as real;
    SignOfProduct(y - x, avgdl);
  }

  /** Once in a node of average length a term weighs just its inverse document frequency. */
  lemma WeightAtAverage(idf: real, len: nat, avgdl: real)
    requires avgdl > 0.0 && len as real == avgdl
    ensures Weight(idf, 1, len, avgdl) == idf
  {
    hide Weight, LengthPart;
    AverageLengthPart(len, avgdl);
    WeightParts(idf, 1, len, avgdl);
    assert idf * 2.5 * 1.0 == idf * 2.5;
    Cancel(Weight(idf, 1, len, avgdl), idf, 2.5);
  }

  lemma AverageLengthPart(len: nat, avgdl: real)
    requires avgdl > 0.0 && len as real == avgdl
    ensures LengthPart(len, avgdl) == 1.5
  {
    var q := len as real / avgdl;
    assert q * avgdl == len as real;
    Cancel(q, 1.0, avgdl);
  }

  /** However often a term occurs, it weighs less than 2.5 times its inverse document frequency. */
  lemma WeightBounded(idf: real, f: nat, len: nat, avgdl: real)
    requires idf > 0.0 && avgdl > 0.0
    ensures Weight(idf, f, len, avgdl) < 2.5 * idf
  {
    hide Weight, LengthPart, Saturation;
    if f == 0 {
      NoWeight(idf, len, avgdl);
    } else {
      WeightParts(idf, f, len, avgdl);
      SaturationBounded(idf * 2.5, f as real, LengthPart(len, avgdl));
    }
  }

  lemma WeightByIdf(idf: real, idf': real, f: nat, len: nat, avgdl: real)
    requires avgdl > 0.0 && f > 0 && idf < idf'
    ensures Weight(idf, f, len, avgdl) < Weight(idf', f, len, avgdl)
  {
    hide Weight, LengthPart, Saturation;
    WeightParts(idf, f, len, avgdl);
    WeightParts(idf', f, len, avgdl);
    SaturationByFactor(idf * 2.5, idf' * 2.5, f as real, LengthPart(len, avgdl));
  }

  // ----- Scores of entries -----

  ghost predicate WeighsNoMore(idfs: seq<real>, e: Entry, e': Entry, avgdl: real, i: nat)
    requires avgdl > 0.0 && i < |idfs| && i < |e.tf| && i < |e'.tf|
  {
    Weight(idfs[i], e.tf[i], e.len, avgdl) <= Weight(idfs[i], e'.tf[i], e'.len, avgdl)
  }

  ghost predicate WeighsLess(idfs: seq<real>, e: Entry, e': Entry, avgdl: real, i: nat)
    requires avgdl > 0.0 && i < |idfs| && i < |e.tf| && i < |e'.tf|
  {
    Weight(idfs[i], e.tf[i], e.len, avgdl) < Weight(idfs[i], e'.tf[i], e'.len, avgdl)
  }

  lemma {:induction false} ScoresCompare(idfs: seq<real>, e: Entry, e': Entry, avgdl: real, k: nat)
    requires avgdl > 0.0 && k <= |idfs| && k <= |e.tf| && k <= |e'.tf|
    requires forall i :: 0 <= i < k ==> WeighsNoMore(idfs, e, e', avgdl, i)
    ensures Score(idfs, e, avgdl, k) <= Score(idfs, e', avgdl, k)
    ensures (exists i :: 0 <= i < k && WeighsLess(idfs, e, e', avgdl, i)) ==>
              Score(idfs, e, avgdl, k) < Score(idfs, e', avgdl, k)
  {
    hide Weight;
    if k > 0 {
      ScoresCompare(idfs, e, e', avgdl, k - 1);
      assert WeighsNoMore(idfs, e, e', avgdl, k - 1);
    }
  }

  /** With one term only, the score is its weight. */
  lemma {:induction false} OneTermScore(idfs: seq<real>, e: Entry, avgdl: real, k: nat, i: nat)
    requires avgdl > 0.0 && k <= |idfs| && k <= |e.tf| && i < |e.tf| && i < |idfs|
    requires forall j :: 0 <= j < |e.tf| && j != i ==> e.tf[j] == 0
    ensures Score(idfs, e, avgdl, k) == if i < k then Weight(idfs[i], e.tf[i], e.len, avgdl) else 0.0
  {
    hide Denominator;
    if k > 0 {
      OneTermScore(idfs, e, avgdl, k - 1, i);
    }
  }

  // ----- Scores of nodes -----

  lemma EntryCounts(c: Chars, terms: seq<string>, d: Node)
    ensures var e := EntryOf(c, terms, d);
      && e.id == d.id && e.len == Length(c, d) && |e.tf| == |terms|
      && forall i :: 0 <= i < |terms| ==> e.tf[i] == Count(c, d, terms[i])
  {
    hide Tokens;
  }

  lemma NoTokensNoCount(c: Chars, d: Node, w: string)
    ensures TokensOf(c, d) == [] ==> Count(c, d, w) == 0
  {
    hide Tokens;
  }

  lemma {:induction false} FrequencyIsSpread(c: Chars, terms: seq<string>, docs: seq<Node>, i: nat)
    requires i < |terms|
    ensures DocumentFrequency(Corpus(c, terms, docs), i) == Spread(c, docs, terms[i])
  {
    hide TokensOf, EntryOf, Count, Tokens, DocumentFrequency, Corpus;
    if docs == [] {
      NoCorpus(c, terms, i);
    } else {
      var (front, d) := (docs[..|docs| - 1], docs[|docs| - 1]);
      FrequencyIsSpread(c, terms, front, i);
      EntryCounts(c, terms, d);
      NoTokensNoCount(c, d, terms[i]);
      CorpusStep(c, terms, docs);
      FrequencyStep(Corpus(c, terms, front), EntryOf(c, terms, d), i);
    }
  }

  lemma NoCorpus(c: Chars, terms: seq<string>, i: nat)
    ensures DocumentFrequency(Corpus(c, terms, []), i) == 0
  {
  }

  lemma CorpusStep(c: Chars, terms: seq<string>, docs: seq<Node>)
    requires docs != []
    ensures var (front, d) := (docs[..|docs| - 1], docs[|docs| - 1]);
      Corpus(c, terms, docs)
      == if TokensOf(c, d) == [] then Corpus(c, terms, front) else Corpus(c, terms, front) + [EntryOf(c, terms, d)]
  {
    hide TokensOf, EntryOf;
  }

  lemma FrequencyStep(es: seq<Entry>, e: Entry, i: nat)
    ensures DocumentFrequency(es + [e], i) == DocumentFrequency(es, i) + if i < |e.tf| && e.tf[i] > 0 then 1 else 0
  {
    assert (es + [e])[..|es|] == es;
  }

  /** What the search weighs by. */
  ghost predicate Weighs(c: Chars, ln: Ln, docs: seq<Node>, query: string, idfs: seq<real>, avgdl: real) {
    var terms := Terms(c, query);
    && avgdl > 0.0 && |idfs| == |terms|
    && (forall i :: 0 <= i < |terms| ==> Spread(c, docs, terms[i]) <= |Corpus(c, terms, docs)|)
    && forall i :: 0 <= i < |terms| ==> idfs[i] == Idf(ln, |Corpus(c, terms, docs)|, Spread(c, docs, terms[i]))
  }

  lemma {:induction false} ScoredFrom(idfs: seq<real>, es: seq<Entry>, avgdl: real, h: Hit)
    requires avgdl > 0.0 && forall i :: 0 <= i < |es| ==> |es[i].tf| == |idfs|
    requires h in Scored(idfs, es, avgdl)
    ensures exists i :: 0 <= i < |es| && es[i].id == h.id && h.score == Score(idfs, es[i], avgdl, |idfs|)
  {
    hide Score;
    if es != [] {
      var front := es[..|es| - 1];
      if h in Scored(idfs, front, avgdl) {
        ScoredFrom(idfs, front, avgdl, h);
        var i :| 0 <= i < |front| && front[i].id == h.id && h.score == Score(idfs, front[i], avgdl, |idfs|);
        assert es[i] == front[i];
      } else {
        assert es[|es| - 1].id == h.id;
      }
    }
  }

  lemma {:induction false} CorpusFrom(c: Chars, terms: seq<string>, docs: seq<Node>, i: nat)
    requires i < |Corpus(c, terms, docs)|
    ensures exists j :: 0 <= j < |docs| && Corpus(c, terms, docs)[i] == EntryOf(c, terms, docs[j])
  {
    hide TokensOf, EntryOf;
    var front := docs[..|docs| - 1];
    if i < |Corpus(c, terms, front)| {
      CorpusFrom(c, terms, front, i);
      var j :| 0 <= j < |front| && Corpus(c, terms, front)[i] == EntryOf(c, terms, front[j]);
      assert docs[j] == front[j];
    } else {
      assert Corpus(c, terms, docs)[i] == EntryOf(c, terms, docs[|docs| - 1]);
    }
  }

  /** A found node's score is that of its entry. */
  lemma HitScore(c: Chars, ln: Ln, docs: seq<Node>, query: string, d: Node, score: real)
    returns (idfs: seq<real>, avgdl: real)
    requires DistinctNodes(docs) && d in docs && ScoredAs(c, ln, docs, query, d, score)
    ensures Weighs(c, ln, docs, query, idfs, avgdl)
    ensures |EntryOf(c, Terms(c, query), d).tf| == |idfs|
    ensures score == Score(idfs, EntryOf(c, Terms(c, query), d), avgdl, |idfs|)
    ensures idfs == Idfs(ln, Corpus(c, Terms(c, query), docs), |Terms(c, query)|)
    ensures Corpus(c, Terms(c, query), docs) != [] && avgdl == AverageLength(Corpus(c, Terms(c, query), docs))
  {
    hide TokensOf, Terms, Corpus, Score, Idf, AverageLength, Scored, Spread;
    var terms := Terms(c, query);
    var es := Corpus(c, terms, docs);
    CorpusProper(c, terms, docs);
    AveragePositive(es, |terms|);
    IdfsLength(ln, es, |terms|);
    idfs, avgdl := Idfs(ln, es, |terms|), AverageLength(es);
    forall i | 0 <= i < |terms|
      ensures Spread(c, docs, terms[i]) <= |es| && idfs[i] == Idf(ln, |es|, Spread(c, docs, terms[i]))
    {
      FrequencyIsSpread(c, terms, docs, i);
    }
    ScoredFrom(idfs, es, avgdl, Hit(d.id, score));
    var i :| 0 <= i < |es| && es[i].id == d.id && score == Score(idfs, es[i], avgdl, |idfs|);
    CorpusFrom(c, terms, docs, i);
    var j :| 0 <= j < |docs| && es[i] == EntryOf(c, terms, docs[j]);
    var k :| 0 <= k < |docs| && docs[k] == d;
    assert docs[j].id == docs[k].id;
  }

  /** Both contain one word of the query, equally often and among equally many tokens; the word of `d` is rarer. */
  ghost predicate HasRarerWord(c: Chars, docs: seq<Node>, query: string, d: Node, e: Node) {
    && Length(c, d) == Length(c, e)
    && exists v, w :: OnlyWord(c, d, query, v) && OnlyWord(c, e, query, w) && Count(c, d, v) == Count(c, e, w)
                      && Spread(c, docs, v) < Spread(c, docs, w)
  }

  /** Equally long, `d` has no word of the query less often, and some more often. */
  ghost predicate HasMore(c: Chars, query: string, d: Node, e: Node) {
    && Length(c, d) == Length(c, e)
    && (forall w :: w in Tokens(c, query) ==> Count(c, d, w) >= Count(c, e, w))
    && exists w :: w in Tokens(c, query) && Count(c, d, w) > Count(c, e, w)
  }

  /** Each word of the query equally often, and some at all; `d` is shorter. */
  ghost predicate IsShorter(c: Chars, query: string, d: Node, e: Node) {
    && Length(c, d) < Length(c, e)
    && (forall w :: w in Tokens(c, query) ==> Count(c, d, w) == Count(c, e, w))
    && exists w :: w in Tokens(c, query) && Count(c, d, w) > 0
  }

  lemma TermOf(c: Chars, query: string, w: string) returns (i: nat)
    requires w in Tokens(c, query)
    ensures i < |Terms(c, query)| && Terms(c, query)[i] == w
    ensures forall j :: 0 <= j < |Terms(c, query)| ==>
              Terms(c, query)[j] in Tokens(c, query) && (j != i ==> Terms(c, query)[j] != w)
  {
    hide Tokens;
    var terms := Terms(c, query);
    assert w in terms;
    i :| 0 <= i < |terms| && terms[i] == w;
    forall j | 0 <= j < |terms| ensures terms[j] in Tokens(c, query) && (j != i ==> terms[j] != w) {
      assert terms[j] in terms;
    }
  }

  lemma RarerScoresHigher(c: Chars, ln: Ln, docs: seq<Node>, query: string, d: Node, e: Node, s: real, s': real)
    requires Increasing(ln) && DistinctNodes(docs) && d in docs && e in docs && HasRarerWord(c, docs, query, d, e)
    requires ScoredAs(c, ln, docs, query, d, s) && ScoredAs(c, ln, docs, query, e, s')
    ensures s > s'
  {
    hide Tokens, Terms, Corpus, Score, Idf, AverageLength, EntryOf, Length, Count, Spread, Weight, ScoredAs, Idfs,
         DistinctNodes;
    var terms := Terms(c, query);
    var v, w :| OnlyWord(c, d, query, v) && OnlyWord(c, e, query, w) && Count(c, d, v) == Count(c, e, w)
                && Spread(c, docs, v) < Spread(c, docs, w);
    var i := TermOf(c, query, v);
    var j := TermOf(c, query, w);
    var idfs, avgdl := HitScore(c, ln, docs, query, d, s);
    var _, _ := HitScore(c, ln, docs, query, e, s');
    EntryCounts(c, terms, d);
    EntryCounts(c, terms, e);
    var (x, y) := (EntryOf(c, terms, d), EntryOf(c, terms, e));
    OneTermScore(idfs, x, avgdl, |idfs|, i);
    OneTermScore(idfs, y, avgdl, |idfs|, j);
    IdfFalls(ln, |Corpus(c, terms, docs)|, Spread(c, docs, v), Spread(c, docs, w));
    WeightByIdf(idfs[j], idfs[i], x.tf[i], x.len, avgdl);
  }

  lemma MoreScoresHigher(c: Chars, ln: Ln, docs: seq<Node>, query: string, d: Node, e: Node, s: real, s': real)
    requires PositiveAboveOne(ln) && DistinctNodes(docs) && d in docs && e in docs && HasMore(c, query, d, e)
    requires ScoredAs(c, ln, docs, query, d, s) && ScoredAs(c, ln, docs, query, e, s')
    ensures s > s'
  {
    hide Tokens, Terms, Corpus, Score, Idf, AverageLength, EntryOf, Length, Count, Spread, Weight, ScoredAs, Idfs,
         DistinctNodes, PositiveAboveOne;
    var terms := Terms(c, query);
    var idfs, avgdl := HitScore(c, ln, docs, query, d, s);
    var _, _ := HitScore(c, ln, docs, query, e, s');
    AllIdfsPositive(ln, Corpus(c, terms, docs), |terms|);
    EntryCounts(c, terms, d);
    EntryCounts(c, terms, e);
    var (x, y) := (EntryOf(c, terms, d), EntryOf(c, terms, e));
    var w :| w in Tokens(c, query) && Count(c, d, w) > Count(c, e, w);
    var k := TermOf(c, query, w);
    forall i | 0 <= i < |terms|
      ensures WeighsNoMore(idfs, y, x, avgdl, i) && (i == k ==> WeighsLess(idfs, y, x, avgdl, i))
    {
      assert Count(c, d, terms[i]) >= Count(c, e, terms[i]);
      if y.tf[i] < x.tf[i] {
        WeightByCount(idfs[i], y.tf[i], x.tf[i], x.len, avgdl);
      }
    }
    assert WeighsLess(idfs, y, x, avgdl, k);
    ScoresCompare(idfs, y, x, avgdl, |idfs|);
  }

  lemma ShorterScoresHigher(c: Chars, ln: Ln, docs: seq<Node>, query: string, d: Node, e: Node, s: real, s': real)
    requires PositiveAboveOne(ln) && DistinctNodes(docs) && d in docs && e in docs && IsShorter(c, query, d, e)
    requires ScoredAs(c, ln, docs, query, d, s) && ScoredAs(c, ln, docs, query, e, s')
    ensures s > s'
  {
    hide Tokens, Terms, Corpus, Score, Idf, AverageLength, EntryOf, Length, Count, Spread, Weight, ScoredAs, Idfs,
         DistinctNodes, PositiveAboveOne;
    var terms := Terms(c, query);
    var idfs, avgdl := HitScore(c, ln, docs, query, d, s);
    var _, _ := HitScore(c, ln, docs, query, e, s');
    AllIdfsPositive(ln, Corpus(c, terms, docs), |terms|);
    EntryCounts(c, terms, d);
    EntryCounts(c, terms, e);
    var (x, y) := (EntryOf(c, terms, d), EntryOf(c, terms, e));
    var w :| w in Tokens(c, query) && Count(c, d, w) > 0;
    var k := TermOf(c, query, w);
    forall i | 0 <= i < |terms|
      ensures WeighsNoMore(idfs, y, x, avgdl, i) && (i == k ==> WeighsLess(idfs, y, x, avgdl, i))
    {
      assert Count(c, d, terms[i]) == Count(c, e, terms[i]);
      if x.tf[i] > 0 {
        WeightByLength(idfs[i], x.tf[i], x.len, y.len, avgdl);
      } else {
        NoWeight(idfs[i], x.len, avgdl);
        NoWeight(idfs[i], y.len, avgdl);
      }
    }
    assert WeighsLess(idfs, y, x, avgdl, k);
    ScoresCompare(idfs, y, x, avgdl, |idfs|);
  }

  // ----- Order in the answer -----

  /** `d` ought to be answered before `e`. */
  ghost predicate Outranks(c: Chars, docs: seq<Node>, query: string, d: Node, e: Node) {
    HasRarerWord(c, docs, query, d, e) || HasMore(c, query, d, e) || IsShorter(c, query, d, e)
  }

  /** Wherever `e` is answered, `d` is answered before it. */
  ghost predicate AnsweredBefore(hits: seq<Hit>, d: nat, e: nat) {
    forall j :: 0 <= j < |hits| && hits[j].id == e ==> exists i :: 0 <= i < j && hits[i].id == d
  }

  lemma OutrankingMatches(c: Chars, docs: seq<Node>, query: string, d: Node, e: Node)
    requires Outranks(c, docs, query, d, e)
    ensures Matches(c, d, query)
  {
    hide Tokens, Spread, Length;
    var w :| w in Tokens(c, query) && Count(c, d, w) > 0;
    CountedOccurs(c, d, w);
  }

  lemma CountedOccurs(c: Chars, d: Node, w: string)
    requires Count(c, d, w) > 0
    ensures w in Tokens(c, d.title) || w in Tokens(c, d.summary) || w in Tokens(c, d.content)
  {
    hide Tokens;
  }

  /** A node that outranks a found one is found, with a higher score. */
  lemma OutrankingScore(c: Chars, ln: Ln, docs: seq<Node>, query: string, d: Node, e: Node, s': real) returns (s: real)
    requires Increasing(ln) && PositiveAboveOne(ln) && DistinctNodes(docs) && d in docs && e in docs
    requires Outranks(c, docs, query, d, e) && ScoredAs(c, ln, docs, query, e, s')
    ensures ScoredAs(c, ln, docs, query, d, s) && s > s'
  {
    hide Hits, Matches, HasRarerWord, HasMore, IsShorter, DistinctNodes, Increasing, PositiveAboveOne;
    OutrankingMatches(c, docs, query, d, e);
    var k :| 0 <= k < |docs| && docs[k] == d;
    assert AnyMatches(c, docs, query, d.id);
    FindsExactlyMatches(c, ln, docs, query, d.id);
    var hits := Hits(c, ln, docs, query);
    var i :| 0 <= i < |hits| && hits[i].id == d.id;
    s := hits[i].score;
    assert hits[i] == Hit(d.id, s);
    if HasRarerWord(c, docs, query, d, e) {
      RarerScoresHigher(c, ln, docs, query, d, e, s, s');
    } else if HasMore(c, query, d, e) {
      MoreScoresHigher(c, ln, docs, query, d, e, s, s');
    } else {
      ShorterScoresHigher(c, ln, docs, query, d, e, s, s');
    }
  }

  lemma RankedThroughout(hits: seq<Hit>, limit: nat) returns (all: seq<Hit>)
    ensures Top(Descending, hits, limit) <= all
    ensures forall h :: h in hits <==> h in all
    ensures forall i, j :: 0 <= j < |Top(Descending, hits, limit)| && j <= i < |all| ==> all[i].score <= all[j].score
  {
    hide Top, Sort;
    var found := Top(Descending, hits, limit);
    var cut := TopIsTop(Descending, hits, limit);
    all := found + cut;
    PermutationMembers(hits, all);
    forall i, j | 0 <= j < |found| && j <= i < |all| ensures all[i].score <= all[j].score {
      if i < |found| {
        assert Descending(found[j]) <= Descending(found[i]);
      } else {
        assert all[i] in cut && found[j] in found;
        assert Descending(found[j]) <= Descending(all[i]);
      }
    }
  }

  /** A hit that scores higher than one shown is shown before it. */
  lemma HigherFirst(hits: seq<Hit>, limit: nat, h: Hit, j: nat)
    requires j < |Top(Descending, hits, limit)| && h in hits && h.score > Top(Descending, hits, limit)[j].score
    ensures exists i :: 0 <= i < j && Top(Descending, hits, limit)[i] == h
  {
    hide Top, Sort;
    var all := RankedThroughout(hits, limit);
    var i :| 0 <= i < |all| && all[i] == h;
    assert Top(Descending, hits, limit)[j] == all[j];
    assert i < j;
  }

  /** In the answer to a query, nodes stand before those they outrank. */
  ghost predicate RanksRight(c: Chars, docs: seq<Node>, query: string, hits: seq<Hit>) {
    forall d, e :: d in docs && e in docs && Outranks(c, docs, query, d, e) ==> AnsweredBefore(hits, d.id, e.id)
  }

  lemma AnswerRanksRight(c: Chars, ln: Ln, docs: seq<Node>, query: string, limit: nat)
    requires Increasing(ln) && PositiveAboveOne(ln) && DistinctNodes(docs)
    ensures RanksRight(c, docs, query, Top(Descending, Hits(c, ln, docs, query), limit))
  {
    hide Hits, Outranks, Top, Sort, DistinctNodes, Increasing, PositiveAboveOne;
    var hits := Hits(c, ln, docs, query);
    var found := Top(Descending, hits, limit);
    forall d, e | d in docs && e in docs && Outranks(c, docs, query, d, e) ensures AnsweredBefore(found, d.id, e.id) {
      forall j | 0 <= j < |found| && found[j].id == e.id ensures exists i :: 0 <= i < j && found[i].id == d.id {
        TopFrom(hits, limit, j);
        assert found[j] == Hit(e.id, found[j].score);
        var s := OutrankingScore(c, ln, docs, query, d, e, found[j].score);
        HigherFirst(hits, limit, Hit(d.id, s), j);
      }
    }
  }

  lemma TopFrom(hits: seq<Hit>, limit: nat, j: nat)
    requires j < |Top(Descending, hits, limit)|
    ensures Top(Descending, hits, limit)[j] in hits
  {
    hide Top, Sort;
    var found := Top(Descending, hits, limit);
    var cut := TopIsTop(Descending, hits, limit);
    PermutationMembers(hits, found + cut);
    assert (found + cut)[j] in hits;
  }
}
