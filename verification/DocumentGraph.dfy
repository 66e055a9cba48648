/** The document graph: nodes, outgoing edges, the keyword index filled as nodes arrive, and the edge total. */
module DocumentGraph {
  import opened Prelude

  type DocId = string
  type Keyword = string

  datatype WeightedKeyword = WeightedKeyword(keyword: Keyword, weight: real)

  datatype GraphNode = GraphNode(
    docId: DocId,
    title: string,
    format: string,
    topKeywords: seq<WeightedKeyword>,
    nodeCount: nat)

  datatype SharedKeyword = SharedKeyword(keyword: Keyword, sourceWeight: real, targetWeight: real)

  datatype EdgeEvidence = EdgeEvidence(sharedKeywords: seq<SharedKeyword>, count: nat, jaccard: real)

  datatype GraphEdge = GraphEdge(target: DocId, weight: real, evidence: EdgeEvidence)

  datatype KeywordEntry = KeywordEntry(docId: DocId, weight: real)

  type Nodes = map<DocId, GraphNode>
  type Edges = map<DocId, seq<GraphEdge>>
  type KeywordIndex = map<Keyword, seq<KeywordEntry>>

  // ----- Keyword index -----

  /** What a missing key stands for: no entries. */
  function ListAt<K, V>(m: map<K, seq<V>>, k: K): seq<V> {
    if k in m then m[k] else []
  }

  /** `entry(k).or_default().push(v)` */
  function PushAt<K(!new), V>(m: map<K, seq<V>>, k: K, v: V): (r: map<K, seq<V>>)
    ensures forall q :: ListAt(r, q) == if q == k then ListAt(m, k) + [v] else ListAt(m, q)
    ensures r.Keys == m.Keys + {k}
  {
    m[k := ListAt(m, k) + [v]]
  }

  function Keywords(kws: seq<WeightedKeyword>): (r: set<Keyword>) {
    set i | 0 <= i < |kws| :: kws[i].keyword
  }

  ghost predicate DistinctKeywords(kws: seq<WeightedKeyword>) {
    forall i, j :: 0 <= i < j < |kws| ==> kws[i].keyword != kws[j].keyword
  }

  /** One entry per document carrying the keyword, with the document's weight for it, and no others. */
  ghost predicate IndexMatches(nodes: Nodes, index: KeywordIndex) {
    forall kw :: EntriesMatch(nodes, kw, ListAt(index, kw))
  }

  ghost predicate EntriesMatch(nodes: Nodes, kw: Keyword, entries: seq<KeywordEntry>) {
    && (forall i, j :: 0 <= i < j < |entries| ==> entries[i].docId != entries[j].docId)
    && (forall i :: 0 <= i < |entries| ==>
          entries[i].docId in nodes && WeightedKeyword(kw, entries[i].weight) in nodes[entries[i].docId].topKeywords)
    && (forall d :: d in nodes && kw in Keywords(nodes[d].topKeywords) ==> HasDoc(entries, d))
  }

  predicate HasDoc(entries: seq<KeywordEntry>, d: DocId) {
    exists i :: 0 <= i < |entries| && entries[i].docId == d
  }

  ghost predicate NodesOk(nodes: Nodes) {
    forall d :: d in nodes ==> nodes[d].docId == d && DistinctKeywords(nodes[d].topKeywords)
  }

  /** The index after a node's keywords are pushed, one after the other. */
  function IndexWith(index: KeywordIndex, docId: DocId, kws: seq<WeightedKeyword>): KeywordIndex {
    if kws == [] then index
    else
      var last := kws[|kws| - 1];
      PushAt(IndexWith(index, docId, kws[..|kws| - 1]), last.keyword, KeywordEntry(docId, last.weight))
  }

  /** Each of the node's keywords gains exactly one entry; the other lists are untouched. */
  lemma {:induction false} IndexWithLists(index: KeywordIndex, docId: DocId, kws: seq<WeightedKeyword>, kw: Keyword)
    requires DistinctKeywords(kws)
    ensures kw !in Keywords(kws) ==> ListAt(IndexWith(index, docId, kws), kw) == ListAt(index, kw)
    ensures forall i :: 0 <= i < |kws| && kws[i].keyword == kw ==>
              ListAt(IndexWith(index, docId, kws), kw) == ListAt(index, kw) + [KeywordEntry(docId, kws[i].weight)]
  {
    if kws != [] {
      var front, last := kws[..|kws| - 1], kws[|kws| - 1];
      IndexWithLists(index, docId, front, kw);
      if last.keyword == kw {
        assert kw !in Keywords(front);
      } else if kw in Keywords(kws) {
        var i :| 0 <= i < |kws| && kws[i].keyword == kw;
        assert front[i] == kws[i];
        assert kw in Keywords(front);
      } else {
        assert kw !in Keywords(front);
      }
    }
  }

  /** Adding a document with a new id keeps the index in step with the nodes. */
  lemma IndexStaysMatched(nodes: Nodes, index: KeywordIndex, node: GraphNode)
    requires IndexMatches(nodes, index) && node.docId !in nodes && DistinctKeywords(node.topKeywords)
    ensures IndexMatches(nodes[node.docId := node], IndexWith(index, node.docId, node.topKeywords))
  {
    hide IndexWith;
    var nodes', index' := nodes[node.docId := node], IndexWith(index, node.docId, node.topKeywords);
    forall kw ensures EntriesMatch(nodes', kw, ListAt(index', kw)) {
      IndexWithLists(index, node.docId, node.topKeywords, kw);
      EntryAdded(nodes, kw, ListAt(index, kw), node, ListAt(index', kw));
    }
  }

  lemma EntryAdded(nodes: Nodes, kw: Keyword, entries: seq<KeywordEntry>, node: GraphNode, entries': seq<KeywordEntry>)
    requires EntriesMatch(nodes, kw, entries) && node.docId !in nodes
    requires kw !in Keywords(node.topKeywords) ==> entries' == entries
    requires forall i :: 0 <= i < |node.topKeywords| && node.topKeywords[i].keyword == kw ==>
               entries' == entries + [KeywordEntry(node.docId, node.topKeywords[i].weight)]
    ensures EntriesMatch(nodes[node.docId := node], kw, entries')
  {
    var nodes' := nodes[node.docId := node];
    if kw in Keywords(node.topKeywords) {
      var i :| 0 <= i < |node.topKeywords| && node.topKeywords[i].keyword == kw;
      assert WeightedKeyword(kw, node.topKeywords[i].weight) == node.topKeywords[i];
      assert entries'[|entries|].docId == node.docId;
    }
    forall d | d in nodes' && kw in Keywords(nodes'[d].topKeywords) ensures HasDoc(entries', d) {
      if d != node.docId {
        var i :| 0 <= i < |entries| && entries[i].docId == d;
        assert entries'[i] == entries[i];
      }
    }
  }

  /** `x` was added before `y`. */
  ghost predicate Before(order: seq<DocId>, x: DocId, y: DocId) {
    exists i, j :: 0 <= i < j < |order| && order[i] == x && order[j] == y
  }

  /** Entries stand in the order in which their documents were added. */
  ghost predicate EntriesOrdered(order: seq<DocId>, entries: seq<KeywordEntry>) {
    && (forall i :: 0 <= i < |entries| ==> entries[i].docId in order)
    && (forall i, j :: 0 <= i < j < |entries| ==> Before(order, entries[i].docId, entries[j].docId))
  }

  ghost predicate IndexOrdered(order: seq<DocId>, index: KeywordIndex) {
    forall kw :: EntriesOrdered(order, ListAt(index, kw))
  }

  lemma BeforeGrows(order: seq<DocId>, x: DocId, y: DocId, z: DocId)
    ensures Before(order, x, y) ==> Before(order + [z], x, y)
    ensures x in order ==> Before(order + [z], x, z)
  {
    var more := order + [z];
    if Before(order, x, y) {
      var i, j :| 0 <= i < j < |order| && order[i] == x && order[j] == y;
      assert more[i] == x && more[j] == y;
    }
    if x in order {
      var i :| 0 <= i < |order| && order[i] == x;
      assert more[i] == x && more[|order|] == z;
    }
  }

  /** Pushing a new document's keywords keeps every list in order of addition. */
  lemma IndexStaysOrdered(order: seq<DocId>, index: KeywordIndex, docId: DocId, kws: seq<WeightedKeyword>)
    requires IndexOrdered(order, index) && DistinctKeywords(kws)
    ensures IndexOrdered(order + [docId], IndexWith(index, docId, kws))
  {
    hide Before, IndexWith;
    forall kw ensures EntriesOrdered(order + [docId], ListAt(IndexWith(index, docId, kws), kw)) {
      IndexWithLists(index, docId, kws, kw);
      assert EntriesOrdered(order, ListAt(index, kw));
      OrderedPush(order, ListAt(index, kw), docId);
      if kw in Keywords(kws) {
        var i :| 0 <= i < |kws| && kws[i].keyword == kw;
        assert EntriesOrdered(order + [docId], ListAt(index, kw) + [KeywordEntry(docId, kws[i].weight)]);
      }
    }
  }

  lemma OrderedPush(order: seq<DocId>, entries: seq<KeywordEntry>, docId: DocId)
    requires EntriesOrdered(order, entries)
    ensures EntriesOrdered(order + [docId], entries)
    ensures forall w :: EntriesOrdered(order + [docId], entries + [KeywordEntry(docId, w)])
  {
    hide Before;
    forall i, j | 0 <= i < j < |entries| ensures Before(order + [docId], entries[i].docId, entries[j].docId) {
      BeforeGrows(order, entries[i].docId, entries[j].docId, docId);
    }
    forall i | 0 <= i < |entries| ensures Before(order + [docId], entries[i].docId, docId) {
      BeforeGrows(order, entries[i].docId, docId, docId);
    }
  }

  // ----- Edge totals -----

  ghost function AnySource(edges: Edges): (d: DocId)
    requires edges.Keys != {}
    ensures d in edges
  {
    var d :| d in edges.Keys;
    d
  }

  /** The number of edges of all sources together. */
  ghost function TotalEdges(edges: Edges): nat {
    if edges.Keys == {} then 0
    else |edges[AnySource(edges)]| + TotalEdges(edges - {AnySource(edges)})
  }

  /** The total does not depend on the order of summation. */
  lemma {:induction false} TotalWithout(edges: Edges, d: DocId)
    requires d in edges
    ensures TotalEdges(edges) == |edges[d]| + TotalEdges(edges - {d})
    decreases |edges|
  {
    var x := AnySource(edges);
    if x != d {
      TotalWithout(edges - {x}, d);
      TotalWithout(edges - {d}, x);
      assert edges - {x} - {d} == edges - {d} - {x};
    }
  }

  /** The total grows by one with each pushed edge. */
  lemma TotalPush(edges: Edges, source: DocId, edge: GraphEdge)
    ensures TotalEdges(PushAt(edges, source, edge)) == TotalEdges(edges) + 1
  {
    var more := PushAt(edges, source, edge);
    TotalWithout(more, source);
    assert more - {source} == edges - {source};
    if source in edges {
      TotalWithout(edges, source);
    } else {
      assert edges - {source} == edges;
    }
  }

  /** `add_node`'s loop over the top keywords. */
  method PushKeywords(index0: KeywordIndex, docId: DocId, kws: seq<WeightedKeyword>) returns (index: KeywordIndex)
    ensures index == IndexWith(index0, docId, kws)
  {
    index := index0;
    for i := 0 to |kws|
      invariant index == IndexWith(index0, docId, kws[..i])
    {
      assert kws[..i + 1][..i] == kws[..i];
      index := PushAt(index, kws[i].keyword, KeywordEntry(docId, kws[i].weight));
    }
    assert kws[..|kws|] == kws;
  }

  class DocumentGraph {
    var nodes: Nodes
    var edges: Edges
    var keywordIndex: KeywordIndex
    var documentCount: nat
    var edgeCount: nat

    ghost predicate Valid()
      reads this
    {
      documentCount == |nodes| && edgeCount == TotalEdges(edges)
    }

    constructor ()
      ensures Valid() && nodes == map[] && edges == map[] && keywordIndex == map[]
    {
      nodes, edges, keywordIndex, documentCount, edgeCount := map[], map[], map[], 0, 0;
    }

    /** A node with an id already present replaces the old node, but its keywords are pushed again. */
    method AddNode(node: GraphNode)
      requires Valid()
      modifies this
      ensures Valid()
      ensures nodes == old(nodes)[node.docId := node]
      ensures keywordIndex == IndexWith(old(keywordIndex), node.docId, node.topKeywords)
      ensures edges == old(edges)
      ensures old(node.docId !in nodes && IndexMatches(nodes, keywordIndex)) && DistinctKeywords(node.topKeywords)
              ==> IndexMatches(nodes, keywordIndex)
    {
      hide IndexMatches, DistinctKeywords, TotalEdges, IndexWith;
      if node.docId !in nodes && IndexMatches(nodes, keywordIndex) && DistinctKeywords(node.topKeywords) {
        IndexStaysMatched(nodes, keywordIndex, node);
      }
      var index := PushKeywords(keywordIndex, node.docId, node.topKeywords);
      keywordIndex := index;
      nodes := nodes[node.docId := node];
      documentCount := |nodes|;
    }

    method CountEdges() returns (n: nat)
      ensures n == TotalEdges(edges)
    {
      n := 0;
      var rest := edges;
      while rest.Keys != {}
        invariant n + TotalEdges(rest) == TotalEdges(edges)
        decreases |rest|
      {
        var d :| d in rest.Keys;
        TotalWithout(rest, d);
        n := n + |rest[d]|;
        rest := rest - {d};
      }
    }

    method AddEdge(source: DocId, edge: GraphEdge)
      requires Valid()
      modifies this`edges, this`edgeCount
      ensures Valid()
      ensures edges == PushAt(old(edges), source, edge)
    {
      edges := PushAt(edges, source, edge);
      edgeCount := CountEdges();
    }

    method TakeEdges() returns (taken: Edges)
      modifies this`edges
      ensures taken == old(edges) && edges == map[]
    {
      taken := edges;
      edges := map[];
    }

    method SetEdges(newEdges: Edges)
      requires documentCount == |nodes|
      modifies this`edges, this`edgeCount
      ensures Valid() && edges == newEdges
    {
      edges := newEdges;
      edgeCount := CountEdges();
    }

    /** In a graph whose index is in step, looking up a keyword finds exactly the documents carrying it. */
    method FindByKeyword(keyword: Keyword) returns (entries: seq<KeywordEntry>)
      requires IndexMatches(nodes, keywordIndex)
      ensures forall d :: d in nodes && keyword in Keywords(nodes[d].topKeywords) <==> HasDoc(entries, d)
      ensures forall i, j :: 0 <= i < j < |entries| ==> entries[i].docId != entries[j].docId
    {
      assert EntriesMatch(nodes, keyword, ListAt(keywordIndex, keyword));
      entries := ListAt(keywordIndex, keyword);
      forall d | HasDoc(entries, d) ensures d in nodes && keyword in Keywords(nodes[d].topKeywords) {
        var i :| 0 <= i < |entries| && entries[i].docId == d;
        var wk := WeightedKeyword(keyword, entries[i].weight);
        assert wk in nodes[d].topKeywords;
        assert wk.keyword in Keywords(nodes[d].topKeywords);
      }
    }
  }
}
