/** The retrieval index: one breadth-first pass over the tree, and lookups that agree with the linear searches. */
module RetrievalIndex {
  import opened Prelude
  import opened Arena
  import opened Numbering
  import Trees = DocumentTree
  import Sorting

  datatype RetrievalIndex = RetrievalIndex(
    leaves: seq<NodeId>,
    levels: seq<seq<NodeId>>,
    paths: map<NodeId, seq<NodeId>>,
    siblings: map<NodeId, seq<NodeId>>,
    structures: map<string, NodeId>,
    pages: map<nat, NodeId>,
    ranges: map<NodeId, (nat, nat)>,
    nodeCount: nat,
    maxDepth: nat)

  // ----- What each table holds once the nodes of `done` have been visited, in that order -----

  /** The last node of `ns` with this (non-empty) number. */
  ghost function LastNumbered(a: Arena, ns: seq<NodeId>, structure: string): (r: Option<NodeId>)
    requires AllIn(a, ns)
    ensures r.Some? ==> r.value in ns && r.value < |a| && a[r.value].data.structure == structure != ""
    ensures r.None? ==> structure == "" || forall i :: 0 <= i < |ns| ==> a[ns[i]].data.structure != structure
  {
    if ns == [] then None
    else if a[ns[|ns| - 1]].data.structure == structure != "" then Some(ns[|ns| - 1])
    else LastNumbered(a, ns[..|ns| - 1], structure)
  }

  /** The last node of `ns` covering the page. */
  ghost function LastCovering(a: Arena, ns: seq<NodeId>, page: nat): (r: Option<NodeId>)
    requires AllIn(a, ns)
    ensures r.Some? ==> r.value in ns && r.value < |a| && Trees.CoversPage(a[r.value].data, page)
    ensures r.None? ==> forall i :: 0 <= i < |ns| ==> !Trees.CoversPage(a[ns[i]].data, page)
  {
    if ns == [] then None
    else if Trees.CoversPage(a[ns[|ns| - 1]].data, page) then Some(ns[|ns| - 1])
    else LastCovering(a, ns[..|ns| - 1], page)
  }

  ghost predicate StructuresAfter(a: Arena, done: seq<NodeId>, structures: map<string, NodeId>)
    requires AllIn(a, done)
  {
    forall s :: Lookup(structures, s) == LastNumbered(a, done, s)
  }

  ghost predicate PagesAfter(a: Arena, done: seq<NodeId>, pages: map<nat, NodeId>)
    requires AllIn(a, done)
  {
    forall page: nat :: Lookup(pages, page) == LastCovering(a, done, page)
  }

  ghost predicate RangesAfter(a: Arena, done: seq<NodeId>, ranges: map<NodeId, (nat, nat)>)
    requires AllIn(a, done)
  {
    forall n: NodeId :: Lookup(ranges, n) == if n in done then PageRange(a[n].data) else None
  }

  /** The parent of `c` has been visited. */
  ghost predicate ParentIn(a: Arena, done: seq<NodeId>, c: NodeId) {
    c < |a| && a[c].parent.Some? && a[c].parent.value < |a| && a[c].parent.value in done
  }

  /** Only children of parents with several children get an entry: the parent's other children, in order. */
  ghost predicate SiblingsAfter(a: Arena, done: seq<NodeId>, siblings: map<NodeId, seq<NodeId>>) {
    forall c: NodeId :: Lookup(siblings, c) ==
      if ParentIn(a, done, c) && |a[a[c].parent.value].children| > 1
      then Some(Without<NodeId>(a[a[c].parent.value].children, c))
      else None
  }

  ghost predicate PathsAfter(a: Arena, done: seq<NodeId>, paths: map<NodeId, seq<NodeId>>)
    requires WellFormed(a)
  {
    forall c: NodeId :: Lookup(paths, c) == if c == ROOT || ParentIn(a, done, c) then Some(PathTo(a, c)) else None
  }

  ghost predicate MaxDepthAfter(a: Arena, done: seq<NodeId>, maxDepth: nat)
    requires AllIn(a, done)
  {
    && (forall i :: 0 <= i < |done| ==> a[done[i]].data.depth <= maxDepth)
    && (maxDepth == 0 || exists i :: 0 <= i < |done| && a[done[i]].data.depth == maxDepth)
  }

  // ----- One visit -----

  method IndexPages(pages0: map<nat, NodeId>, n: NodeId, start: nat, end: nat) returns (pages: map<nat, NodeId>)
    ensures forall page: nat :: Lookup(pages, page) == if start <= page <= end then Some(n) else Lookup(pages0, page)
  {
    pages := pages0;
    var page := start;
    while page <= end
      invariant start <= page
      invariant forall q: nat ::
                  Lookup(pages, q) == if start <= q < page && q <= end then Some(n) else Lookup(pages0, q)
      decreases end + 1 - page
    {
      LookupUpdate<nat, NodeId>(pages, page, n);
      pages := pages[page := n];
      page := page + 1;
    }
  }

  lemma WithoutAt(s: seq<NodeId>, i: nat)
    requires i < |s| && Distinct(s)
    ensures Without<NodeId>(s, s[i]) == s[..i] + s[i + 1..]
  {
    hide Without;
    var x := s[i];
    assert s == s[..i] + ([x] + s[i + 1..]);
    WithoutConcat<NodeId>(s[..i], [x] + s[i + 1..], x);
    WithoutConcat<NodeId>([x], s[i + 1..], x);
    WithoutLength<NodeId>(s[..i], x);
    WithoutLength<NodeId>(s[i + 1..], x);
    WithoutLength<NodeId>([x], x);
  }

  method IndexSiblings(siblings0: map<NodeId, seq<NodeId>>, children: seq<NodeId>)
    returns (siblings: map<NodeId, seq<NodeId>>)
    requires Distinct(children)
    ensures forall c: NodeId :: Lookup(siblings, c) ==
              if c in children && |children| > 1 then Some(Without<NodeId>(children, c)) else Lookup(siblings0, c)
  {
    hide Without;
    siblings := siblings0;
    if |children| > 1 {
      for i := 0 to |children|
        invariant forall c: NodeId :: Lookup(siblings, c) ==
                    if c in children[..i] then Some(Without<NodeId>(children, c)) else Lookup(siblings0, c)
      {
        assert children[..i + 1] == children[..i] + [children[i]];
        WithoutAt(children, i);
        LookupUpdate(siblings, children[i], children[..i] + children[i + 1..]);
        siblings := siblings[children[i] := children[..i] + children[i + 1..]];
      }
      assert children[..|children|] == children;
    }
  }

  method IndexPaths(paths0: map<NodeId, seq<NodeId>>, n: NodeId, children: seq<NodeId>)
    returns (paths: map<NodeId, seq<NodeId>>)
    ensures forall c: NodeId :: Lookup(paths, c) ==
              if n in paths0 && c in children then Some(paths0[n] + [c]) else Lookup(paths0, c)
  {
    paths := paths0;
    if n in paths0 {
      var parentPath := paths0[n];
      for i := 0 to |children|
        invariant forall c: NodeId :: Lookup(paths, c) ==
                    if c in children[..i] then Some(parentPath + [c]) else Lookup(paths0, c)
      {
        assert children[..i + 1] == children[..i] + [children[i]];
        LookupUpdate(paths, children[i], parentPath + [children[i]]);
        paths := paths[children[i] := parentPath + [children[i]]];
      }
      assert children[..|children|] == children;
    }
  }

  // ----- What a visit adds to each table -----

  lemma StructuresVisit(a: Arena, done: seq<NodeId>, n: NodeId, structures: map<string, NodeId>)
    requires AllIn(a, done) && n < |a| && StructuresAfter(a, done, structures)
    ensures AllIn(a, done + [n])
    ensures a[n].data.structure != "" ==> StructuresAfter(a, done + [n], structures[a[n].data.structure := n])
    ensures a[n].data.structure == "" ==> StructuresAfter(a, done + [n], structures)
  {
    LookupUpdate(structures, a[n].data.structure, n);
    assert (done + [n])[..|done|] == done;
  }

  lemma PagesVisit(a: Arena, done: seq<NodeId>, n: NodeId, pages: map<nat, NodeId>, next: map<nat, NodeId>)
    requires AllIn(a, done) && n < |a| && PagesAfter(a, done, pages)
    requires forall page: nat :: Lookup(next, page) ==
               if Trees.CoversPage(a[n].data, page) then Some(n) else Lookup(pages, page)
    ensures AllIn(a, done + [n]) && PagesAfter(a, done + [n], next)
  {
    assert (done + [n])[..|done|] == done;
  }

  lemma RangesVisit(a: Arena, done: seq<NodeId>, n: NodeId, ranges: map<NodeId, (nat, nat)>)
    requires AllIn(a, done) && n < |a| && RangesAfter(a, done, ranges)
    requires n !in done
    ensures AllIn(a, done + [n])
    ensures PageRange(a[n].data).Some? ==> RangesAfter(a, done + [n], ranges[n := PageRange(a[n].data).value])
    ensures PageRange(a[n].data).None? ==> RangesAfter(a, done + [n], ranges)
  {
    if PageRange(a[n].data).Some? {
      LookupUpdate(ranges, n, PageRange(a[n].data).value);
    }
    assert forall m: NodeId :: m in done + [n] <==> m in done || m == n;
  }

  /** After the visit of `n`, the parents visited are those of before and `n`. */
  lemma ParentInVisit(a: Arena, done: seq<NodeId>, n: NodeId, c: NodeId)
    requires WellFormed(a) && n < |a|
    ensures ParentIn(a, done + [n], c) <==> ParentIn(a, done, c) || c in a[n].children
    ensures c in a[n].children ==> c < |a| && c != ROOT && a[c].parent == Some(n)
  {
    if c in a[n].children {
      var i :| 0 <= i < |a[n].children| && a[n].children[i] == c;
      assert a[a[n].children[i]].parent == Some(n);
    }
    if c < |a| && c != ROOT && a[c].parent == Some(n) {
      assert c in a[a[c].parent.value].children;
    }
  }

  lemma SiblingsVisit(a: Arena, done: seq<NodeId>, n: NodeId, siblings: map<NodeId, seq<NodeId>>,
                      next: map<NodeId, seq<NodeId>>)
    requires WellFormed(a) && n < |a| && n !in done && SiblingsAfter(a, done, siblings)
    requires forall c: NodeId :: Lookup(next, c) ==
               if c in a[n].children && |a[n].children| > 1 then Some(Without<NodeId>(a[n].children, c))
                     else Lookup(siblings, c)
    ensures SiblingsAfter(a, done + [n], next)
  {
    hide WellFormed, Without;
    forall c: NodeId ensures Lookup(next, c) ==
      if ParentIn(a, done + [n], c) && |a[a[c].parent.value].children| > 1
      then Some(Without<NodeId>(a[a[c].parent.value].children, c))
      else None
    {
      ParentInVisit(a, done, n, c);
    }
  }

  lemma PathsVisit(a: Arena, done: seq<NodeId>, n: NodeId, paths: map<NodeId, seq<NodeId>>,
                   next: map<NodeId, seq<NodeId>>)
    requires WellFormed(a) && n < |a| && PathsAfter(a, done, paths)
    requires n == ROOT || ParentIn(a, done, n)
    requires forall c: NodeId :: Lookup(next, c) ==
               if n in paths && c in a[n].children then Some(paths[n] + [c]) else Lookup(paths, c)
    ensures PathsAfter(a, done + [n], next)
  {
    hide WellFormed;
    assert Lookup(paths, n) == Some(PathTo(a, n));
    forall c: NodeId
      ensures Lookup(next, c) == if c == ROOT || ParentIn(a, done + [n], c) then Some(PathTo(a, c)) else None
    {
      ParentInVisit(a, done, n, c);
    }
  }

  /** Everything the index knows after the nodes of `done`. */
  ghost predicate After(a: Arena, done: seq<NodeId>, idx: RetrievalIndex)
    requires WellFormed(a) && AllIn(a, done)
  {
    && idx.leaves == Trees.KeepLeaves(a, done)
    && PathsAfter(a, done, idx.paths)
    && SiblingsAfter(a, done, idx.siblings)
    && StructuresAfter(a, done, idx.structures)
    && PagesAfter(a, done, idx.pages)
    && RangesAfter(a, done, idx.ranges)
    && MaxDepthAfter(a, done, idx.maxDepth)
  }

  /** The part of a visit that looks at the node's own data. */
  method VisitData(a: Arena, ghost done: seq<NodeId>, n: NodeId, idx0: RetrievalIndex) returns (idx: RetrievalIndex)
    requires AllIn(a, done) && n < |a| && n !in done
    requires StructuresAfter(a, done, idx0.structures) && PagesAfter(a, done, idx0.pages)
    requires RangesAfter(a, done, idx0.ranges) && MaxDepthAfter(a, done, idx0.maxDepth)
    ensures AllIn(a, done + [n])
    ensures StructuresAfter(a, done + [n], idx.structures) && PagesAfter(a, done + [n], idx.pages)
    ensures RangesAfter(a, done + [n], idx.ranges) && MaxDepthAfter(a, done + [n], idx.maxDepth)
    ensures idx == idx0.(structures := idx.structures, pages := idx.pages, ranges := idx.ranges,
              maxDepth := idx.maxDepth)
  {
    hide StructuresAfter, PagesAfter, RangesAfter, MaxDepthAfter;
    idx := idx0;
    var node := a[n].data;
    MaxDepthVisit(a, done, n, idx.maxDepth);
    idx := idx.(maxDepth := Max(idx.maxDepth, node.depth));
    StructuresVisit(a, done, n, idx.structures);
    if node.structure != "" {
      idx := idx.(structures := idx.structures[node.structure := n]);
    }
    RangesVisit(a, done, n, idx.ranges);
    if node.startPage.Some? && node.endPage.Some? {
      var pages := IndexPages(idx.pages, n, node.startPage.value, node.endPage.value);
      PagesVisit(a, done, n, idx.pages, pages);
      idx := idx.(ranges := idx.ranges[n := (node.startPage.value, node.endPage.value)], pages := pages);
    } else {
      PagesVisit(a, done, n, idx.pages, idx.pages);
    }
  }

  /** The body of the inner loop: enter one node into every table. */
  method VisitNode(a: Arena, ghost done: seq<NodeId>, n: NodeId, idx0: RetrievalIndex) returns (idx: RetrievalIndex)
    requires WellFormed(a) && AllIn(a, done) && n < |a| && After(a, done, idx0)
    requires n !in done && (n == ROOT || ParentIn(a, done, n))
    ensures AllIn(a, done + [n]) && After(a, done + [n], idx)
    ensures idx.levels == idx0.levels && idx.nodeCount == idx0.nodeCount
  {
    hide WellFormed, StructuresAfter, PagesAfter, RangesAfter, SiblingsAfter, PathsAfter, MaxDepthAfter, PathTo,
          ParentIn;
    ChildrenIn(a, n);
    var children := a[n].children;
    idx := VisitData(a, done, n, idx0);
    assert (done + [n])[..|done|] == done;
    if children == [] {
      idx := idx.(leaves := idx.leaves + [n]);
    }
    var siblings := IndexSiblings(idx.siblings, children);
    SiblingsVisit(a, done, n, idx.siblings, siblings);
    var paths := IndexPaths(idx.paths, n, children);
    PathsVisit(a, done, n, idx.paths, paths);
    idx := idx.(siblings := siblings, paths := paths);
  }

  lemma MaxDepthVisit(a: Arena, done: seq<NodeId>, n: NodeId, maxDepth: nat)
    requires AllIn(a, done) && n < |a| && MaxDepthAfter(a, done, maxDepth)
    ensures AllIn(a, done + [n])
    ensures MaxDepthAfter(a, done + [n], Max(maxDepth, a[n].data.depth))
  {
    var all := done + [n];
    assert all[|done|] == n;
    if maxDepth > a[n].data.depth {
      var i :| 0 <= i < |done| && a[done[i]].data.depth == maxDepth;
      assert all[i] == done[i];
    }
  }

  // ----- The breadth-first pass -----

  /** `idx` lists the levels of `a` down to the first empty one and knows what visiting them tells. */
  ghost predicate IsIndexOf(a: Arena, idx: RetrievalIndex)
    requires WellFormed(a)
  {
    && idx.levels != []
    && (forall d :: 0 <= d < |idx.levels| ==> idx.levels[d] == Level(a, d) && idx.levels[d] != [])
    && Level(a, |idx.levels|) == []
    && After(a, FirstLevels(a, |idx.levels|), idx)
    && idx.nodeCount == |a|
  }

  lemma EmptyIndex(a: Arena)
    requires WellFormed(a)
    ensures After(a, [], RetrievalIndex([], [], map[ROOT := [ROOT]], map[], map[], map[], map[], |a|, 0))
    ensures Level(a, 0) == [ROOT] && FirstLevels(a, 0) == []
    ensures ROOT < |a|
  {
  }

  /** Reading a level from the left, each node is new and its parent has been visited on the level above. */
  lemma LevelIsFresh(a: Arena, k: nat, i: nat)
    requires WellFormed(a) && i < |Level(a, k)|
    ensures Level(a, k)[i] < |a|
    ensures Level(a, k)[i] !in FirstLevels(a, k) + Level(a, k)[..i]
    ensures Level(a, k)[i] == ROOT || ParentIn(a, FirstLevels(a, k) + Level(a, k)[..i], Level(a, k)[i])
    ensures k < |a|
  {
    var n := Level(a, k)[i];
    LevelMembers(a, k);
    FirstLevelsMembers(a, k);
    assert n in Level(a, k);
    DepthBound(a, n);
    if n != ROOT {
      assert a[a[n].parent.value].data.depth + 1 == a[n].data.depth;
      assert a[n].parent.value in FirstLevels(a, k);
    }
  }

  lemma ChildrenOfNext(a: Arena, ns: seq<NodeId>, n: NodeId)
    requires WellFormed(a) && AllIn(a, ns) && n < |a|
    ensures AllIn(a, ns + [n]) && ChildrenOf(a, ns + [n]) == ChildrenOf(a, ns) + a[n].children
    decreases |ns|
  {
    hide WellFormed;
    ChildrenIn(a, n);
    if ns == [] {
      assert [] + [n] == [n];
      assert [n][1..] == [];
      assert ChildrenOf(a, [n]) == a[n].children;
    } else {
      ChildrenOfNext(a, ns[1..], n);
      assert (ns + [n])[1..] == ns[1..] + [n];
    }
  }

  /** Visit one level from the left, collecting the next. */
  method VisitLevel(a: Arena, current: seq<NodeId>, idx0: RetrievalIndex, ghost k: nat)
    returns (idx: RetrievalIndex, next: seq<NodeId>)
    requires WellFormed(a) && current == Level(a, k) && After(a, FirstLevels(a, k), idx0)
    ensures next == Level(a, k + 1) && After(a, FirstLevels(a, k + 1), idx)
    ensures idx.levels == idx0.levels && idx.nodeCount == idx0.nodeCount
  {
    hide WellFormed, After, ParentIn;
    idx, next := idx0, [];
    ghost var above := FirstLevels(a, k);
    assert above + current[..0] == above;
    for i := 0 to |current|
      invariant AllIn(a, current[..i]) && AllIn(a, above + current[..i])
      invariant next == ChildrenOf(a, current[..i])
      invariant After(a, above + current[..i], idx)
      invariant idx.levels == idx0.levels && idx.nodeCount == idx0.nodeCount
    {
      var n := current[i];
      LevelIsFresh(a, k, i);
      idx := VisitNode(a, above + current[..i], n, idx);
      ChildrenOfNext(a, current[..i], n);
      next := next + a[n].children;
      assert current[..i + 1] == current[..i] + [n];
      assert above + current[..i + 1] == above + current[..i] + [n];
    }
    assert current[..|current|] == current;
  }

  method BuildRetrievalIndex(tree: Trees.DocumentTree) returns (idx: RetrievalIndex)
    requires tree.Valid()
    ensures IsIndexOf(tree.arena, idx)
  {
    hide WellFormed, After, Trees.ListsLeaves, Level, FirstLevels;
    var a := tree.arena;
    EmptyIndex(a);
    idx := RetrievalIndex([], [], map[ROOT := [ROOT]], map[], map[], map[], map[], |a|, 0);
    var current := [ROOT];
    while current != []
      invariant current == Level(a, |idx.levels|)
      invariant forall d :: 0 <= d < |idx.levels| ==> idx.levels[d] == Level(a, d) && idx.levels[d] != []
      invariant current == [] ==> idx.levels != []
      invariant After(a, FirstLevels(a, |idx.levels|), idx)
      invariant idx.nodeCount == |a|
      decreases |a| - |idx.levels|
    {
      ghost var k := |idx.levels|;
      LevelIsFresh(a, k, 0);
      var next;
      var visited;
      visited, next := VisitLevel(a, current, idx, k);
      idx := LevelsAdded(a, FirstLevels(a, k + 1), visited, current);
      current := next;
    }
  }

  /** Recording a level touches no other table. */
  method LevelsAdded(a: Arena, ghost done: seq<NodeId>, idx0: RetrievalIndex, level: seq<NodeId>)
    returns (idx: RetrievalIndex)
    requires WellFormed(a) && AllIn(a, done) && After(a, done, idx0)
    ensures After(a, done, idx)
    ensures idx.levels == idx0.levels + [level] && idx.nodeCount == idx0.nodeCount
  {
    idx := idx0.(levels := idx0.levels + [level]);
  }

  // ----- What the index says about the tree -----

  /** The levels list each node once, level `d` being the nodes at depth `d` in left-to-right preorder. */
  lemma IndexLevels(a: Arena, idx: RetrievalIndex)
    requires WellFormed(a) && IsIndexOf(a, idx)
    ensures forall d :: 0 <= d < |idx.levels| ==>
              idx.levels[d] == AtDepth(a, Preorder(a, ROOT), d) && ListsDepth(a, idx.levels[d], d)
    ensures Distinct(FirstLevels(a, |idx.levels|))
    ensures forall m: NodeId :: m in FirstLevels(a, |idx.levels|) <==> m < |a|
    ensures |FirstLevels(a, |idx.levels|)| == idx.nodeCount
  {
    hide WellFormed, After, Level, ListsDepth;
    Trees.PreorderHasAll(a);
    forall d | 0 <= d < |idx.levels|
      ensures idx.levels[d] == AtDepth(a, Preorder(a, ROOT), d) && ListsDepth(a, idx.levels[d], d)
    {
      LevelIsPreorderAtDepth(a, d);
      LevelMembers(a, d);
    }
    AllLevels(a, |idx.levels|);
  }

  lemma IndexLeaves(a: Arena, idx: RetrievalIndex)
    requires WellFormed(a) && IsIndexOf(a, idx)
    ensures Trees.ListsLeaves(a, idx.leaves)
  {
    hide WellFormed;
    AllLevels(a, |idx.levels|);
    Trees.KeepLeavesMembers(a, FirstLevels(a, |idx.levels|));
  }

  /** The depth recorded is the tree's, and one less than the number of levels. */
  lemma IndexMaxDepth(a: Arena, idx: RetrievalIndex)
    requires WellFormed(a) && IsIndexOf(a, idx)
    ensures Trees.IsMaxDepth(a, idx.maxDepth)
    ensures idx.maxDepth == |idx.levels| - 1
  {
    hide WellFormed, Level, FirstLevels, PathsAfter, SiblingsAfter, StructuresAfter, PagesAfter, RangesAfter,
          Trees.KeepLeaves;
    var k := |idx.levels|;
    var all := FirstLevels(a, k);
    FirstLevelsMembers(a, k);
    AllLevels(a, k);
    LevelMembers(a, k - 1);
    var n := idx.levels[k - 1][0];
    assert n in Level(a, k - 1);
    forall m: NodeId | m < |a| ensures a[m].data.depth <= idx.maxDepth {
      assert m in all;
    }
    assert a[n].data.depth == k - 1;
    if idx.maxDepth > 0 {
      var i :| 0 <= i < |all| && a[all[i]].data.depth == idx.maxDepth;
      assert all[i] in all;
    }
  }

  /** Every node has its path from the root, and the path is its one parent chain. */
  lemma IndexPathsExact(a: Arena, idx: RetrievalIndex, n: NodeId, p: seq<NodeId>)
    requires WellFormed(a) && IsIndexOf(a, idx)
    ensures Lookup(idx.paths, n) == Some(p) <==> n < |a| && IsParentChain(a, p, n)
  {
    hide Level, FirstLevels, SiblingsAfter, StructuresAfter, PagesAfter, RangesAfter, MaxDepthAfter,
          Trees.KeepLeaves, PathTo;
    AllLevels(a, |idx.levels|);
    if n < |a| {
      PathIsChain(a, n);
      if IsParentChain(a, p, n) {
        ChainIsPath(a, n, p);
      }
    }
  }

  /** A node's siblings are its parent's other children; an only child and the root have no entry. */
  lemma IndexSiblingsExact(a: Arena, idx: RetrievalIndex, n: NodeId)
    requires WellFormed(a) && IsIndexOf(a, idx)
    ensures Lookup(idx.siblings, n).Some? <==>
              n < |a| && n != ROOT && |a[a[n].parent.value].children| > 1
    ensures Lookup(idx.siblings, n).Some? ==>
              forall m: NodeId :: m in Lookup(idx.siblings, n).value <==>
                m < |a| && m != n && m != ROOT && a[m].parent == a[n].parent
    ensures Lookup(idx.siblings, n).Some? ==>
              exists i :: 0 <= i < |a[a[n].parent.value].children| && a[a[n].parent.value].children[i] == n
                          && Lookup(idx.siblings, n).value
                          == a[a[n].parent.value].children[..i] + a[a[n].parent.value].children[i + 1..]
  {
    hide Level, FirstLevels, PathsAfter, StructuresAfter, PagesAfter, RangesAfter, MaxDepthAfter,
          Trees.KeepLeaves, Depths;
    AllLevels(a, |idx.levels|);
    if n < |a| && n != ROOT {
      var p := a[n].parent.value;
      assert n in a[p].children;
      WithoutKid(a[p].children, n);
      KidsAre(a, p);
    }
  }

  lemma KidsAre(a: Arena, p: NodeId)
    requires WellFormed(a) && p < |a|
    ensures forall m: NodeId :: m in a[p].children <==> m < |a| && m != ROOT && a[m].parent == Some(p)
  {
    forall m: NodeId ensures m in a[p].children <==> m < |a| && m != ROOT && a[m].parent == Some(p) {
      ParentInVisit(a, [], p, m);
      if m < |a| && m != ROOT && a[m].parent == Some(p) {
        assert m in a[a[m].parent.value].children;
      }
    }
  }

  lemma WithoutKid(kids: seq<NodeId>, n: NodeId)
    requires n in kids && Distinct(kids)
    ensures forall m :: m in Without<NodeId>(kids, n) <==> m in kids && m != n
    ensures exists i :: 0 <= i < |kids| && kids[i] == n && Without<NodeId>(kids, n) == kids[..i] + kids[i + 1..]
  {
    var i :| 0 <= i < |kids| && kids[i] == n;
    WithoutAt(kids, i);
    WithoutMembers<NodeId>(kids, n);
  }

  // ----- Lookups -----

  function FindByStructure(idx: RetrievalIndex, structure: string): Option<NodeId> {
    Lookup(idx.structures, structure)
  }

  function FindByPage(idx: RetrievalIndex, page: nat): Option<NodeId> {
    Lookup(idx.pages, page)
  }

  /** Index and linear search agree on which numbers exist, whatever numbers the nodes carry. */
  lemma StructureLookupsBothHit(a: Arena, idx: RetrievalIndex, structure: string)
    requires WellFormed(a) && IsIndexOf(a, idx)
    ensures AllIn(a, Preorder(a, ROOT))
    ensures FindByStructure(idx, structure).Some?
            <==> structure != "" && Trees.FirstNumbered(a, Preorder(a, ROOT), structure).Some?
    ensures FindByStructure(idx, structure).Some? ==>
              FindByStructure(idx, structure).value < |a|
              && a[FindByStructure(idx, structure).value].data.structure == structure
  {
    hide WellFormed, Level, FirstLevels, Preorder, PathsAfter, SiblingsAfter, PagesAfter, RangesAfter, MaxDepthAfter,
         Trees.KeepLeaves, LastNumbered, Trees.FirstNumbered;
    AllLevels(a, |idx.levels|);
    Trees.PreorderHasAll(a);
    var all, pre := FirstLevels(a, |idx.levels|), Preorder(a, ROOT);
    var r, q := LastNumbered(a, all, structure), Trees.FirstNumbered(a, pre, structure);
    if r.Some? {
      assert r.value in pre;
    }
    if q.Some? {
      assert q.value in all;
    }
  }

  /** In a grown tree the two agree exactly on the non-empty strings; the root has no entry in the index. */
  lemma StructureLookupsAgree(a: Arena, idx: RetrievalIndex, structure: string)
    requires Grown(a) && IsIndexOf(a, idx)
    ensures AllIn(a, Preorder(a, ROOT))
    ensures FindByStructure(idx, structure) == Trees.FirstNumbered(a, Preorder(a, ROOT), structure) <==> structure != ""
  {
    hide WellFormed, Numbered, Level, FirstLevels, Preorder, After, Trees.FirstNumbered, Positions, Dotted;
    StructureLookupsBothHit(a, idx, structure);
    Trees.PreorderHasAll(a);
    var r, q := FindByStructure(idx, structure), Trees.FirstNumbered(a, Preorder(a, ROOT), structure);
    if r.Some? && q.Some? {
      StructureUnique(a, r.value, q.value);
    }
    if structure == "" {
      StructureDecodes(a, ROOT);
      assert ROOT in Preorder(a, ROOT);
    }
  }

  /** What the index finds under a number is the node reached by following it. */
  lemma IndexFollowsNumber(a: Arena, idx: RetrievalIndex, n: NodeId)
    requires Grown(a) && IsIndexOf(a, idx) && n < |a| && n != ROOT
    ensures FindByStructure(idx, Dotted(Positions(a, n))) == Some(n)
    ensures NodeAt(a, ParseDotted(Dotted(Positions(a, n)))) == Some(n)
  {
    hide WellFormed, Numbered, Level, FirstLevels, Preorder, After, Positions, Dotted, ParseDotted, NodeAt;
    NumberOf(a, n);
    StructureDecodes(a, n);
    StructureLookupsAgree(a, idx, Dotted(Positions(a, n)));
    Trees.LinearStructureSearch(a, Dotted(Positions(a, n)), n);
  }

  // ----- Pages -----

  lemma {:induction false} LastCoveringAt(a: Arena, ns: seq<NodeId>, page: nat) returns (q: nat)
    requires AllIn(a, ns) && LastCovering(a, ns, page).Some?
    ensures q < |ns| && ns[q] == LastCovering(a, ns, page).value
    ensures forall r :: q < r < |ns| ==> !Trees.CoversPage(a[ns[r]].data, page)
  {
    q := |ns| - 1;
    if !Trees.CoversPage(a[ns[q]].data, page) {
      q := LastCoveringAt(a, ns[..|ns| - 1], page);
    }
  }

  /** In level order depths never decrease. */
  lemma {:induction false} LevelsSorted(a: Arena, k: nat, i: nat, j: nat)
    requires WellFormed(a) && i < j < |FirstLevels(a, k)|
    ensures a[FirstLevels(a, k)[i]].data.depth <= a[FirstLevels(a, k)[j]].data.depth
  {
    hide WellFormed, Level;
    var above, last := FirstLevels(a, k - 1), Level(a, k - 1);
    if j < |above| {
      LevelsSorted(a, k - 1, i, j);
    } else {
      LevelMembers(a, k - 1);
      assert last[j - |above|] in last;
      if i < |above| {
        FirstLevelsMembers(a, k - 1);
        assert above[i] in above;
      } else {
        assert last[i - |above|] in last;
      }
    }
  }

  /** A shallower level is a contiguous stretch of the level order. */
  lemma {:induction false} LevelWithin(a: Arena, k: nat, d: nat, x: nat)
    requires WellFormed(a) && d < k && x < |Level(a, d)|
    ensures |FirstLevels(a, d)| + x < |FirstLevels(a, k)|
    ensures FirstLevels(a, k)[|FirstLevels(a, d)| + x] == Level(a, d)[x]
  {
    hide WellFormed, Level;
    if d < k - 1 {
      LevelWithin(a, k - 1, d, x);
    }
  }

  /** Restricting a list to one depth keeps the order of two nodes of that depth. */
  lemma AtDepthKeepsOrder(a: Arena, ns: seq<NodeId>, i: nat, j: nat, d: nat) returns (x: nat, y: nat)
    requires AllIn(a, ns) && i < j < |ns| && a[ns[i]].data.depth == d && a[ns[j]].data.depth == d
    ensures x < y < |AtDepth(a, ns, d)| && AtDepth(a, ns, d)[x] == ns[i] && AtDepth(a, ns, d)[y] == ns[j]
  {
    var front, back := ns[..i], ns[i..];
    assert ns == front + back;
    AtDepthConcat(a, front, back, d);
    var later := AtDepth(a, back[1..], d);
    AtDepthMembers(a, back[1..], d);
    assert back[1..][j - i - 1] == ns[j];
    assert ns[j] in back[1..];
    var z :| 0 <= z < |later| && later[z] == ns[j];
    x := |AtDepth(a, front, d)|;
    y := x + 1 + z;
    assert AtDepth(a, back, d) == [ns[i]] + later;
  }

  /** The index answers a page exactly when some node covers it, and then with a deepest covering node. */
  lemma IndexPageSearch(a: Arena, idx: RetrievalIndex, page: nat)
    requires WellFormed(a) && IsIndexOf(a, idx)
    ensures FindByPage(idx, page).None? <==> forall n :: 0 <= n < |a| ==> !Trees.CoversPage(a[n].data, page)
    ensures FindByPage(idx, page).Some? ==> Trees.IsDeepestCover(a, page, FindByPage(idx, page).value)
  {
    hide WellFormed, Level, FirstLevels, PathsAfter, SiblingsAfter, StructuresAfter, RangesAfter, MaxDepthAfter,
         Trees.KeepLeaves, LastCovering;
    var k := |idx.levels|;
    var all := FirstLevels(a, k);
    AllLevels(a, k);
    var r := LastCovering(a, all, page);
    assert FindByPage(idx, page) == r;
    forall m: NodeId {:trigger a[m].data} | m < |a| && Trees.CoversPage(a[m].data, page)
      ensures r.Some? && a[m].data.depth <= a[r.value].data.depth
    {
      assert m in all;
      var i :| 0 <= i < |all| && all[i] == m;
      var q := LastCoveringAt(a, all, page);
      if i < q {
        LevelsSorted(a, k, i, q);
      }
    }
  }

  /** The two page searches return the same node exactly when only one node covers the page at the greatest depth. */
  lemma PageLookupsCoincide(a: Arena, idx: RetrievalIndex, page: nat)
    requires WellFormed(a) && IsIndexOf(a, idx)
    ensures AllIn(a, Preorder(a, ROOT))
    ensures FindByPage(idx, page) == Trees.FirstDeepest(a, Preorder(a, ROOT), page)
            <==> forall n, m :: Trees.IsDeepestCover(a, page, n) && Trees.IsDeepestCover(a, page, m) ==> n == m
  {
    hide WellFormed, Level, FirstLevels, Preorder, After, Trees.FirstDeepest, Trees.IsDeepestCover;
    Trees.PreorderHasAll(a);
    IndexPageSearch(a, idx, page);
    Trees.LinearPageSearch(a, page);
    var r := FindByPage(idx, page);
    if r.Some? && r == Trees.FirstDeepest(a, Preorder(a, ROOT), page) {
      forall m: NodeId | Trees.IsDeepestCover(a, page, m) ensures m == r.value {
        SameAnswerMeansUnique(a, idx, page, m);
      }
    }
    if r.None? {
      forall m: NodeId | Trees.IsDeepestCover(a, page, m) ensures false {
        DeepestCovers(a, page, m);
      }
    }
  }

  /** A root with two children for the same single page. */
  ghost function Twins(): Arena {
    Trees.WithPages(
      Trees.WithPages(
        Trees.WithChild(Trees.WithChild(Trees.Planted("r", ""), ROOT, "a"), ROOT, "b"),
        1, 1, 1),
      2, 1, 1)
  }

  lemma TwinsAre()
    ensures Grown(Twins()) && |Twins()| == 3
    ensures Trees.IsDeepestCover(Twins(), 1, 1) && Trees.IsDeepestCover(Twins(), 1, 2)
  {
    hide Grown, Trees.NewChild;
    var a0 := Trees.Planted("r", "");
    var a1 := Trees.WithChild(a0, ROOT, "a");
    var a2 := Trees.WithChild(a1, ROOT, "b");
    Trees.PlantedIsGrown("r", "");
    Trees.WithChildGrown(a0, ROOT, "a");
    Trees.WithChildGrown(a1, ROOT, "b");
    Trees.WithPagesGrown(a2, 1, 1, 1);
    Trees.WithPagesGrown(Trees.WithPages(a2, 1, 1, 1), 2, 1, 1);
    assert a2[1].data.depth == 1 && a2[2].data.depth == 1;
  }

  /** There the two page searches disagree. */
  lemma TwinsDisagree(idx: RetrievalIndex)
    requires WellFormed(Twins()) && IsIndexOf(Twins(), idx)
    ensures AllIn(Twins(), Preorder(Twins(), ROOT))
    ensures FindByPage(idx, 1) != Trees.FirstDeepest(Twins(), Preorder(Twins(), ROOT), 1)
  {
    hide WellFormed, Twins, Preorder, IsIndexOf, Trees.FirstDeepest, Trees.IsDeepestCover, Grown, FindByPage;
    TwinsAre();
    PageLookupsCoincide(Twins(), idx, 1);
  }

  lemma DeepestCovers(a: Arena, page: nat, m: NodeId)
    requires Trees.IsDeepestCover(a, page, m)
    ensures m < |a| && Trees.CoversPage(a[m].data, page)
    ensures forall n: NodeId :: Trees.IsDeepestCover(a, page, n) ==> a[n].data.depth == a[m].data.depth
  {
  }

  /** Another deepest covering node would come later in preorder, hence later in its level, hence win in the index. */
  lemma SameAnswerMeansUnique(a: Arena, idx: RetrievalIndex, page: nat, m: NodeId)
    requires WellFormed(a) && IsIndexOf(a, idx) && Trees.IsDeepestCover(a, page, m)
    requires FindByPage(idx, page).Some?
    requires AllIn(a, Preorder(a, ROOT))
    requires FindByPage(idx, page) == Trees.FirstDeepest(a, Preorder(a, ROOT), page)
    ensures m == FindByPage(idx, page).value
  {
    hide WellFormed, Level, FirstLevels, Preorder, PathsAfter, SiblingsAfter, StructuresAfter, RangesAfter,
         MaxDepthAfter, Trees.KeepLeaves, Trees.FirstDeepest, LastCovering, AtDepth;
    var n, k := FindByPage(idx, page).value, |idx.levels|;
    var pre, all := Preorder(a, ROOT), FirstLevels(a, k);
    Trees.PreorderHasAll(a);
    AllLevels(a, k);
    var i := Trees.FirstDeepestIsFirst(a, pre, page);
    assert m in pre;
    var j :| 0 <= j < |pre| && pre[j] == m;
    if i != j {
      var d := a[n].data.depth;
      var x, y := AtDepthKeepsOrder(a, pre, i, j, d);
      LevelIsPreorderAtDepth(a, d);
      EmptyLevelEnds(a, k, n);
      LevelWithin(a, k, d, x);
      LevelWithin(a, k, d, y);
      var q := LastCoveringAt(a, all, page);
      assert false;
    }
  }

  /** Index version of the page-range query: arbitrary table order, then sorted by first page. */
  method FindNodesByPageRange(ghost a: Arena, idx: RetrievalIndex, first: nat, last: nat) returns (r: seq<NodeId>)
    requires WellFormed(a) && IsIndexOf(a, idx)
    ensures AllIn(a, Preorder(a, ROOT))
    ensures multiset(r) == multiset(Trees.KeepOverlapping(a, Preorder(a, ROOT), first, last))
    ensures forall i, j :: 0 <= i < j < |r| ==>
              r[i] in idx.ranges && r[j] in idx.ranges && idx.ranges[r[i]].0 <= idx.ranges[r[j]].0
  {
    hide WellFormed, Preorder, Trees.KeepOverlapping, IsIndexOf, Sorting.Sort;
    r := [];
    var remaining := idx.ranges.Keys;
    while remaining != {}
      invariant remaining <= idx.ranges.Keys
      invariant Distinct(r)
      invariant forall n: NodeId :: n in r <==>
                  n in idx.ranges && n !in remaining && Overlap(idx.ranges[n], first, last)
      decreases remaining
    {
      var n :| n in remaining;
      remaining := remaining - {n};
      if Overlap(idx.ranges[n], first, last) {
        DistinctConcat(r, [n]);
        r := r + [n];
      }
    }
    var key := (n: NodeId) => if n in idx.ranges then idx.ranges[n].0 as real else 0.0;
    ghost var unsorted := r;
    RangeMembers(a, idx, first, last, unsorted);
    Sorting.SortSorts(key, r);
    r := Sorting.Sort(key, r);
    Sorting.PermutationMembers(unsorted, r);
    forall i, j | 0 <= i < j < |r|
      ensures r[i] in idx.ranges && r[j] in idx.ranges && idx.ranges[r[i]].0 <= idx.ranges[r[j]].0
    {
      assert r[i] in r && r[j] in r;
      assert key(r[i]) <= key(r[j]);
    }
  }

  predicate Overlap(range: (nat, nat), first: nat, last: nat) {
    range.0 <= last && first <= range.1
  }

  lemma RangeMembers(a: Arena, idx: RetrievalIndex, first: nat, last: nat, r: seq<NodeId>)
    requires WellFormed(a) && IsIndexOf(a, idx) && Distinct(r)
    requires forall n: NodeId :: n in r <==> n in idx.ranges && Overlap(idx.ranges[n], first, last)
    ensures AllIn(a, Preorder(a, ROOT))
    ensures multiset(r) == multiset(Trees.KeepOverlapping(a, Preorder(a, ROOT), first, last))
  {
    hide WellFormed, Preorder, Level, FirstLevels, PathsAfter, SiblingsAfter, StructuresAfter, PagesAfter,
         MaxDepthAfter, Trees.KeepLeaves, Trees.KeepOverlapping;
    Trees.PreorderHasAll(a);
    AllLevels(a, |idx.levels|);
    var linear := Trees.KeepOverlapping(a, Preorder(a, ROOT), first, last);
    Trees.KeepOverlappingMembers(a, Preorder(a, ROOT), first, last);
    forall n: NodeId ensures n in r <==> n in linear {
      assert Lookup(idx.ranges, n) == if n in FirstLevels(a, |idx.levels|) then PageRange(a[n].data) else None;
    }
    Sorting.SameMembersSameMultiset(r, linear);
  }
}
