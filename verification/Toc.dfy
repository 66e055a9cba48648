/** Table-of-contents views: the flat list and the nested tree show the same nodes. */
module Toc {
  import opened Prelude
  import opened Arena
  import opened Numbering
  import Trees = DocumentTree

  datatype TocEntry = TocEntry(title: string, depth: nat, pageRange: Option<(nat, nat)>)

  datatype TocNode = TocNode(
    title: string,
    depth: nat,
    pageRange: Option<(nat, nat)>,
    summary: Option<string>,
    children: seq<TocNode>)

  /** `byteLength` is the length of a string in bytes, which content is measured by. */
  datatype TocConfig = TocConfig(
    maxDepth: Option<nat>,
    includeSummaries: bool,
    includePages: bool,
    minContentLength: nat,
    byteLength: string -> nat)

  /** Both page boundaries, or nothing if one of them is missing. */
  ghost predicate HasRange(range: Option<(nat, nat)>, node: TreeNode) {
    && (node.startPage == None || node.endPage == None ==> range == None)
    && (node.startPage.Some? && node.endPage.Some? ==> range == Some((node.startPage.value, node.endPage.value)))
  }

  // ----- Flat view -----

  function EntryOf(node: TreeNode): TocEntry {
    TocEntry(node.title, node.depth, PageRange(node))
  }

  function EntriesOf(a: Arena, ns: seq<NodeId>): (r: seq<TocEntry>)
    requires AllIn(a, ns)
    ensures |r| == |ns| && forall i :: 0 <= i < |ns| ==> r[i] == EntryOf(a[ns[i]].data)
  {
    if ns == [] then [] else [EntryOf(a[ns[0]].data)] + EntriesOf(a, ns[1..])
  }

  lemma EntriesConcat(a: Arena, xs: seq<NodeId>, ys: seq<NodeId>)
    requires AllIn(a, xs) && AllIn(a, ys)
    ensures AllIn(a, xs + ys) && EntriesOf(a, xs + ys) == EntriesOf(a, xs) + EntriesOf(a, ys)
  {
    hide EntriesOf;
  }

  /** Push the node's entry and then, recursively, its children's. */
  method CollectFlatEntries(a: Arena, n: NodeId, entries0: seq<TocEntry>) returns (entries: seq<TocEntry>)
    requires WellFormed(a) && n < |a|
    ensures entries == entries0 + EntriesOf(a, Preorder(a, n))
    decreases |a| - n
  {
    hide ParentLinks, Depths, Distinct, EntriesOf, Forest;
    entries := entries0 + [EntryOf(a[n].data)];
    ChildrenIn(a, n);
    var children := a[n].children;
    ForestEmpty(a);
    for i := 0 to |children|
      invariant AllIn(a, children[..i])
      invariant entries == entries0 + [EntryOf(a[n].data)] + EntriesOf(a, Forest(a, children[..i]))
    {
      var before := entries;
      entries := CollectFlatEntries(a, children[i], entries);
      assert children[..i + 1] == children[..i] + [children[i]];
      ForestOne(a, children[i]);
      ForestConcat(a, children[..i], [children[i]]);
      EntriesConcat(a, Forest(a, children[..i]), Preorder(a, children[i]));
    }
    assert children[..|children|] == children;
    EntriesConcat(a, [n], Forest(a, children));
  }

  lemma ForestEmpty(a: Arena)
    requires WellFormed(a)
    ensures Forest(a, []) == [] && EntriesOf(a, []) == []
  {
  }

  /** One entry per node of the tree, in the order in which the stack walk visits the nodes. */
  method GenerateFlat(tree: Trees.DocumentTree) returns (entries: seq<TocEntry>)
    requires tree.Valid()
    ensures |entries| == |tree.arena| == |Preorder(tree.arena, ROOT)|
    ensures forall i :: 0 <= i < |entries| ==>
              var node := tree.arena[Preorder(tree.arena, ROOT)[i]].data;
              && entries[i].title == node.title && entries[i].depth == node.depth
              && HasRange(entries[i].pageRange, node)
  {
    WholePreorder(tree.arena);
    entries := CollectFlatEntries(tree.arena, ROOT, []);
  }

  // ----- Nested view -----

  /** What a view shows of one node. */
  datatype Line = Line(title: string, depth: nat, pageRange: Option<(nat, nat)>, summary: Option<string>)

  function FullLine(cfg: TocConfig, node: TreeNode): Line {
    Line(node.title, node.depth, if cfg.includePages then PageRange(node) else None,
         if cfg.includeSummaries && node.summary != "" then Some(node.summary) else None)
  }

  predicate TooShort(cfg: TocConfig, node: TreeNode) {
    cfg.byteLength(node.content) < cfg.minContentLength
  }

  /** A childless node with too little content is cut down to its title. */
  function LineOf(cfg: TocConfig, slot: Slot): Line {
    if TooShort(cfg, slot.data) && slot.children == [] then Line(slot.data.title, slot.data.depth, None, None)
    else FullLine(cfg, slot.data)
  }

  /** The lines of `ns` that a depth limit lets through: one level beyond the limit is still shown, as "...". */
  ghost function Shown(a: Arena, cfg: TocConfig, ns: seq<NodeId>): seq<Line>
    requires AllIn(a, ns)
  {
    if ns == [] then []
    else
      var node := a[ns[0]].data;
      (if cfg.maxDepth.None? || node.depth <= cfg.maxDepth.value then [LineOf(cfg, a[ns[0]])]
       else if node.depth == cfg.maxDepth.value + 1 then [Line("...", node.depth - 1, None, None)]
       else [])
      + Shown(a, cfg, ns[1..])
  }

  function Flatten(t: TocNode): seq<Line> {
    [Line(t.title, t.depth, t.pageRange, t.summary)] + FlattenAll(t.children)
  }

  function FlattenAll(ts: seq<TocNode>): seq<Line> {
    if ts == [] then [] else Flatten(ts[0]) + FlattenAll(ts[1..])
  }

  function CountNodes(t: TocNode): nat {
    1 + CountAll(t.children)
  }

  function CountAll(ts: seq<TocNode>): nat {
    if ts == [] then 0 else CountNodes(ts[0]) + CountAll(ts[1..])
  }

  function CountLeaves(t: TocNode): nat {
    if t.children == [] then 1 else CountLeavesAll(t.children)
  }

  function CountLeavesAll(ts: seq<TocNode>): nat {
    if ts == [] then 0 else CountLeaves(ts[0]) + CountLeavesAll(ts[1..])
  }

  lemma {:induction false} ShownConcat(a: Arena, cfg: TocConfig, xs: seq<NodeId>, ys: seq<NodeId>)
    requires AllIn(a, xs) && AllIn(a, ys)
    ensures AllIn(a, xs + ys) && Shown(a, cfg, xs + ys) == Shown(a, cfg, xs) + Shown(a, cfg, ys)
  {
    if xs == [] {
      assert xs + ys == ys;
    } else {
      assert (xs + ys)[1..] == xs[1..] + ys;
      ShownConcat(a, cfg, xs[1..], ys);
    }
  }

  lemma {:induction false} FlattenConcat(xs: seq<TocNode>, ys: seq<TocNode>)
    ensures FlattenAll(xs + ys) == FlattenAll(xs) + FlattenAll(ys)
    ensures CountLeavesAll(xs + ys) == CountLeavesAll(xs) + CountLeavesAll(ys)
  {
    if xs == [] {
      assert xs + ys == ys;
    } else {
      assert (xs + ys)[1..] == xs[1..] + ys;
      FlattenConcat(xs[1..], ys);
    }
  }

  lemma {:induction false} CountIsLength(t: TocNode)
    ensures CountNodes(t) == |Flatten(t)|
    decreases t, 1
  {
    CountAllIsLength(t.children);
  }

  lemma {:induction false} CountAllIsLength(ts: seq<TocNode>)
    ensures CountAll(ts) == |FlattenAll(ts)|
    decreases ts, 0
  {
    if ts != [] {
      CountIsLength(ts[0]);
      CountAllIsLength(ts[1..]);
    }
  }

  /** Two levels beyond the limit nothing is shown any more. */
  lemma {:induction false} DeepHidden(a: Arena, cfg: TocConfig, ns: seq<NodeId>)
    requires AllIn(a, ns) && cfg.maxDepth.Some?
    requires forall i :: 0 <= i < |ns| ==> a[ns[i]].data.depth > cfg.maxDepth.value + 1
    ensures Shown(a, cfg, ns) == []
  {
    if ns != [] {
      DeepHidden(a, cfg, ns[1..]);
    }
  }

  lemma BelowLimitHidden(a: Arena, cfg: TocConfig, n: NodeId)
    requires WellFormed(a) && n < |a| && cfg.maxDepth.Some? && a[n].data.depth == cfg.maxDepth.value + 1
    ensures Shown(a, cfg, Preorder(a, n)) == [Line("...", a[n].data.depth - 1, None, None)]
  {
    hide ParentLinks, Depths, ChildLinks, InSubtree;
    ChildrenIn(a, n);
    var below := Forest(a, a[n].children);
    forall i | 0 <= i < |below| ensures a[below[i]].data.depth > cfg.maxDepth.value + 1 {
      assert below[i] in below;
      ForestIsSubtrees(a, a[n].children, below[i]);
      var c: NodeId :| c in a[n].children && InSubtree(a, c, below[i]);
      SubtreeBounds(a, c, below[i]);
      Trees.ChildrenDepths(a, n);
    }
    DeepHidden(a, cfg, below);
    assert Preorder(a, n)[1..] == below;
  }

  /**
   * The view has the shape of the subtree of `n` and shows each node as the settings ask for it: beyond the limit
   * only "...", and a childless node that is too short without pages and summary.
   */
  ghost predicate Mirrors(a: Arena, cfg: TocConfig, n: NodeId, t: TocNode)
    requires WellFormed(a) && n < |a|
    decreases |a| - n
  {
    var (node, bare) := (a[n].data, a[n].children == [] && cfg.byteLength(a[n].data.content) < cfg.minContentLength);
    if cfg.maxDepth.Some? && node.depth > cfg.maxDepth.value then
      t.title == "..." && t.depth == node.depth - 1 && t.pageRange == None && t.summary == None && t.children == []
    else
      && t.title == node.title && t.depth == node.depth
      && (if bare || !cfg.includePages then t.pageRange == None else HasRange(t.pageRange, node))
      && t.summary == (if bare || !cfg.includeSummaries || node.summary == "" then None else Some(node.summary))
      && |t.children| == |a[n].children|
      && forall i :: 0 <= i < |t.children| ==> Mirrors(a, cfg, a[n].children[i], t.children[i])
  }

  /**
   * Build the nested view below `n`. A node shorter than the minimum content length is cut down to its title,
   * not left out.
   */
  method BuildTocNode(a: Arena, cfg: TocConfig, n: NodeId, depth: nat) returns (t: TocNode)
    requires WellFormed(a) && n < |a| && depth == a[n].data.depth
    ensures cfg.maxDepth.None? || depth <= cfg.maxDepth.value + 1 ==> Flatten(t) == Shown(a, cfg, Preorder(a, n))
    ensures cfg.maxDepth.Some? && depth > cfg.maxDepth.value ==> t == TocNode("...", depth - 1, None, None, [])
    ensures cfg.maxDepth.None? ==> CountLeaves(t) == |Trees.KeepLeaves(a, Preorder(a, n))|
    ensures cfg.maxDepth.None? ==> (t.children == [] <==> a[n].children == [])
    ensures Mirrors(a, cfg, n, t)
    decreases |a| - n
  {
    hide ParentLinks, Depths, ChildLinks, Forest, Shown, Trees.KeepLeaves, Mirrors;
    ChildrenIn(a, n);
    Trees.ChildrenDepths(a, n);
    var node := a[n].data;
    var children := a[n].children;
    if cfg.maxDepth.Some? && depth > cfg.maxDepth.value {
      if depth == cfg.maxDepth.value + 1 {
        BelowLimitHidden(a, cfg, n);
      }
      MirrorsNode(a, cfg, n, TocNode("...", depth - 1, None, None, []));
      return TocNode("...", depth - 1, None, None, []);
    }
    ShownRoot(a, cfg, n);
    LeavesOfRoot(a, n);
    EmptyViews(a, cfg);
    if TooShort(cfg, node) && children == [] {
      MirrorsNode(a, cfg, n, TocNode(node.title, depth, None, None, []));
      return TocNode(node.title, depth, None, None, []);
    }
    var kids: seq<TocNode> := [];
    for i := 0 to |children|
      invariant AllIn(a, children[..i])
      invariant FlattenAll(kids) == Shown(a, cfg, Forest(a, children[..i]))
      invariant cfg.maxDepth.None? ==> CountLeavesAll(kids) == |Trees.KeepLeaves(a, Forest(a, children[..i]))|
      invariant |kids| == i
      invariant forall j :: 0 <= j < i ==> Mirrors(a, cfg, children[j], kids[j])
    {
      ChildAbove(a, n, i);
      var child := BuildTocNode(a, cfg, children[i], depth + 1);
      assert children[..i + 1] == children[..i] + [children[i]];
      ForestOne(a, children[i]);
      ForestConcat(a, children[..i], [children[i]]);
      ShownConcat(a, cfg, Forest(a, children[..i]), Preorder(a, children[i]));
      KeepLeavesConcat(a, Forest(a, children[..i]), Preorder(a, children[i]));
      OneToc(child);
      FlattenConcat(kids, [child]);
      kids := kids + [child];
    }
    assert children[..|children|] == children;
    t := TocNode(node.title, depth, if cfg.includePages then PageRange(node) else None,
                 if cfg.includeSummaries && node.summary != "" then Some(node.summary) else None, kids);
    MirrorsNode(a, cfg, n, t);
  }

  lemma MirrorsNode(a: Arena, cfg: TocConfig, n: NodeId, t: TocNode)
    requires WellFormed(a) && n < |a|
    ensures InLimit(cfg, a[n].data) && |t.children| == |a[n].children|
            && t.title == a[n].data.title && t.depth == a[n].data.depth
            && t.pageRange == LineOf(cfg, a[n]).pageRange && t.summary == LineOf(cfg, a[n]).summary
            && (forall i :: 0 <= i < |t.children| ==> Mirrors(a, cfg, a[n].children[i], t.children[i]))
            ==> Mirrors(a, cfg, n, t)
    ensures !InLimit(cfg, a[n].data) && t == TocNode("...", a[n].data.depth - 1, None, None, [])
            ==> Mirrors(a, cfg, n, t)
  {
  }

  lemma OneToc(t: TocNode)
    ensures FlattenAll([t]) == Flatten(t) && CountLeavesAll([t]) == CountLeaves(t)
  {
    assert [t][1..] == [];
  }

  lemma ChildAbove(a: Arena, n: NodeId, i: nat)
    requires WellFormed(a) && n < |a| && i < |a[n].children|
    ensures n < a[n].children[i] < |a|
  {
  }

  lemma EmptyViews(a: Arena, cfg: TocConfig)
    requires WellFormed(a)
    ensures Forest(a, []) == [] && Shown(a, cfg, []) == [] && Trees.KeepLeaves(a, []) == []
  {
  }

  lemma ShownRoot(a: Arena, cfg: TocConfig, n: NodeId)
    requires WellFormed(a) && n < |a| && AllIn(a, a[n].children)
    requires cfg.maxDepth.None? || a[n].data.depth <= cfg.maxDepth.value
    ensures Shown(a, cfg, Preorder(a, n))
         == [LineOf(cfg, a[n])] + Shown(a, cfg, Forest(a, a[n].children))
  {
    hide WellFormed, Forest;
    assert Preorder(a, n)[1..] == Forest(a, a[n].children);
  }

  lemma {:induction false} KeepLeavesConcat(a: Arena, xs: seq<NodeId>, ys: seq<NodeId>)
    requires AllIn(a, xs) && AllIn(a, ys)
    ensures AllIn(a, xs + ys) && Trees.KeepLeaves(a, xs + ys) == Trees.KeepLeaves(a, xs) + Trees.KeepLeaves(a, ys)
    decreases |ys|
  {
    if ys == [] {
      assert xs + ys == xs;
    } else {
      assert (xs + ys)[..|xs + ys| - 1] == xs + ys[..|ys| - 1];
      KeepLeavesConcat(a, xs, ys[..|ys| - 1]);
    }
  }

  lemma LeavesOfRoot(a: Arena, n: NodeId)
    requires WellFormed(a) && n < |a| && AllIn(a, a[n].children)
    ensures |Trees.KeepLeaves(a, Preorder(a, n))|
         == (if a[n].children == [] then 1 else |Trees.KeepLeaves(a, Forest(a, a[n].children))|)
  {
    hide ParentLinks, Depths, ChildLinks;
    KeepLeavesConcat(a, [n], Forest(a, a[n].children));
    assert [n][..0] == [];
  }

  /** Without a depth limit the nested view is the preorder, node for node, whatever the other settings. */
  method Generate(tree: Trees.DocumentTree, cfg: TocConfig) returns (t: TocNode)
    requires tree.Valid()
    ensures Flatten(t) == Shown(tree.arena, cfg, Preorder(tree.arena, ROOT))
    ensures Mirrors(tree.arena, cfg, ROOT, t)
    ensures cfg.maxDepth.None? ==>
              CountNodes(t) == |tree.arena| && CountLeaves(t)
                    == |Trees.KeepLeaves(tree.arena, Preorder(tree.arena, ROOT))|
  {
    hide ChildLinks, Shown, Preorder, Distinct;
    t := BuildTocNode(tree.arena, cfg, ROOT, 0);
    CountIsLength(t);
    WholePreorder(tree.arena);
    if cfg.maxDepth.None? {
      ShownAll(tree.arena, cfg, Preorder(tree.arena, ROOT));
    }
  }

  lemma {:induction false} ShownAll(a: Arena, cfg: TocConfig, ns: seq<NodeId>)
    requires AllIn(a, ns) && cfg.maxDepth.None?
    ensures |Shown(a, cfg, ns)| == |ns|
    ensures forall i :: 0 <= i < |ns| ==> Shown(a, cfg, ns)[i] == LineOf(cfg, a[ns[i]])
  {
    if ns != [] {
      ShownAll(a, cfg, ns[1..]);
    }
  }

  // ----- What the settings are announced to do -----

  /** The depth limit as announced: the nodes up to it, and nothing else. */
  ghost function Within(a: Arena, cfg: TocConfig, limit: nat, ns: seq<NodeId>): seq<Line>
    requires AllIn(a, ns)
  {
    if ns == [] then []
    else (if a[ns[0]].data.depth <= limit then [LineOf(cfg, a[ns[0]])] else []) + Within(a, cfg, limit, ns[1..])
  }

  lemma {:induction false} LimitOn(a: Arena, cfg: TocConfig, limit: nat, ns: seq<NodeId>)
    requires AllIn(a, ns) && cfg.maxDepth == Some(limit)
    ensures |Shown(a, cfg, ns)| >= |Within(a, cfg, limit, ns)|
    ensures if exists i :: 0 <= i < |ns| && a[ns[i]].data.depth == limit + 1
            then |Shown(a, cfg, ns)| > |Within(a, cfg, limit, ns)|
            else Shown(a, cfg, ns) == Within(a, cfg, limit, ns)
  {
    if ns != [] {
      LimitOn(a, cfg, limit, ns[1..]);
      if i :| 0 <= i < |ns| && a[ns[i]].data.depth == limit + 1 {
        assert i > 0 ==> ns[1..][i - 1] == ns[i];
      }
      if i :| 0 <= i < |ns[1..]| && a[ns[1..][i]].data.depth == limit + 1 {
        assert ns[i + 1] == ns[1..][i];
      }
    }
  }

  /** The view of a whole tree keeps to its depth limit exactly if no node sits just beyond it. */
  lemma LimitKeptIff(a: Arena, cfg: TocConfig, limit: nat)
    requires WellFormed(a) && cfg.maxDepth == Some(limit)
    ensures AllIn(a, Preorder(a, ROOT))
    ensures Shown(a, cfg, Preorder(a, ROOT)) == Within(a, cfg, limit, Preorder(a, ROOT))
            <==> forall n: NodeId :: n < |a| ==> a[n].data.depth != limit + 1
  {
    hide WellFormed, Preorder, Shown, Within;
    Trees.PreorderHasAll(a);
    var ns := Preorder(a, ROOT);
    LimitOn(a, cfg, limit, ns);
    if n: NodeId :| n < |a| && a[n].data.depth == limit + 1 {
      assert n in ns;
    }
    if i :| 0 <= i < |ns| && a[ns[i]].data.depth == limit + 1 {
      assert ns[i] in ns;
    }
  }

  predicate InLimit(cfg: TocConfig, node: TreeNode) {
    cfg.maxDepth.None? || node.depth <= cfg.maxDepth.value
  }

  /** One level beyond the limit, where "..." stands. */
  predicate JustBeyond(cfg: TocConfig, node: TreeNode) {
    cfg.maxDepth.Some? && node.depth == cfg.maxDepth.value + 1
  }

  /** The length filter as announced: of the nodes within the limit, those with too little content are left out. */
  ghost function LongEnough(a: Arena, cfg: TocConfig, dots: bool, ns: seq<NodeId>): seq<Line>
    requires AllIn(a, ns)
  {
    if ns == [] then []
    else
      var node := a[ns[0]].data;
      (if InLimit(cfg, node) && !TooShort(cfg, node) then [FullLine(cfg, node)]
       else if dots && JustBeyond(cfg, node) then [Line("...", node.depth - 1, None, None)]
       else [])
      + LongEnough(a, cfg, dots, ns[1..])
  }

  /** Both settings as announced: the nodes within the limit that have enough content, and nothing else. */
  ghost function Announced(a: Arena, cfg: TocConfig, ns: seq<NodeId>): seq<Line>
    requires AllIn(a, ns)
  {
    LongEnough(a, cfg, false, ns)
  }

  /** A node that the view shows otherwise than the settings announce; `dots` lets "..." stand. */
  predicate Misshown(cfg: TocConfig, dots: bool, node: TreeNode) {
    (InLimit(cfg, node) && TooShort(cfg, node)) || (!dots && JustBeyond(cfg, node))
  }

  lemma {:induction false} SettingsOn(a: Arena, cfg: TocConfig, dots: bool, ns: seq<NodeId>)
    requires AllIn(a, ns)
    ensures |Shown(a, cfg, ns)| >= |LongEnough(a, cfg, dots, ns)|
    ensures if exists i :: 0 <= i < |ns| && Misshown(cfg, dots, a[ns[i]].data)
            then |Shown(a, cfg, ns)| > |LongEnough(a, cfg, dots, ns)|
            else Shown(a, cfg, ns) == LongEnough(a, cfg, dots, ns)
  {
    hide TooShort;
    if ns != [] {
      SettingsOn(a, cfg, dots, ns[1..]);
      if i :| 0 <= i < |ns| && Misshown(cfg, dots, a[ns[i]].data) {
        assert i > 0 ==> ns[1..][i - 1] == ns[i];
      }
      if i :| 0 <= i < |ns[1..]| && Misshown(cfg, dots, a[ns[1..][i]].data) {
        assert ns[i + 1] == ns[1..][i];
      }
    }
  }

  lemma ViewAsAnnouncedIff(a: Arena, cfg: TocConfig, dots: bool)
    requires WellFormed(a)
    ensures AllIn(a, Preorder(a, ROOT))
    ensures Shown(a, cfg, Preorder(a, ROOT)) == LongEnough(a, cfg, dots, Preorder(a, ROOT))
            <==> forall n: NodeId :: n < |a| ==> !Misshown(cfg, dots, a[n].data)
  {
    hide WellFormed, Preorder, Shown, LongEnough, Misshown;
    Trees.PreorderHasAll(a);
    var ns := Preorder(a, ROOT);
    SettingsOn(a, cfg, dots, ns);
    if n: NodeId :| n < |a| && Misshown(cfg, dots, a[n].data) {
      assert n in ns;
    }
    if i :| 0 <= i < |ns| && Misshown(cfg, dots, a[ns[i]].data) {
      assert ns[i] in ns;
    }
  }

  /** Limit aside, the view filters by content length exactly if there is nothing to filter within the limit. */
  lemma FilterKeptIff(a: Arena, cfg: TocConfig)
    requires WellFormed(a)
    ensures AllIn(a, Preorder(a, ROOT))
    ensures Shown(a, cfg, Preorder(a, ROOT)) == LongEnough(a, cfg, true, Preorder(a, ROOT))
            <==> forall n: NodeId :: n < |a| && InLimit(cfg, a[n].data) ==> !TooShort(cfg, a[n].data)
  {
    hide WellFormed, Preorder, Shown, LongEnough, TooShort, InLimit, JustBeyond;
    ViewAsAnnouncedIff(a, cfg, true);
  }

  /** The view keeps both settings exactly if no node within the limit is too short and none sits just beyond it. */
  lemma SettingsKeptIff(a: Arena, cfg: TocConfig)
    requires WellFormed(a)
    ensures AllIn(a, Preorder(a, ROOT))
    ensures Shown(a, cfg, Preorder(a, ROOT)) == Announced(a, cfg, Preorder(a, ROOT))
            <==> forall n: NodeId :: n < |a| ==>
                   (InLimit(cfg, a[n].data) ==> !TooShort(cfg, a[n].data)) && !JustBeyond(cfg, a[n].data)
  {
    hide WellFormed, Preorder, Shown, LongEnough, TooShort, InLimit, JustBeyond;
    ViewAsAnnouncedIff(a, cfg, false);
  }

  /** A root with one empty child: shown beyond a limit of zero, and in spite of a minimum length. */
  lemma SettingsOverrun(cfg: TocConfig)
    requires cfg.byteLength("") == 0
    ensures var a := Trees.WithChild(Trees.Planted("r", ""), ROOT, "c");
      && Grown(a) && AllIn(a, Preorder(a, ROOT))
      && (cfg.maxDepth == Some(0) ==>
            && Shown(a, cfg, Preorder(a, ROOT)) != Within(a, cfg, 0, Preorder(a, ROOT))
            && Shown(a, cfg, Preorder(a, ROOT)) != Announced(a, cfg, Preorder(a, ROOT)))
      && (cfg.minContentLength > 0 ==>
            Shown(a, cfg, Preorder(a, ROOT)) != LongEnough(a, cfg, true, Preorder(a, ROOT)))
  {
    hide Preorder, Shown, Within, LongEnough, Grown, Trees.NewChild;
    var a := Trees.WithChild(Trees.Planted("r", ""), ROOT, "c");
    Trees.PlantedIsGrown("r", "");
    Trees.WithChildGrown(Trees.Planted("r", ""), ROOT, "c");
    Trees.GrownIsWellFormed(a);
    assert a[1].data.depth == 1 && a[0].data.depth == 0 && a[0].data.content == "";
    FilterKeptIff(a, cfg);
    SettingsKeptIff(a, cfg);
    if cfg.maxDepth == Some(0) {
      LimitKeptIff(a, cfg, 0);
    }
  }
}
