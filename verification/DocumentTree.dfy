/** The document tree: growth in place, the maintained leaf cache, and the loops that walk or search the tree. */
module DocumentTree {
  import opened Prelude
  import opened Arena
  import opened Numbering

  // ----- What the searches look for -----

  ghost predicate ListsLeaves(a: Arena, ls: seq<NodeId>) {
    Distinct(ls) && forall n: NodeId :: n in ls <==> n < |a| && a[n].children == []
  }

  predicate CoversPage(node: TreeNode, page: nat) {
    node.startPage.Some? && node.endPage.Some? && node.startPage.value <= page <= node.endPage.value
  }

  /** The page is one of the node's, from its first to its last. */
  ghost predicate HasPage(node: TreeNode, page: nat) {
    node.startPage.Some? && node.endPage.Some? && page >= node.startPage.value && page <= node.endPage.value
  }

  ghost predicate ProperPages(node: TreeNode) {
    node.startPage.Some? && node.endPage.Some? ==> node.startPage.value <= node.endPage.value
  }

  /** Proper ranges overlap exactly if they have a page in common. */
  lemma OverlapSharesPage(node: TreeNode, first: nat, last: nat)
    requires ProperPages(node) && first <= last
    ensures OverlapsPages(node, first, last) <==> exists page: nat :: first <= page <= last && HasPage(node, page)
  {
    if OverlapsPages(node, first, last) {
      assert HasPage(node, Max(first, node.startPage.value));
    }
  }

  predicate OverlapsPages(node: TreeNode, first: nat, last: nat) {
    && node.startPage.Some? && node.endPage.Some?
    && node.startPage.value <= last && first <= node.endPage.value
  }

  /** `n` covers the page and no covering node is deeper. */
  ghost predicate IsDeepestCover(a: Arena, page: nat, n: NodeId) {
    && n < |a| && CoversPage(a[n].data, page)
    && forall m {:trigger a[m].data} :: 0 <= m < |a| && CoversPage(a[m].data, page) ==>
         a[m].data.depth <= a[n].data.depth
  }

  /** The first node of `ns` carrying the number. */
  ghost function FirstNumbered(a: Arena, ns: seq<NodeId>, structure: string): (r: Option<NodeId>)
    requires AllIn(a, ns)
    ensures r.Some? ==> r.value in ns && r.value < |a| && a[r.value].data.structure == structure
    ensures r.None? ==> forall i :: 0 <= i < |ns| ==> a[ns[i]].data.structure != structure
  {
    if ns == [] then None
    else if a[ns[0]].data.structure == structure then Some(ns[0])
    else FirstNumbered(a, ns[1..], structure)
  }

  /** Scanning `ns`, a later node replaces the best one so far only if it is strictly deeper. */
  ghost function FirstDeepest(a: Arena, ns: seq<NodeId>, page: nat): (r: Option<NodeId>)
    requires AllIn(a, ns)
    ensures r.Some? ==> r.value < |a|
  {
    if ns == [] then None
    else
      var n := ns[|ns| - 1];
      var best := FirstDeepest(a, ns[..|ns| - 1], page);
      if CoversPage(a[n].data, page) && (best.None? || a[n].data.depth > a[best.value].data.depth) then Some(n)
      else best
  }

  /** `ns[i]` covers the page, nothing in `ns` covers it deeper, and nothing before it as deep. */
  ghost predicate IsFirstDeepest(a: Arena, ns: seq<NodeId>, page: nat, i: nat)
    requires AllIn(a, ns)
  {
    && i < |ns| && CoversPage(a[ns[i]].data, page)
    && (forall j :: 0 <= j < |ns| && CoversPage(a[ns[j]].data, page) ==> a[ns[j]].data.depth <= a[ns[i]].data.depth)
    && (forall j :: 0 <= j < i && CoversPage(a[ns[j]].data, page) ==> a[ns[j]].data.depth < a[ns[i]].data.depth)
  }

  lemma {:induction false} FirstDeepestIsFirst(a: Arena, ns: seq<NodeId>, page: nat) returns (i: nat)
    requires AllIn(a, ns)
    ensures FirstDeepest(a, ns, page).None? <==> forall j :: 0 <= j < |ns| ==> !CoversPage(a[ns[j]].data, page)
    ensures FirstDeepest(a, ns, page).Some? ==>
              IsFirstDeepest(a, ns, page, i) && ns[i] == FirstDeepest(a, ns, page).value
  {
    i := 0;
    if ns != [] {
      var front, last := ns[..|ns| - 1], ns[|ns| - 1];
      i := FirstDeepestIsFirst(a, front, page);
      if FirstDeepest(a, ns, page) != FirstDeepest(a, front, page) {
        i := |ns| - 1;
      }
    }
  }

  /** The linear page search finds a covering node exactly when there is one, and then a deepest one. */
  lemma LinearPageSearch(a: Arena, page: nat)
    requires WellFormed(a)
    ensures AllIn(a, Preorder(a, ROOT))
    ensures FirstDeepest(a, Preorder(a, ROOT), page).None?
            <==> forall n :: 0 <= n < |a| ==> !CoversPage(a[n].data, page)
    ensures FirstDeepest(a, Preorder(a, ROOT), page).Some? ==>
              IsDeepestCover(a, page, FirstDeepest(a, Preorder(a, ROOT), page).value)
  {
    hide WellFormed, Preorder, FirstDeepest;
    PreorderHasAll(a);
    var all := Preorder(a, ROOT);
    var i := FirstDeepestIsFirst(a, all, page);
    forall m: NodeId {:trigger a[m].data} | m < |a| && CoversPage(a[m].data, page)
      ensures FirstDeepest(a, all, page).Some? && a[m].data.depth <= a[all[i]].data.depth
    {
      assert m in all;
    }
  }

  /** In a grown tree the linear search by number finds the one node at that position, or nothing. */
  lemma LinearStructureSearch(a: Arena, structure: string, n: NodeId)
    requires Grown(a)
    ensures AllIn(a, Preorder(a, ROOT))
    ensures FirstNumbered(a, Preorder(a, ROOT), structure) == Some(n)
            <==> n < |a| && structure == Dotted(Positions(a, n))
  {
    hide WellFormed, Preorder, Numbered, FirstNumbered, Dotted, Positions;
    PreorderHasAll(a);
    var all := Preorder(a, ROOT);
    var r := FirstNumbered(a, all, structure);
    if n < |a| {
      NumberOf(a, n);
      assert n in all;
      if r.Some? && structure == a[n].data.structure {
        StructureUnique(a, n, r.value);
      }
    }
  }

  ghost function KeepLeaves(a: Arena, ns: seq<NodeId>): (r: seq<NodeId>)
    requires AllIn(a, ns)
    ensures AllIn(a, r)
  {
    if ns == [] then []
    else KeepLeaves(a, ns[..|ns| - 1]) + (if a[ns[|ns| - 1]].children == [] then [ns[|ns| - 1]] else [])
  }

  ghost function KeepOverlapping(a: Arena, ns: seq<NodeId>, first: nat, last: nat): (r: seq<NodeId>)
    requires AllIn(a, ns)
    ensures AllIn(a, r)
  {
    if ns == [] then []
    else
      var n := ns[|ns| - 1];
      KeepOverlapping(a, ns[..|ns| - 1], first, last) + (if OverlapsPages(a[n].data, first, last) then [n] else [])
  }

  lemma {:induction false} KeepLeavesMembers(a: Arena, ns: seq<NodeId>)
    requires AllIn(a, ns)
    ensures forall n: NodeId :: n in KeepLeaves(a, ns) <==> n in ns && a[n].children == []
    ensures Distinct(ns) ==> Distinct(KeepLeaves(a, ns))
  {
    if ns != [] {
      var front, last := ns[..|ns| - 1], ns[|ns| - 1];
      KeepLeavesMembers(a, front);
      assert ns == front + [last];
      if Distinct(ns) {
        assert last !in front;
      }
    }
  }

  lemma {:induction false} KeepOverlappingMembers(a: Arena, ns: seq<NodeId>, first: nat, last: nat)
    requires AllIn(a, ns)
    ensures forall n: NodeId :: n in KeepOverlapping(a, ns, first, last)
              <==> n in ns && OverlapsPages(a[n].data, first, last)
    ensures Distinct(ns) ==> Distinct(KeepOverlapping(a, ns, first, last))
  {
    if ns != [] {
      var front, back := ns[..|ns| - 1], ns[|ns| - 1];
      KeepOverlappingMembers(a, front, first, last);
      assert ns == front + [back];
      if Distinct(ns) {
        assert back !in front;
      }
    }
  }

  lemma PreorderLeaves(a: Arena)
    requires WellFormed(a)
    ensures ListsLeaves(a, KeepLeaves(a, Preorder(a, ROOT)))
  {
    WholePreorder(a);
    KeepLeavesMembers(a, Preorder(a, ROOT));
  }

  // ----- Growth and setters as values -----

  /** The data `add_child` gives a new last child of `parent`. */
  ghost function NewChild(a: Arena, parent: NodeId, title: string, content: string): TreeNode
    requires parent < |a|
  {
    TreeNode(title, ExtendStructure(a[parent].data.structure, |a[parent].children| + 1), content, "",
             a[parent].data.depth + 1, None, None)
  }

  /** `b` is `a` with one more node, the last child of `p`, with this title and content and nothing else yet. */
  ghost predicate Added(a: Arena, p: NodeId, title: string, content: string, b: Arena)
    requires p < |a|
  {
    && |b| == |a| + 1
    && b[|a|].parent == Some(p) && b[|a|].children == []
    && b[|a|].data.title == title && b[|a|].data.content == content && b[|a|].data.summary == ""
    && b[|a|].data.depth == a[p].data.depth + 1
    && b[|a|].data.startPage == None && b[|a|].data.endPage == None
    && b[p].data == a[p].data && b[p].parent == a[p].parent && b[p].children == a[p].children + [|a|]
    && forall n: NodeId :: n < |a| && n != p ==> b[n] == a[n]
  }

  ghost function Planted(title: string, content: string): Arena {
    [Slot(TreeNode(title, "", content, "", 0, None, None), None, [])]
  }

  /** The tree after `add_child` below `p`. */
  ghost function WithChild(a: Arena, p: NodeId, title: string): (b: Arena)
    requires p < |a|
    ensures |b| == |a| + 1
    ensures b[|a|].children == [] && b[|a|].data.title == title && b[|a|].data.depth == a[p].data.depth + 1
    ensures b[|a|].data.startPage.None? && b[|a|].data.content == ""
    ensures b[p] == a[p].(children := a[p].children + [|a|])
    ensures forall n: NodeId :: n < |a| && n != p ==> b[n] == a[n]
  {
    Grow(a, p, NewChild(a, p, title, ""))
  }

  lemma PlantedIsGrown(title: string, content: string)
    ensures Grown(Planted(title, content))
  {
    var a := Planted(title, content);
    assert WellFormed(a);
    assert Positions(a, ROOT) == [];
  }

  lemma GrownIsWellFormed(a: Arena)
    requires Grown(a)
    ensures WellFormed(a)
  {
  }

  lemma WithChildGrown(a: Arena, p: NodeId, title: string)
    requires Grown(a) && p < |a|
    ensures Grown(WithChild(a, p, title))
  {
    AddChildKeeps(a, p, title, "", None);
  }

  ghost function WithPages(a: Arena, id: NodeId, start: nat, end: nat): Arena {
    if id < |a| then
      a[id := a[id].(data := a[id].data.(startPage := Some(start), endPage := Some(end)))]
    else a
  }

  lemma WithPagesGrown(a: Arena, id: NodeId, start: nat, end: nat)
    requires Grown(a)
    ensures Grown(WithPages(a, id, start, end))
  {
    var b := WithPages(a, id, start, end);
    SameShapeWellFormed(a, b);
    RenumberUnchanged(a, b);
  }

  // ----- The leaf cache -----

  /** Dropping the parent and appending the child turns the leaf list into the leaf list of the grown tree. */
  lemma GrowLeaves(a: Arena, p: NodeId, data: TreeNode, ls: seq<NodeId>)
    requires p < |a| && ListsLeaves(a, ls)
    ensures ListsLeaves(Grow(a, p, data), Without<NodeId>(ls, p) + [|a|])
  {
    WithoutMembers<NodeId>(ls, p);
    DistinctConcat(Without<NodeId>(ls, p), [|a|]);
    var b := Grow(a, p, data);
    forall n: NodeId | n < |a| ensures b[n].children == [] <==> a[n].children == [] && n != p {
    }
  }

  lemma AddChildKeeps(a: Arena, p: NodeId, title: string, content: string, cache: Option<seq<NodeId>>)
    requires WellFormed(a) && p < |a| && (cache.Some? ==> ListsLeaves(a, cache.value))
    ensures WellFormed(Grow(a, p, NewChild(a, p, title, content)))
    ensures Grown(a) ==> Grown(Grow(a, p, NewChild(a, p, title, content)))
    ensures cache.Some? ==>
              ListsLeaves(Grow(a, p, NewChild(a, p, title, content)), Without<NodeId>(cache.value, p) + [|a|])
  {
    hide ParentLinks, Depths, ChildLinks, Numbered, ListsLeaves;
    var child := NewChild(a, p, title, content);
    GrowWellFormed(a, p, child);
    if Grown(a) {
      GrowNumbered(a, p, child);
    }
    if cache.Some? {
      GrowLeaves(a, p, child, cache.value);
    }
  }

  // ----- The stack of a walk -----

  lemma ReverseConcat<T>(xs: seq<T>, ys: seq<T>)
    ensures Reverse(xs + ys) == Reverse(ys) + Reverse(xs)
    ensures Reverse(Reverse(xs)) == xs
  {
    hide Reverse;
    assert Reverse(xs + ys) == Reverse(ys) + Reverse(xs);
    assert Reverse(Reverse(xs)) == xs;
  }

  lemma StartWalk(a: Arena)
    requires WellFormed(a)
    ensures ROOT < |a| && Reverse([ROOT]) == [ROOT]
    ensures Forest(a, Reverse([ROOT])) == Preorder(a, ROOT)
    ensures AllIn(a, Reverse([])) && Forest(a, Reverse([])) == []
  {
    ForestOne(a, ROOT);
    assert Preorder(a, ROOT) + [] == Preorder(a, ROOT);
  }

  /** Popping a node and pushing its children in reverse moves the node from the stack's forest to the output. */
  lemma TraverseStep(a: Arena, rest: seq<NodeId>, id: NodeId)
    requires WellFormed(a) && AllIn(a, rest) && id < |a|
    ensures AllIn(a, Reverse(rest + [id])) && AllIn(a, Reverse(rest + Reverse(a[id].children)))
    ensures AllIn(a, rest + Reverse(a[id].children))
    ensures Forest(a, Reverse(rest + [id])) == [id] + Forest(a, Reverse(rest + Reverse(a[id].children)))
  {
    hide WellFormed, Forest, Reverse, AllIn;
    var kids := a[id].children;
    ChildrenIn(a, id);
    ReverseConcat(rest, [id]);
    ReverseConcat(rest, Reverse(kids));
    ReverseConcat(kids, []);
    ReverseIn(a, rest + [id]);
    ReverseIn(a, kids);
    BothIn(a, rest, [id]);
    BothIn(a, rest, Reverse(kids));
    ReverseIn(a, rest + Reverse(kids));
    ReverseIn(a, rest);
    ReverseOne(id);
    ForestStep(a, id, Reverse(rest));
  }

  lemma ReverseOne(id: NodeId)
    ensures Reverse([id]) == [id]
  {
  }

  lemma ReverseIn(a: Arena, ns: seq<NodeId>)
    ensures AllIn(a, ns) ==> AllIn(a, Reverse(ns))
  {
  }

  lemma BothIn(a: Arena, xs: seq<NodeId>, ys: seq<NodeId>)
    ensures AllIn(a, xs + ys) <==> AllIn(a, xs) && AllIn(a, ys)
  {
    if AllIn(a, xs + ys) {
      assert xs == (xs + ys)[..|xs|] && ys == (xs + ys)[|xs|..];
    }
  }

  /** Pushing the children in order instead visits the same nodes. */
  lemma PushStep(a: Arena, rest: seq<NodeId>, id: NodeId)
    requires WellFormed(a) && AllIn(a, rest) && id < |a|
    ensures AllIn(a, rest + [id]) && AllIn(a, rest + a[id].children)
    ensures Forest(a, rest + [id]) == Forest(a, rest) + [id] + Forest(a, a[id].children)
    ensures Forest(a, rest + a[id].children) == Forest(a, rest) + Forest(a, a[id].children)
  {
    hide WellFormed, Forest;
    ChildrenIn(a, id);
    ForestOne(a, id);
    ForestConcat(a, rest, [id]);
    ForestConcat(a, rest, a[id].children);
  }

  class DocumentTree {
    var arena: Arena
    var leavesCache: Option<seq<NodeId>>

    ghost predicate Valid()
      reads this
    {
      WellFormed(arena) && (leavesCache.Some? ==> ListsLeaves(arena, leavesCache.value))
    }

    constructor (title: string, content: string)
      ensures Valid() && Grown(arena) && arena == Planted(title, content)
    {
      arena := [Slot(TreeNode(title, "", content, "", 0, None, None), None, [])];
      leavesCache := Some([ROOT]);
    }

    /** Add a last child below `parent`; its number follows from its position. */
    method AddChild(parent: NodeId, title: string, content: string) returns (id: NodeId)
      requires Valid() && parent < |arena|
      modifies this
      ensures Valid()
      ensures id == |old(arena)| && Added(old(arena), parent, title, content, arena)
      ensures arena == Grow(old(arena), parent, NewChild(old(arena), parent, title, content))
      ensures old(Grown(arena)) ==> Grown(arena)
      ensures leavesCache.Some? == old(leavesCache.Some?)
    {
      hide WellFormed, Grown, ListsLeaves;
      AddChildKeeps(arena, parent, title, content, leavesCache);
      var parentDepth := arena[parent].data.depth;
      var parentStructure := arena[parent].data.structure;
      var childIndex := |arena[parent].children| + 1;
      var childStructure := ExtendStructure(parentStructure, childIndex);
      var child := TreeNode(title, childStructure, content, "", parentDepth + 1, None, None);
      id := |arena|;
      var slot := arena[parent].(children := arena[parent].children + [id]);
      arena := arena[parent := slot] + [Slot(child, Some(parent), [])];
      if leavesCache.Some? {
        leavesCache := Some(Without<NodeId>(leavesCache.value, parent) + [id]);
      }
    }

    /** Setters reach an existing node and leave the shape of the tree and its numbering alone. */
    method SetPageBoundaries(id: NodeId, start: nat, end: nat)
      requires Valid()
      modifies this`arena
      ensures Valid()
      ensures old(Grown(arena)) ==> Grown(arena)
      ensures arena == WithPages(old(arena), id, start, end)
    {
      if id < |arena| {
        ghost var before := arena;
        arena := arena[id := arena[id].(data := arena[id].data.(startPage := Some(start), endPage := Some(end)))];
        SameShapeWellFormed(before, arena);
        RenumberUnchanged(before, arena);
      }
    }

    method AddChildWithPages(parent: NodeId, title: string, content: string, start: nat, end: nat) returns (id: NodeId)
      requires Valid() && parent < |arena|
      modifies this
      ensures Valid() && id == |old(arena)|
      ensures old(Grown(arena)) ==> Grown(arena)
      ensures arena == WithPages(Grow(old(arena), parent, NewChild(old(arena), parent, title, content)), id, start, end)
    {
      id := AddChild(parent, title, content);
      SetPageBoundaries(id, start, end);
    }

    /** Overwrites a number: the one setter that can break the numbering. */
    method SetStructure(id: NodeId, structure: string)
      requires Valid()
      modifies this`arena
      ensures Valid()
      ensures if id < |old(arena)|
              then arena == old(arena)[id := old(arena)[id].(data := old(arena)[id].data.(structure := structure))]
              else arena == old(arena)
    {
      if id < |arena| {
        ghost var before := arena;
        arena := arena[id := arena[id].(data := arena[id].data.(structure := structure))];
        SameShapeWellFormed(before, arena);
      }
    }

    /** The stack walk lists the nodes in preorder, which is the order of the document. */
    method Traverse() returns (result: seq<NodeId>)
      requires Valid()
      ensures result == Preorder(arena, ROOT)
    {
      hide WellFormed, ListsLeaves, Forest, Preorder, Reverse;
      result := [];
      var stack := [ROOT];
      StartWalk(arena);
      while stack != []
        invariant AllIn(arena, stack) && AllIn(arena, Reverse(stack))
        invariant result + Forest(arena, Reverse(stack)) == Preorder(arena, ROOT)
        decreases |Forest(arena, Reverse(stack))|
      {
        var id := stack[|stack| - 1];
        assert stack == stack[..|stack| - 1] + [id];
        stack := stack[..|stack| - 1];
        TraverseStep(arena, stack, id);
        result := result + [id];
        stack := stack + Reverse(arena[id].children);
      }
    }

    /** The cached list when there is one, otherwise the leaves in preorder; either way exactly the leaves. */
    method Leaves() returns (leaves: seq<NodeId>)
      requires Valid()
      ensures ListsLeaves(arena, leaves)
      ensures leavesCache.Some? ==> leaves == leavesCache.value
      ensures leavesCache.None? ==>
                && AllIn(arena, Preorder(arena, ROOT))
                && leaves == KeepLeaves(arena, Preorder(arena, ROOT))
    {
      if leavesCache.Some? {
        return leavesCache.value;
      }
      leaves := CollectLeaves();
    }

    method CollectLeaves() returns (leaves: seq<NodeId>)
      requires Valid()
      ensures leaves == KeepLeaves(arena, Preorder(arena, ROOT))
      ensures ListsLeaves(arena, leaves)
    {
      hide WellFormed, Preorder, ListsLeaves;
      var all := Traverse();
      leaves := [];
      for i := 0 to |all|
        invariant AllIn(arena, all)
        invariant leaves == KeepLeaves(arena, all[..i])
      {
        assert all[..i + 1][..i] == all[..i];
        if arena[all[i]].children == [] {
          leaves := leaves + [all[i]];
        }
      }
      assert all[..|all|] == all;
      PreorderLeaves(arena);
    }

    method RebuildLeavesCache()
      requires Valid()
      modifies this`leavesCache
      ensures Valid()
      ensures leavesCache == Some(KeepLeaves(arena, Preorder(arena, ROOT)))
    {
      var leaves := CollectLeaves();
      leavesCache := Some(leaves);
    }

    method InvalidateLeavesCache()
      requires Valid()
      modifies this`leavesCache
      ensures Valid() && leavesCache == None
    {
      leavesCache := None;
    }

    /** Walk with a stack of nodes and their depths; the answer is the greatest depth in the tree. */
    method MaxDepth() returns (maxDepth: nat)
      requires Valid()
      ensures IsMaxDepth(arena, maxDepth)
    {
      hide WellFormed, ListsLeaves, Forest, Preorder;
      maxDepth := 0;
      var stack := [(ROOT, 0)];
      ghost var ids := [ROOT];
      StartMaxDepth(arena);
      while stack != []
        invariant AllIn(arena, ids) && Depthed(arena, ids, stack)
        invariant exists m: NodeId :: m < |arena| && arena[m].data.depth == maxDepth
        invariant forall m: NodeId :: m < |arena| ==> m in Forest(arena, ids) || arena[m].data.depth <= maxDepth
        decreases |Forest(arena, ids)|
      {
        var (id, d) := stack[|stack| - 1];
        stack := stack[..|stack| - 1];
        assert ids == ids[..|ids| - 1] + [id];
        ids := ids[..|ids| - 1];
        PushStep(arena, ids, id);
        if maxDepth < d {
          maxDepth := d;
        }
        var children := arena[id].children;
        ChildrenDepths(arena, id);
        ghost var below, belowIds := stack, ids;
        for i := 0 to |children|
          invariant ids == belowIds + children[..i]
          invariant AllIn(arena, ids) && Depthed(arena, ids, stack)
        {
          stack := stack + [(children[i], d + 1)];
          ids := ids + [children[i]];
        }
        assert children[..|children|] == children;
      }
      EmptyForest(arena);
    }

    /** Linear search in preorder. */
    method FindByStructure(structure: string) returns (r: Option<NodeId>)
      requires Valid()
      ensures AllIn(arena, Preorder(arena, ROOT))
      ensures r == FirstNumbered(arena, Preorder(arena, ROOT), structure)
    {
      hide WellFormed, Preorder, ListsLeaves;
      var all := Traverse();
      for i := 0 to |all|
        invariant AllIn(arena, all)
        invariant FirstNumbered(arena, all, structure) == FirstNumbered(arena, all[i..], structure)
      {
        assert all[i..][1..] == all[i + 1..];
        if arena[all[i]].data.structure == structure {
          return Some(all[i]);
        }
      }
      return None;
    }

    /** Scan in preorder for the deepest node covering the page; the first one wins. */
    method FindByPage(page: nat) returns (r: Option<NodeId>)
      requires Valid()
      ensures AllIn(arena, Preorder(arena, ROOT))
      ensures r == FirstDeepest(arena, Preorder(arena, ROOT), page)
      ensures r.Some? ==> r.value < |arena| && HasPage(arena[r.value].data, page)
      ensures r.None? ==> forall n: NodeId :: n < |arena| ==> !HasPage(arena[n].data, page)
    {
      hide WellFormed, Preorder, ListsLeaves;
      var all := Traverse();
      var best: Option<(NodeId, nat)> := None;
      for k := 0 to |all|
        invariant AllIn(arena, all)
        invariant var b := FirstDeepest(arena, all[..k], page);
          best == if b.None? then None else Some((b.value, arena[b.value].data.depth))
      {
        var node := arena[all[k]].data;
        assert all[..k + 1][..k] == all[..k];
        if CoversPage(node, page) {
          if best.None? || node.depth > best.value.1 {
            best := Some((all[k], node.depth));
          }
        }
      }
      assert all[..|all|] == all;
      LinearPageSearch(arena, page);
      return if best.None? then None else Some(best.value.0);
    }

    method FindNodesByPageRange(first: nat, last: nat) returns (r: seq<NodeId>)
      requires Valid()
      ensures AllIn(arena, Preorder(arena, ROOT))
      ensures r == KeepOverlapping(arena, Preorder(arena, ROOT), first, last)
      ensures Distinct(r)
      ensures forall n: NodeId :: n in r <==> n < |arena| && OverlapsPages(arena[n].data, first, last)
      ensures first <= last ==> forall n: NodeId :: n < |arena| && ProperPages(arena[n].data) ==>
                (n in r <==> exists page: nat :: first <= page <= last && HasPage(arena[n].data, page))
    {
      hide WellFormed, Preorder, ListsLeaves;
      var all := Traverse();
      r := [];
      for i := 0 to |all|
        invariant AllIn(arena, all)
        invariant r == KeepOverlapping(arena, all[..i], first, last)
      {
        assert all[..i + 1][..i] == all[..i];
        if OverlapsPages(arena[all[i]].data, first, last) {
          r := r + [all[i]];
        }
      }
      assert all[..|all|] == all;
      PreorderHasAll(arena);
      KeepOverlappingMembers(arena, all, first, last);
      forall n: NodeId | n < |arena| && ProperPages(arena[n].data) && first <= last
        ensures n in r <==> exists page: nat :: first <= page <= last && HasPage(arena[n].data, page)
      {
        OverlapSharesPage(arena[n].data, first, last);
      }
    }
  }

  // ----- Facts the loops above rest on -----

  ghost predicate IsMaxDepth(a: Arena, d: nat) {
    && (exists m: NodeId :: m < |a| && a[m].data.depth == d)
    && forall m: NodeId :: m < |a| ==> a[m].data.depth <= d
  }

  ghost predicate Depthed(a: Arena, ids: seq<NodeId>, stack: seq<(NodeId, nat)>)
    requires AllIn(a, ids)
  {
    |ids| == |stack| && forall k :: 0 <= k < |ids| ==> stack[k] == (ids[k], a[ids[k]].data.depth)
  }

  lemma StartMaxDepth(a: Arena)
    requires WellFormed(a)
    ensures ROOT < |a| && a[ROOT].data.depth == 0
    ensures forall m: NodeId :: m < |a| ==> m in Forest(a, [ROOT])
  {
    ForestOne(a, ROOT);
    WholePreorder(a);
  }

  lemma EmptyForest(a: Arena)
    requires WellFormed(a)
    ensures Forest(a, []) == []
  {
  }

  lemma ChildrenDepths(a: Arena, n: NodeId)
    requires WellFormed(a) && n < |a|
    ensures AllIn(a, a[n].children)
    ensures forall i :: 0 <= i < |a[n].children| ==> a[a[n].children[i]].data.depth == a[n].data.depth + 1
  {
    forall i | 0 <= i < |a[n].children| ensures a[a[n].children[i]].data.depth == a[n].data.depth + 1 {
      assert a[a[n].children[i]].parent == Some(n);
    }
  }

  lemma PreorderHasAll(a: Arena)
    requires WellFormed(a)
    ensures |a| > 0
    ensures Distinct(Preorder(a, ROOT))
    ensures forall m: NodeId :: m in Preorder(a, ROOT) <==> m < |a|
  {
    WholePreorder(a);
  }

  lemma RenumberUnchanged(a: Arena, b: Arena)
    requires WellFormed(a) && WellFormed(b) && SameShape(a, b)
    requires forall n {:trigger b[n]} :: 0 <= n < |a| ==> a[n].data.structure == b[n].data.structure
    ensures Grown(a) ==> Grown(b)
  {
    if Numbered(a) {
      forall n {:trigger b[n].data} | 0 <= n < |b| ensures b[n].data.structure == Dotted(Positions(b, n)) {
        SameShapePositions(a, b, n);
        assert a[n].data.structure == Dotted(Positions(a, n));
      }
    }
  }
}
