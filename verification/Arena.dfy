/**
 * The arena behind a document tree: every node sits in a numbered slot that records its parent and its
 * ordered children. Slots are only ever added, always below an existing parent, so a child's number is
 * larger than its parent's. This module holds the reference definitions (subtree, preorder, levels, path)
 * against which the loops over the tree are proved.
 */
module Arena {
  import opened Prelude

  type NodeId = nat

  datatype TreeNode = TreeNode(
    title: string,
    structure: string,
    content: string,
    summary: string,
    depth: nat,
    startPage: Option<nat>,
    endPage: Option<nat>)

  function PageRange(node: TreeNode): Option<(nat, nat)> {
    if node.startPage.Some? && node.endPage.Some? then Some((node.startPage.value, node.endPage.value)) else None
  }

  datatype Slot = Slot(data: TreeNode, parent: Option<NodeId>, children: seq<NodeId>)

  type Arena = seq<Slot>

  const ROOT: NodeId := 0

  ghost predicate AllIn(a: Arena, ns: seq<NodeId>) {
    forall i :: 0 <= i < |ns| ==> ns[i] < |a|
  }

  ghost predicate ParentLinks(a: Arena) {
    && |a| > 0
    && a[ROOT].parent.None?
    && forall n {:trigger a[n].parent} :: 0 < n < |a| ==>
         a[n].parent.Some? && a[n].parent.value < n && n in a[a[n].parent.value].children
  }

  ghost predicate Depths(a: Arena)
    requires ParentLinks(a)
  {
    && a[ROOT].data.depth == 0
    && forall n {:trigger a[n].parent, a[n].data} :: 0 < n < |a| ==>
         a[n].data.depth == a[a[n].parent.value].data.depth + 1
  }

  ghost predicate ChildLinks(a: Arena) {
    && (forall n {:trigger a[n].children} :: 0 <= n < |a| ==> Distinct(a[n].children))
    && (forall n, i {:trigger a[n].children[i]} :: 0 <= n < |a| && 0 <= i < |a[n].children| ==>
          n < a[n].children[i] < |a| && a[a[n].children[i]].parent == Some(n))
  }

  ghost predicate WellFormed(a: Arena) {
    ParentLinks(a) && Depths(a) && ChildLinks(a)
  }

  lemma ChildrenIn(a: Arena, n: NodeId)
    requires WellFormed(a) && n < |a|
    ensures AllIn(a, a[n].children)
    ensures Distinct(a[n].children)
  {
  }

  // ----- Ancestry -----

  /** `x` is `m` itself or one of its ancestors: `m` lies in the subtree of `x`. */
  predicate InSubtree(a: Arena, x: NodeId, m: NodeId)
    requires WellFormed(a) && m < |a|
    decreases m
  {
    m == x || (m != ROOT && InSubtree(a, x, a[m].parent.value))
  }

  lemma SubtreeBounds(a: Arena, x: NodeId, m: NodeId)
    requires WellFormed(a) && m < |a| && InSubtree(a, x, m)
    ensures x <= m && a[x].data.depth <= a[m].data.depth
    ensures a[x].data.depth == a[m].data.depth ==> x == m
    decreases m
  {
  }

  lemma {:induction false} RootHasAll(a: Arena, m: NodeId)
    requires WellFormed(a) && m < |a|
    ensures InSubtree(a, ROOT, m)
    decreases m
  {
    if m != ROOT {
      RootHasAll(a, a[m].parent.value);
    }
  }

  lemma {:induction false} SubtreeTransitive(a: Arena, x: NodeId, y: NodeId, m: NodeId)
    requires WellFormed(a) && y < |a| && m < |a|
    requires InSubtree(a, x, y) && InSubtree(a, y, m)
    ensures InSubtree(a, x, m)
    decreases m
  {
    if m != y {
      SubtreeTransitive(a, x, y, a[m].parent.value);
    }
  }

  /** A proper descendant lies below exactly one of the children. */
  lemma {:induction false} ChildTowards(a: Arena, x: NodeId, m: NodeId) returns (c: NodeId)
    requires WellFormed(a) && x < |a| && m < |a| && InSubtree(a, x, m) && x != m
    ensures c in a[x].children && InSubtree(a, c, m)
    decreases m
  {
    var p := a[m].parent.value;
    if p == x {
      c := m;
    } else {
      c := ChildTowards(a, x, p);
    }
  }

  /** Two nodes with a common descendant are comparable. */
  lemma {:induction false} CommonDescendant(a: Arena, x: NodeId, y: NodeId, m: NodeId)
    requires WellFormed(a) && x < |a| && y < |a| && m < |a|
    requires InSubtree(a, x, m) && InSubtree(a, y, m)
    ensures InSubtree(a, x, y) || InSubtree(a, y, x)
    decreases m
  {
    if x != m && y != m {
      CommonDescendant(a, x, y, a[m].parent.value);
    }
  }

  /** Nodes at one depth have no descendant in common. */
  lemma SameDepthDisjoint(a: Arena, x: NodeId, y: NodeId, m: NodeId)
    requires WellFormed(a) && x < |a| && y < |a| && m < |a|
    requires a[x].data.depth == a[y].data.depth
    requires InSubtree(a, x, m) && InSubtree(a, y, m)
    ensures x == y
  {
    CommonDescendant(a, x, y, m);
    if InSubtree(a, x, y) {
      SubtreeBounds(a, x, y);
    } else {
      SubtreeBounds(a, y, x);
    }
  }

  // ----- Preorder -----

  /** The smallest id in `ns`; bounds the recursion below. */
  ghost function Lowest(a: Arena, ns: seq<NodeId>): (r: nat)
    requires AllIn(a, ns)
    ensures r <= |a| && (r == |a| || r in ns)
    ensures forall i :: 0 <= i < |ns| ==> r <= ns[i]
  {
    if ns == [] then |a| else Min(ns[0], Lowest(a, ns[1..]))
  }

  /** Depth-first order of the subtree of `n`: the node, then its children's subtrees from left to right. */
  ghost function Preorder(a: Arena, n: NodeId): (r: seq<NodeId>)
    requires WellFormed(a) && n < |a|
    ensures AllIn(a, r)
    decreases |a| - n, 0, 0
  {
    [n] + Forest(a, a[n].children)
  }

  ghost function Forest(a: Arena, ns: seq<NodeId>): (r: seq<NodeId>)
    requires WellFormed(a) && AllIn(a, ns)
    ensures AllIn(a, r)
    decreases |a| - Lowest(a, ns), 1, |ns|
  {
    if ns == [] then [] else Preorder(a, ns[0]) + Forest(a, ns[1..])
  }

  lemma {:induction false} ForestConcat(a: Arena, xs: seq<NodeId>, ys: seq<NodeId>)
    requires WellFormed(a) && AllIn(a, xs) && AllIn(a, ys)
    ensures AllIn(a, xs + ys)
    ensures Forest(a, xs + ys) == Forest(a, xs) + Forest(a, ys)
    decreases |xs|
  {
    hide WellFormed, Forest, Preorder;
    if xs == [] {
      assert xs + ys == ys;
      ForestNone(a);
    } else {
      ForestConcat(a, xs[1..], ys);
      ForestCons(a, xs[0], xs[1..] + ys);
      ForestCons(a, xs[0], xs[1..]);
      assert xs == [xs[0]] + xs[1..] && xs + ys == [xs[0]] + (xs[1..] + ys);
    }
  }

  lemma ForestNone(a: Arena)
    requires WellFormed(a)
    ensures Forest(a, []) == []
  {
  }

  lemma ForestCons(a: Arena, n: NodeId, rest: seq<NodeId>)
    requires WellFormed(a) && n < |a| && AllIn(a, rest)
    ensures AllIn(a, [n] + rest)
    ensures Forest(a, [n] + rest) == Preorder(a, n) + Forest(a, rest)
  {
    assert ([n] + rest)[1..] == rest;
  }

  lemma ForestOne(a: Arena, n: NodeId)
    requires WellFormed(a) && n < |a|
    ensures AllIn(a, [n]) && Forest(a, [n]) == Preorder(a, n)
  {
    ForestCons(a, n, []);
    assert [n] + [] == [n];
  }

  /** The forest of a list is the first tree's root, followed by the forest of its children and of the rest. */
  lemma ForestStep(a: Arena, n: NodeId, rest: seq<NodeId>)
    requires WellFormed(a) && n < |a| && AllIn(a, rest)
    ensures AllIn(a, a[n].children + rest) && AllIn(a, [n] + rest)
    ensures Forest(a, [n] + rest) == [n] + Forest(a, a[n].children + rest)
  {
    hide Forest;
    ForestConcat(a, a[n].children, rest);
    ForestCons(a, n, rest);
  }

  /** Preorder lists exactly the subtree. */
  lemma {:induction false} PreorderIsSubtree(a: Arena, n: NodeId, m: NodeId)
    requires WellFormed(a) && n < |a|
    ensures m in Preorder(a, n) <==> m < |a| && InSubtree(a, n, m)
    decreases |a| - n, 0, 0
  {
    ForestIsSubtrees(a, a[n].children, m);
    if m < |a| && m != n && InSubtree(a, n, m) {
      var c := ChildTowards(a, n, m);
    }
    if m < |a| {
      forall c: NodeId | c in a[n].children && InSubtree(a, c, m) ensures InSubtree(a, n, m) {
        SubtreeTransitive(a, n, c, m);
      }
    }
  }

  lemma {:induction false} ForestIsSubtrees(a: Arena, ns: seq<NodeId>, m: NodeId)
    requires WellFormed(a) && AllIn(a, ns)
    ensures m in Forest(a, ns) <==> m < |a| && exists x: NodeId :: x in ns && InSubtree(a, x, m)
    decreases |a| - Lowest(a, ns), 1, |ns|
  {
    if ns != [] {
      PreorderIsSubtree(a, ns[0], m);
      ForestIsSubtrees(a, ns[1..], m);
    }
  }

  /** All nodes of `ns` sit at one depth. */
  ghost predicate SameDepth(a: Arena, ns: seq<NodeId>) {
    AllIn(a, ns) && forall x: NodeId, y: NodeId :: x in ns && y in ns ==> a[x].data.depth == a[y].data.depth
  }

  lemma {:induction false} PreorderDistinct(a: Arena, n: NodeId)
    requires WellFormed(a) && n < |a|
    ensures Distinct(Preorder(a, n))
    decreases |a| - n, 0, 0
  {
    ForestDistinct(a, a[n].children);
    var below := Forest(a, a[n].children);
    assert n !in below by {
      ForestIsSubtrees(a, a[n].children, n);
      forall c: NodeId | c in a[n].children ensures !InSubtree(a, c, n) {
        if InSubtree(a, c, n) {
          SubtreeBounds(a, c, n);
        }
      }
    }
    DistinctConcat([n], below);
  }

  lemma {:induction false} ForestDistinct(a: Arena, ns: seq<NodeId>)
    requires WellFormed(a) && SameDepth(a, ns) && Distinct(ns)
    ensures Distinct(Forest(a, ns))
    decreases |a| - Lowest(a, ns), 1, |ns|
  {
    if ns != [] {
      var head, tail := Preorder(a, ns[0]), Forest(a, ns[1..]);
      PreorderDistinct(a, ns[0]);
      ForestDistinct(a, ns[1..]);
      forall m: NodeId | m in head ensures m !in tail {
        if m in tail {
          PreorderIsSubtree(a, ns[0], m);
          ForestIsSubtrees(a, ns[1..], m);
          var y :| y in ns[1..] && InSubtree(a, y, m);
          SameDepthDisjoint(a, ns[0], y, m);
          assert false;
        }
      }
      DistinctConcat(head, tail);
    }
  }

  /** Preorder from the root lists every node exactly once. */
  lemma WholePreorder(a: Arena)
    requires WellFormed(a)
    ensures Distinct(Preorder(a, ROOT))
    ensures forall m: NodeId :: m in Preorder(a, ROOT) <==> m < |a|
    ensures |Preorder(a, ROOT)| == |a|
  {
    PreorderDistinct(a, ROOT);
    forall m: NodeId ensures m in Preorder(a, ROOT) <==> m < |a| {
      PreorderIsSubtree(a, ROOT, m);
      if m < |a| {
        RootHasAll(a, m);
      }
    }
    DistinctCovers(Preorder(a, ROOT), |a|);
  }

  /** A distinct list of exactly the numbers below `n` has `n` elements. */
  lemma DistinctCovers(s: seq<nat>, n: nat)
    requires Distinct(s) && forall m: nat :: m in s <==> m < n
    ensures |s| == n
  {
    DistinctCardinality(s, Below(n));
  }

  // ----- Document order -----

  /** The two nodes lie in the trees of two nodes of `ns`, `x` in that of the earlier one. */
  ghost predicate ApartIn(a: Arena, ns: seq<NodeId>, x: NodeId, y: NodeId)
    requires WellFormed(a) && x < |a| && y < |a|
  {
    exists i, j :: 0 <= i < j < |ns| && InSubtree(a, ns[i], x) && InSubtree(a, ns[j], y)
  }

  /** In the order of the document: `x` is an ancestor of `y`, or lies below an earlier sibling of one of them. */
  ghost predicate Precedes(a: Arena, x: NodeId, y: NodeId)
    requires WellFormed(a) && x < |a| && y < |a|
  {
    (x != y && InSubtree(a, x, y)) || exists n: NodeId :: n < |a| && ApartIn(a, a[n].children, x, y)
  }

  /** Of two nodes in the preorder of a subtree, the earlier one precedes the later one. */
  lemma {:induction false} PreorderIsDocumentOrder(a: Arena, n: NodeId, p: nat, q: nat)
    requires WellFormed(a) && n < |a| && p < q < |Preorder(a, n)|
    ensures Precedes(a, Preorder(a, n)[p], Preorder(a, n)[q])
    decreases |a| - n, 0, 0
  {
    hide ParentLinks, Depths, InSubtree, Distinct;
    ChildrenIn(a, n);
    var (all, below) := (Preorder(a, n), Forest(a, a[n].children));
    assert all == [n] + below;
    if p > 0 {
      ForestInOrder(a, a[n].children, p - 1, q - 1);
    } else {
      PreorderDistinct(a, n);
      assert all[q] in all;
      PreorderIsSubtree(a, n, all[q]);
      NotTwice(all, 0, q);
    }
  }

  lemma NotTwice<T>(s: seq<T>, p: nat, q: nat)
    requires Distinct(s) && p < q < |s|
    ensures s[p] != s[q]
  {
  }

  lemma {:induction false} ForestInOrder(a: Arena, ns: seq<NodeId>, p: nat, q: nat)
    requires WellFormed(a) && AllIn(a, ns) && p < q < |Forest(a, ns)|
    ensures Precedes(a, Forest(a, ns)[p], Forest(a, ns)[q]) || ApartIn(a, ns, Forest(a, ns)[p], Forest(a, ns)[q])
    decreases |a| - Lowest(a, ns), 1, |ns|
  {
    hide WellFormed, InSubtree, Precedes, Preorder;
    var (head, tail) := (Preorder(a, ns[0]), Forest(a, ns[1..]));
    var (x, y) := (Forest(a, ns)[p], Forest(a, ns)[q]);
    if q < |head| {
      PreorderIsDocumentOrder(a, ns[0], p, q);
    } else if p < |head| {
      assert x in head && y in tail;
      PreorderIsSubtree(a, ns[0], x);
      ForestIsSubtrees(a, ns[1..], y);
      var j :| 0 <= j < |ns[1..]| && InSubtree(a, ns[1..][j], y);
      assert ns[j + 1] == ns[1..][j];
    } else {
      ForestInOrder(a, ns[1..], p - |head|, q - |head|);
      if ApartIn(a, ns[1..], x, y) {
        var i, j :| 0 <= i < j < |ns[1..]| && InSubtree(a, ns[1..][i], x) && InSubtree(a, ns[1..][j], y);
        assert ns[i + 1] == ns[1..][i] && ns[j + 1] == ns[1..][j];
      }
    }
  }

  // ----- Levels -----

  /** The children of `ns`, in order. */
  ghost function ChildrenOf(a: Arena, ns: seq<NodeId>): seq<NodeId>
    requires WellFormed(a) && AllIn(a, ns)
    ensures AllIn(a, ChildrenOf(a, ns))
  {
    if ns == [] then [] else a[ns[0]].children + ChildrenOf(a, ns[1..])
  }

  /** The nodes at depth `d`, from left to right. */
  ghost function Level(a: Arena, d: nat): seq<NodeId>
    requires WellFormed(a)
    ensures AllIn(a, Level(a, d))
  {
    if d == 0 then [ROOT] else ChildrenOf(a, Level(a, d - 1))
  }

  /** The first `k` levels, one after the other. */
  ghost function FirstLevels(a: Arena, k: nat): seq<NodeId>
    requires WellFormed(a)
    ensures AllIn(a, FirstLevels(a, k))
  {
    if k == 0 then [] else FirstLevels(a, k - 1) + Level(a, k - 1)
  }

  ghost function AtDepth(a: Arena, ns: seq<NodeId>, d: nat): seq<NodeId> {
    if ns == [] then []
    else (if ns[0] < |a| && a[ns[0]].data.depth == d then [ns[0]] else []) + AtDepth(a, ns[1..], d)
  }

  lemma {:induction false} AtDepthConcat(a: Arena, xs: seq<NodeId>, ys: seq<NodeId>, d: nat)
    ensures AtDepth(a, xs + ys, d) == AtDepth(a, xs, d) + AtDepth(a, ys, d)
  {
    if xs == [] {
      assert xs + ys == ys;
    } else {
      assert (xs + ys)[1..] == xs[1..] + ys;
      AtDepthConcat(a, xs[1..], ys, d);
    }
  }

  lemma {:induction false} AtDepthMembers(a: Arena, ns: seq<NodeId>, d: nat)
    ensures forall m: NodeId :: m in AtDepth(a, ns, d) <==> m in ns && m < |a| && a[m].data.depth == d
    ensures Distinct(ns) ==> Distinct(AtDepth(a, ns, d))
  {
    if ns != [] {
      AtDepthMembers(a, ns[1..], d);
      assert ns == [ns[0]] + ns[1..];
      if Distinct(ns) {
        assert ns[0] !in ns[1..];
      }
    }
  }

  /** Below the depth of its roots, a forest lists the same nodes as the forest of the roots' children. */
  lemma {:induction false} AtDepthSkipsRoots(a: Arena, ns: seq<NodeId>, d: nat)
    requires WellFormed(a) && AllIn(a, ns)
    requires forall n: NodeId :: n in ns ==> a[n].data.depth != d
    ensures AtDepth(a, Forest(a, ns), d) == AtDepth(a, Forest(a, ChildrenOf(a, ns)), d)
    decreases |ns|
  {
    if ns != [] {
      var kids, rest := a[ns[0]].children, ns[1..];
      AtDepthSkipsRoots(a, rest, d);
      AtDepthSkipsRoot(a, ns[0], rest, d);
      ForestConcat(a, kids, ChildrenOf(a, rest));
      AtDepthConcat(a, Forest(a, kids), Forest(a, ChildrenOf(a, rest)), d);
    }
  }

  lemma AtDepthSkipsRoot(a: Arena, n: NodeId, rest: seq<NodeId>, d: nat)
    requires WellFormed(a) && n < |a| && AllIn(a, rest) && a[n].data.depth != d
    ensures AllIn(a, [n] + rest)
    ensures AtDepth(a, Forest(a, [n] + rest), d)
         == AtDepth(a, Forest(a, a[n].children), d) + AtDepth(a, Forest(a, rest), d)
  {
    hide Forest, WellFormed;
    ChildrenIn(a, n);
    ForestCons(a, n, rest);
    AtDepthConcat(a, Preorder(a, n), Forest(a, rest), d);
    AtDepthConcat(a, [n], Forest(a, a[n].children), d);
    assert AtDepth(a, [n], d) == [];
  }

  /** Keeping only the roots' own depth leaves just the roots. */
  lemma {:induction false} AtOwnDepth(a: Arena, ns: seq<NodeId>, d: nat)
    requires WellFormed(a) && AllIn(a, ns)
    requires forall n: NodeId :: n in ns ==> a[n].data.depth == d
    ensures AtDepth(a, Forest(a, ns), d) == ns
    decreases |ns|
  {
    if ns != [] {
      hide Distinct;
      var kids, rest := Forest(a, a[ns[0]].children), ns[1..];
      AtOwnDepth(a, rest, d);
      DescendantsAreDeeper(a, ns[0]);
      AtDepthConcat(a, [ns[0]] + kids, Forest(a, rest), d);
      assert ([ns[0]] + kids)[1..] == kids;
    }
  }

  lemma DescendantsAreDeeper(a: Arena, n: NodeId)
    requires WellFormed(a) && n < |a|
    ensures AtDepth(a, Forest(a, a[n].children), a[n].data.depth) == []
  {
    var below := Forest(a, a[n].children);
    AtDepthMembers(a, below, a[n].data.depth);
    if AtDepth(a, below, a[n].data.depth) != [] {
      var m := AtDepth(a, below, a[n].data.depth)[0];
      ForestIsSubtrees(a, a[n].children, m);
      var c: NodeId :| c in a[n].children && InSubtree(a, c, m);
      SubtreeBounds(a, c, m);
    }
  }

  lemma {:induction false} ChildrenDepth(a: Arena, ns: seq<NodeId>, d: nat)
    requires WellFormed(a) && AllIn(a, ns)
    requires forall n: NodeId :: n in ns ==> a[n].data.depth == d
    ensures forall c: NodeId :: c in ChildrenOf(a, ns) ==> a[c].data.depth == d + 1
  {
    if ns != [] {
      ChildrenDepth(a, ns[1..], d);
    }
  }

  lemma {:induction false} LevelDepth(a: Arena, d: nat)
    requires WellFormed(a)
    ensures forall n: NodeId :: n in Level(a, d) ==> a[n].data.depth == d
  {
    if d > 0 {
      LevelDepth(a, d - 1);
      ChildrenDepth(a, Level(a, d - 1), d - 1);
    }
  }

  /** Seen from any level `k` above, the nodes at depth `d` of the level's forest are level `d`. */
  lemma {:induction false} LevelBelow(a: Arena, k: nat, d: nat)
    requires WellFormed(a) && k <= d
    ensures AtDepth(a, Forest(a, Level(a, k)), d) == Level(a, d)
    decreases d - k
  {
    LevelDepth(a, k);
    if k == d {
      AtOwnDepth(a, Level(a, k), d);
    } else {
      AtDepthSkipsRoots(a, Level(a, k), d);
      LevelBelow(a, k + 1, d);
    }
  }

  /** A level is the preorder restricted to one depth: same nodes, same left-to-right order. */
  lemma LevelIsPreorderAtDepth(a: Arena, d: nat)
    requires WellFormed(a)
    ensures Level(a, d) == AtDepth(a, Preorder(a, ROOT), d)
  {
    LevelBelow(a, 0, d);
    assert [ROOT][1..] == [];
    assert Forest(a, [ROOT]) == Preorder(a, ROOT);
  }

  /** `ns` lists exactly the nodes at depth `d`, each once. */
  ghost predicate ListsDepth(a: Arena, ns: seq<NodeId>, d: nat) {
    Distinct(ns) && forall m: NodeId :: m in ns <==> m < |a| && a[m].data.depth == d
  }

  lemma LevelMembers(a: Arena, d: nat)
    requires WellFormed(a)
    ensures ListsDepth(a, Level(a, d), d)
  {
    LevelIsPreorderAtDepth(a, d);
    WholePreorder(a);
    AtDepthMembers(a, Preorder(a, ROOT), d);
  }

  /** `ns` lists exactly the nodes above depth `k`, each once. */
  ghost predicate ListsAbove(a: Arena, ns: seq<NodeId>, k: nat) {
    Distinct(ns) && forall m: NodeId :: m in ns <==> m < |a| && a[m].data.depth < k
  }

  lemma {:induction false} FirstLevelsMembers(a: Arena, k: nat)
    requires WellFormed(a)
    ensures ListsAbove(a, FirstLevels(a, k), k)
  {
    hide WellFormed, Level;
    if k > 0 {
      FirstLevelsMembers(a, k - 1);
      NextLevelMembers(a, k - 1);
    }
  }

  lemma NextLevelMembers(a: Arena, d: nat)
    requires WellFormed(a) && ListsAbove(a, FirstLevels(a, d), d)
    ensures ListsAbove(a, FirstLevels(a, d + 1), d + 1)
  {
    LevelMembers(a, d);
    DistinctConcat(FirstLevels(a, d), Level(a, d));
  }

  lemma {:induction false} EmptyLevelEnds(a: Arena, k: nat, m: NodeId)
    requires WellFormed(a) && Level(a, k) == [] && m < |a|
    ensures a[m].data.depth < k
    decreases m
  {
    LevelMembers(a, k);
    if m != ROOT && a[m].data.depth > k {
      EmptyLevelEnds(a, k, a[m].parent.value);
    }
    assert a[m].data.depth != k;
  }

  /** The levels down to the first empty one list every node exactly once. */
  lemma AllLevels(a: Arena, k: nat)
    requires WellFormed(a) && Level(a, k) == []
    ensures Distinct(FirstLevels(a, k))
    ensures forall m: NodeId :: m in FirstLevels(a, k) <==> m < |a|
    ensures |FirstLevels(a, k)| == |a|
  {
    FirstLevelsMembers(a, k);
    forall m: NodeId | m < |a| ensures m in FirstLevels(a, k) {
      EmptyLevelEnds(a, k, m);
    }
    DistinctCovers(FirstLevels(a, k), |a|);
  }

  /** A tree has fewer levels than nodes, so the levels run out. */
  lemma {:induction false} DepthBound(a: Arena, m: NodeId)
    requires WellFormed(a) && m < |a|
    ensures a[m].data.depth <= m
    decreases m
  {
    if m != ROOT {
      DepthBound(a, a[m].parent.value);
    }
  }

  // ----- Paths -----

  /** The chain of nodes from the root to `n`, both included. */
  ghost function PathTo(a: Arena, n: NodeId): (p: seq<NodeId>)
    requires WellFormed(a) && n < |a|
    decreases n
  {
    if n == ROOT then [ROOT] else PathTo(a, a[n].parent.value) + [n]
  }

  /** The path is the only parent chain from the root to `n`. */
  ghost predicate IsParentChain(a: Arena, p: seq<NodeId>, n: NodeId) {
    && |p| > 0 && p[0] == ROOT && p[|p| - 1] == n && AllIn(a, p)
    && forall i :: 0 < i < |p| ==> a[p[i]].parent == Some(p[i - 1])
  }

  lemma LastHasParent(a: Arena, p: seq<NodeId>, n: NodeId)
    requires IsParentChain(a, p, n) && |p| > 1
    ensures a[n].parent == Some(p[|p| - 2])
  {
    assert a[p[|p| - 1]].parent == Some(p[|p| - 2]);
  }

  lemma {:induction false} PathIsChain(a: Arena, n: NodeId)
    requires WellFormed(a) && n < |a|
    ensures IsParentChain(a, PathTo(a, n), n)
    ensures |PathTo(a, n)| == a[n].data.depth + 1
    decreases n
  {
    if n != ROOT {
      PathIsChain(a, a[n].parent.value);
    }
  }

  lemma {:induction false} ChainIsPath(a: Arena, n: NodeId, p: seq<NodeId>)
    requires WellFormed(a) && n < |a| && IsParentChain(a, p, n)
    ensures p == PathTo(a, n)
    decreases n
  {
    if |p| > 1 {
      LastHasParent(a, p, n);
      ChainIsPath(a, a[n].parent.value, p[..|p| - 1]);
      assert p == p[..|p| - 1] + [n];
    }
  }
}
