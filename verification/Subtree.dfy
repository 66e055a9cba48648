/** Walks below a node: collecting a subtree, and the depth-bounded search for a matching descendant. */
module Subtree {
  import opened Prelude
  import opened Arena
  import opened Numbering
  import Trees = DocumentTree
  import Sorting

  // ----- collect_subtree -----

  /** Popping a node moves its children from the stack's forest to the output and onto the stack. */
  lemma CollectStep(a: Arena, node: NodeId, result: seq<NodeId>, rest: seq<NodeId>, current: NodeId)
    requires WellFormed(a) && node < |a| && AllIn(a, rest) && current < |a|
    requires AllIn(a, rest + [current])
    requires multiset(result) + multiset(Forest(a, rest + [current]))
          == multiset(Preorder(a, node)) + multiset(rest + [current])
    ensures AllIn(a, rest + a[current].children)
    ensures multiset(result + a[current].children) + multiset(Forest(a, rest + a[current].children))
         == multiset(Preorder(a, node)) + multiset(rest + a[current].children)
    ensures |Forest(a, rest + a[current].children)| < |Forest(a, rest + [current])|
  {
    hide WellFormed, Forest, Preorder;
    ChildrenIn(a, current);
    Trees.PushStep(a, rest, current);
    var kids := a[current].children;
    var below := Forest(a, kids);
    Balance(multiset(result), multiset(Forest(a, rest)), multiset(below), multiset(kids),
            multiset(Preorder(a, node)), multiset(rest), current);
  }

  lemma Balance(out: multiset<NodeId>, others: multiset<NodeId>, below: multiset<NodeId>, kids: multiset<NodeId>,
                all: multiset<NodeId>, stack: multiset<NodeId>, c: NodeId)
    requires out + (others + multiset{c} + below) == all + (stack + multiset{c})
    ensures (out + kids) + (others + below) == all + (stack + kids)
  {
    assert (out + others + below) + multiset{c} == out + (others + multiset{c} + below);
    assert (all + stack) + multiset{c} == all + (stack + multiset{c});
    assert out + others + below == ((out + others + below) + multiset{c}) - multiset{c};
    assert all + stack == ((all + stack) + multiset{c}) - multiset{c};
    assert (out + kids) + (others + below) == (out + others + below) + kids;
  }

  /** Every node of the subtree is collected, once. */
  method CollectSubtree(tree: Trees.DocumentTree, node: NodeId) returns (result: seq<NodeId>)
    requires tree.Valid() && node < |tree.arena|
    ensures multiset(result) == multiset(Preorder(tree.arena, node))
    ensures Distinct(result)
    ensures forall m: NodeId :: m in result <==> m < |tree.arena| && InSubtree(tree.arena, node, m)
  {
    hide WellFormed, Forest, Preorder, Trees.ListsLeaves, Distinct;
    var a := tree.arena;
    result := [node];
    var stack := [node];
    ForestOne(a, node);
    while stack != []
      invariant AllIn(a, stack)
      invariant multiset(result) + multiset(Forest(a, stack)) == multiset(Preorder(a, node)) + multiset(stack)
      decreases |Forest(a, stack)|
    {
      var current := stack[|stack| - 1];
      assert stack == stack[..|stack| - 1] + [current];
      stack := stack[..|stack| - 1];
      CollectStep(a, node, result, stack, current);
      result := result + a[current].children;
      stack := stack + a[current].children;
    }
    Trees.EmptyForest(a);
    ghost var all := multiset(Preorder(a, node));
    assert stack == [] && multiset(result) + multiset{} == all + multiset{};
    assert multiset(result) == multiset(result) + multiset{};
    assert all == all + multiset{};
    assert multiset(result) == multiset(Preorder(a, node));
    CollectedExactly(a, node, result);
  }

  lemma CollectedExactly(a: Arena, node: NodeId, result: seq<NodeId>)
    requires WellFormed(a) && node < |a| && multiset(result) == multiset(Preorder(a, node))
    ensures Distinct(result)
    ensures forall m: NodeId :: m in result <==> m < |a| && InSubtree(a, node, m)
  {
    hide WellFormed, Forest, Preorder, Distinct;
    PreorderDistinct(a, node);
    Sorting.PermutationMembers(Preorder(a, node), result);
    forall m: NodeId ensures m in result <==> m < |a| && InSubtree(a, node, m) {
      PreorderIsSubtree(a, node, m);
    }
  }

  // ----- search_descendants -----

  /** `m` is a proper descendant of `start`, at most `bound` levels below it. */
  ghost predicate DescendantWithin(a: Arena, start: NodeId, m: NodeId, bound: nat)
    requires WellFormed(a) && start < |a|
  {
    m < |a| && m != start && InSubtree(a, start, m) && a[m].data.depth <= a[start].data.depth + bound
  }

  function Ids(queue: seq<(NodeId, nat)>): (r: seq<NodeId>)
    ensures |r| == |queue| && forall i :: 0 <= i < |queue| ==> r[i] == queue[i].0
  {
    seq(|queue|, i requires 0 <= i < |queue| => queue[i].0)
  }

  /** The queue with the children pushed, in order, one level further down. */
  function Pushed(queue: seq<(NodeId, nat)>, children: seq<NodeId>, depth: nat): (r: seq<(NodeId, nat)>)
    ensures Ids(r) == Ids(queue) + children
    ensures |r| == |queue| + |children|
    ensures forall k :: 0 <= k < |queue| ==> r[k] == queue[k]
    ensures forall k :: 0 <= k < |children| ==> r[|queue| + k] == (children[k], depth)
  {
    queue + seq(|children|, i requires 0 <= i < |children| => (children[i], depth))
  }

  function FirstMatch(a: Arena, matches: TreeNode -> bool, ns: seq<NodeId>): (r: Option<NodeId>)
    requires AllIn(a, ns)
    ensures r.Some? ==> r.value in ns && r.value < |a| && matches(a[r.value].data)
    ensures r.None? ==> forall i :: 0 <= i < |ns| ==> !matches(a[ns[i]].data)
  {
    if ns == [] then None
    else if matches(a[ns[0]].data) then Some(ns[0])
    else FirstMatch(a, matches, ns[1..])
  }

  /** What the search returns from a work list: it is popped from its end. */
  ghost function Search(a: Arena, matches: TreeNode -> bool, queue: seq<(NodeId, nat)>, bound: nat): Option<NodeId>
    requires WellFormed(a) && AllIn(a, Ids(queue))
    decreases |Forest(a, Ids(queue))|
  {
    if queue == [] then None
    else
      var (rest, (x, depth)) := (queue[..|queue| - 1], queue[|queue| - 1]);
      PopShrinks(a, queue);
      if depth >= bound then Search(a, matches, rest, bound)
      else
        match FirstMatch(a, matches, a[x].children)
        case Some(c) => Some(c)
        case None => Search(a, matches, Pushed(rest, a[x].children, depth + 1), bound)
  }

  /** Popping, and pushing the children or not, leaves less to visit. */
  lemma PopShrinks(a: Arena, queue: seq<(NodeId, nat)>)
    requires WellFormed(a) && AllIn(a, Ids(queue)) && queue != []
    ensures var (rest, (x, depth)) := (queue[..|queue| - 1], queue[|queue| - 1]);
      && x < |a| && AllIn(a, Ids(rest)) && AllIn(a, a[x].children) && AllIn(a, Ids(rest) + a[x].children)
      && |Forest(a, Ids(rest))| < |Forest(a, Ids(queue))|
      && |Forest(a, Ids(rest) + a[x].children)| < |Forest(a, Ids(queue))|
  {
    hide WellFormed, Forest, Preorder;
    var (rest, x) := (queue[..|queue| - 1], queue[|queue| - 1].0);
    assert Ids(queue) == Ids(rest) + [x];
    assert Ids(queue)[|queue| - 1] == x;
    forall i | 0 <= i < |rest| ensures Ids(rest)[i] < |a| {
      assert Ids(queue)[i] == Ids(rest)[i];
    }
    ChildrenIn(a, x);
    Trees.PushStep(a, Ids(rest), x);
  }

  /** Every queued pair is a descendant of `start` with its distance. */
  ghost predicate Queued(a: Arena, start: NodeId, queue: seq<(NodeId, nat)>)
    requires WellFormed(a) && start < |a|
  {
    && AllIn(a, Ids(queue))
    && forall k :: 0 <= k < |queue| ==>
         queue[k].0 < |a| && InSubtree(a, start, queue[k].0)
               && a[queue[k].0].data.depth == a[start].data.depth + queue[k].1
  }

  /** Each matching descendant within the bound still lies strictly below some node of `ids`. */
  ghost predicate Pending(a: Arena, start: NodeId, matches: TreeNode -> bool, bound: nat, ids: seq<NodeId>)
    requires WellFormed(a) && start < |a|
  {
    forall m: NodeId :: DescendantWithin(a, start, m, bound) && matches(a[m].data) ==>
      exists x: NodeId :: x in ids && x < |a| && x != m && InSubtree(a, x, m)
  }

  /** A node at the bound has nothing within the bound below it. */
  lemma SkipAtBound(a: Arena, start: NodeId, matches: TreeNode -> bool, bound: nat, rest: seq<NodeId>, x: NodeId)
    requires WellFormed(a) && start < |a| && x < |a|
    requires a[x].data.depth >= a[start].data.depth + bound
    requires Pending(a, start, matches, bound, rest + [x])
    ensures Pending(a, start, matches, bound, rest)
  {
    hide ParentLinks, Depths, ChildLinks;
    forall m: NodeId | DescendantWithin(a, start, m, bound) && matches(a[m].data)
      ensures exists y: NodeId :: y in rest && y < |a| && y != m && InSubtree(a, y, m)
    {
      var y: NodeId :| y in rest + [x] && y < |a| && y != m && InSubtree(a, y, m);
      if y == x {
        SubtreeBounds(a, x, m);
      }
    }
  }

  /** Expanding a node none of whose children match keeps every matching descendant pending. */
  lemma Expand(a: Arena, start: NodeId, matches: TreeNode -> bool, bound: nat, rest: seq<NodeId>, x: NodeId)
    requires WellFormed(a) && start < |a| && x < |a|
    requires forall i :: 0 <= i < |a[x].children| ==> a[x].children[i] < |a| && !matches(a[a[x].children[i]].data)
    requires Pending(a, start, matches, bound, rest + [x])
    ensures Pending(a, start, matches, bound, rest + a[x].children)
  {
    hide ParentLinks, Depths, ChildLinks;
    forall m: NodeId | DescendantWithin(a, start, m, bound) && matches(a[m].data)
      ensures exists y: NodeId :: y in rest + a[x].children && y < |a| && y != m && InSubtree(a, y, m)
    {
      var y: NodeId :| y in rest + [x] && y < |a| && y != m && InSubtree(a, y, m);
      if y == x {
        var c := ChildTowards(a, x, m);
        assert c in rest + a[x].children;
      } else {
        assert y in rest + a[x].children;
      }
    }
  }

  lemma ChildOfDescendant(a: Arena, start: NodeId, x: NodeId, i: nat)
    requires WellFormed(a) && start < |a| && x < |a| && InSubtree(a, start, x) && i < |a[x].children|
    ensures a[x].children[i] < |a|
    ensures InSubtree(a, start, a[x].children[i]) && a[x].children[i] != start
    ensures a[a[x].children[i]].data.depth == a[x].data.depth + 1
  {
    var c := a[x].children[i];
    assert a[c].parent == Some(x);
    SubtreeBounds(a, start, x);
  }

  lemma QueuedParts(a: Arena, start: NodeId, rest: seq<(NodeId, nat)>, x: NodeId, depth: nat)
    requires WellFormed(a) && start < |a| && Queued(a, start, rest + [(x, depth)])
    ensures x < |a| && InSubtree(a, start, x) && a[x].data.depth == a[start].data.depth + depth
    ensures Queued(a, start, rest)
  {
    hide WellFormed, InSubtree;
    var queue := rest + [(x, depth)];
    assert queue[|rest|] == (x, depth);
    forall k | 0 <= k < |rest| ensures rest[k] == queue[k] && Ids(rest)[k] == Ids(queue)[k] {
    }
  }

  lemma ChildrenQueued(a: Arena, start: NodeId, rest: seq<(NodeId, nat)>, x: NodeId, depth: nat)
    requires WellFormed(a) && start < |a| && Queued(a, start, rest) && x < |a| && InSubtree(a, start, x)
    requires a[x].data.depth == a[start].data.depth + depth
    ensures Queued(a, start, Pushed(rest, a[x].children, depth + 1))
  {
    hide WellFormed, InSubtree;
    ChildrenIn(a, x);
    Trees.BothIn(a, Ids(rest), a[x].children);
    forall k | 0 <= k < |a[x].children|
      ensures a[x].children[k] < |a| && InSubtree(a, start, a[x].children[k])
      ensures a[a[x].children[k]].data.depth == a[start].data.depth + depth + 1
    {
      ChildOfDescendant(a, start, x, k);
    }
    var more := Pushed(rest, a[x].children, depth + 1);
    forall k | 0 <= k < |more|
      ensures more[k].0 < |a| && InSubtree(a, start, more[k].0)
                && a[more[k].0].data.depth == a[start].data.depth + more[k].1
    {
      if k >= |rest| {
        assert more[|rest| + (k - |rest|)] == (a[x].children[k - |rest|], depth + 1);
      }
    }
  }

  /** One round of the search. */
  lemma SearchStep(a: Arena, matches: TreeNode -> bool, queue: seq<(NodeId, nat)>, bound: nat)
    requires WellFormed(a) && AllIn(a, Ids(queue)) && queue != []
    ensures var (rest, (x, depth)) := (queue[..|queue| - 1], queue[|queue| - 1]);
      && x < |a| && AllIn(a, Ids(rest)) && AllIn(a, a[x].children) && AllIn(a, Ids(rest) + a[x].children)
      && Search(a, matches, queue, bound) ==
         if depth >= bound then Search(a, matches, rest, bound)
         else if FirstMatch(a, matches, a[x].children).Some? then FirstMatch(a, matches, a[x].children)
         else Search(a, matches, Pushed(rest, a[x].children, depth + 1), bound)
  {
    hide WellFormed, Forest, Preorder, FirstMatch;
    PopShrinks(a, queue);
  }

  lemma SearchEnd(a: Arena, matches: TreeNode -> bool, bound: nat)
    requires WellFormed(a)
    ensures AllIn(a, Ids([])) && Ids([]) == [] && Search(a, matches, [], bound) == None
  {
  }

  /** Sound and complete up to the bound, from any work list that still leads to every match. */
  lemma {:induction false} SearchFinds(a: Arena, start: NodeId, matches: TreeNode -> bool, bound: nat,
                                       queue: seq<(NodeId, nat)>)
    requires WellFormed(a) && start < |a| && Queued(a, start, queue) && Pending(a, start, matches, bound, Ids(queue))
    ensures var r := Search(a, matches, queue, bound);
      && (r.Some? ==> DescendantWithin(a, start, r.value, bound) && matches(a[r.value].data))
      && (r.None? ==> forall m: NodeId :: DescendantWithin(a, start, m, bound) ==> !matches(a[m].data))
    decreases |Forest(a, Ids(queue))|
  {
    hide WellFormed, Forest, Preorder, InSubtree, Pending, Search, Queued, AllIn, FirstMatch;
    QueuedIn(a, start, queue);
    if queue == [] {
      SearchEnd(a, matches, bound);
      EndSearch(a, start, matches, bound);
    } else {
      var (rest, (x, depth)) := (queue[..|queue| - 1], queue[|queue| - 1]);
      PopShrinks(a, queue);
      SearchStep(a, matches, queue, bound);
      assert queue == rest + [(x, depth)] && Ids(queue) == Ids(rest) + [x];
      QueuedParts(a, start, rest, x, depth);
      ChildrenQueued(a, start, rest, x, depth);
      if depth >= bound {
        SkipAtBound(a, start, matches, bound, Ids(rest), x);
        SearchFinds(a, start, matches, bound, rest);
      } else {
        var found := FirstMatch(a, matches, a[x].children);
        FirstMatchIs(a, matches, a[x].children);
        if found.Some? {
          var i :| 0 <= i < |a[x].children| && a[x].children[i] == found.value;
          ChildOfDescendant(a, start, x, i);
        } else {
          ChildrenBounded(a, x);
          Expand(a, start, matches, bound, Ids(rest), x);
          SearchFinds(a, start, matches, bound, Pushed(rest, a[x].children, depth + 1));
        }
      }
    }
  }

  lemma QueuedIn(a: Arena, start: NodeId, queue: seq<(NodeId, nat)>)
    requires WellFormed(a) && start < |a| && Queued(a, start, queue)
    ensures AllIn(a, Ids(queue))
  {
  }

  lemma FirstMatchIs(a: Arena, matches: TreeNode -> bool, ns: seq<NodeId>)
    requires AllIn(a, ns)
    ensures var r := FirstMatch(a, matches, ns);
      && (r.Some? ==> r.value in ns && r.value < |a| && matches(a[r.value].data))
      && (r.None? ==> forall i :: 0 <= i < |ns| ==> !matches(a[ns[i]].data))
  {
  }

  lemma ChildrenBounded(a: Arena, x: NodeId)
    requires WellFormed(a) && x < |a|
    ensures forall i :: 0 <= i < |a[x].children| ==> a[x].children[i] < |a|
  {
  }

  /** The inner loop: look at the children in order and push them, until one matches. */
  method PushChildren(a: Arena, matches: TreeNode -> bool, queue0: seq<(NodeId, nat)>, children: seq<NodeId>,
          depth: nat)
    returns (found: Option<NodeId>, queue: seq<(NodeId, nat)>)
    requires AllIn(a, children)
    ensures found == FirstMatch(a, matches, children)
    ensures found.None? ==> queue == Pushed(queue0, children, depth)
  {
    hide FirstMatch, Pushed, Ids;
    queue := queue0;
    PushedNone(queue0, children, depth);
    for i := 0 to |children|
      invariant queue == Pushed(queue0, children[..i], depth)
      invariant forall j :: 0 <= j < i ==> !matches(a[children[j]].data)
    {
      if matches(a[children[i]].data) {
        FirstMatchAt(a, matches, children, i);
        return Some(children[i]), queue;
      }
      PushedOne(queue0, children, i, depth);
      queue := queue + [(children[i], depth)];
    }
    FirstMatchAt(a, matches, children, |children|);
    assert children[..|children|] == children;
    return None, queue;
  }

  lemma {:induction false} FirstMatchAt(a: Arena, matches: TreeNode -> bool, ns: seq<NodeId>, i: nat)
    requires AllIn(a, ns) && i <= |ns| && forall j :: 0 <= j < i ==> !matches(a[ns[j]].data)
    requires i < |ns| ==> matches(a[ns[i]].data)
    ensures FirstMatch(a, matches, ns) == if i < |ns| then Some(ns[i]) else None
  {
    if i > 0 {
      FirstMatchAt(a, matches, ns[1..], i - 1);
    }
  }

  lemma PushedNone(queue: seq<(NodeId, nat)>, children: seq<NodeId>, depth: nat)
    ensures Pushed(queue, children[..0], depth) == queue
  {
    hide Ids;
  }

  lemma PushedOne(queue: seq<(NodeId, nat)>, children: seq<NodeId>, i: nat, depth: nat)
    requires i < |children|
    ensures Pushed(queue, children[..i + 1], depth) == Pushed(queue, children[..i], depth) + [(children[i], depth)]
  {
    hide Ids;
  }

  /** Sound and complete up to the bound; `ShallowestIff` says when the match returned is a shallowest one. */
  method SearchDescendants(tree: Trees.DocumentTree, matches: TreeNode -> bool, start: NodeId, maxDepth: nat)
    returns (r: Option<NodeId>)
    requires tree.Valid() && start < |tree.arena|
    ensures AllIn(tree.arena, Ids([(start, 0)])) && r == Search(tree.arena, matches, [(start, 0)], maxDepth)
    ensures r.Some? ==>
              DescendantWithin(tree.arena, start, r.value, maxDepth) && matches(tree.arena[r.value].data)
    ensures r.None? <==>
              forall m: NodeId :: DescendantWithin(tree.arena, start, m, maxDepth) ==> !matches(tree.arena[m].data)
  {
    hide WellFormed, Forest, Preorder, Trees.ListsLeaves, InSubtree, Pending, FirstMatch, Search, Queued, AllIn;
    var a := tree.arena;
    var queue: seq<(NodeId, nat)> := [(start, 0)];
    StartSearch(a, start, matches, maxDepth);
    QueuedIn(a, start, queue);
    SearchFinds(a, start, matches, maxDepth, queue);
    while queue != []
      invariant AllIn(a, Ids(queue)) && Search(a, matches, queue, maxDepth)
                == Search(a, matches, [(start, 0)], maxDepth)
      decreases |Forest(a, Ids(queue))|
    {
      var (x, depth) := queue[|queue| - 1];
      PopShrinks(a, queue);
      SearchStep(a, matches, queue, maxDepth);
      queue := queue[..|queue| - 1];
      if depth >= maxDepth {
        continue;
      }
      var found;
      found, queue := PushChildren(a, matches, queue, a[x].children, depth + 1);
      if found.Some? {
        return found;
      }
    }
    SearchEnd(a, matches, maxDepth);
    return None;
  }

  lemma StartSearch(a: Arena, start: NodeId, matches: TreeNode -> bool, bound: nat)
    requires WellFormed(a) && start < |a|
    ensures Ids([(start, 0)]) == [start]
    ensures Queued(a, start, [(start, 0)])
    ensures Pending(a, start, matches, bound, [start])
  {
    assert InSubtree(a, start, start);
    forall m: NodeId | DescendantWithin(a, start, m, bound)
      ensures exists x: NodeId :: x in [start] && x < |a| && x != m && InSubtree(a, x, m)
    {
      assert start in [start];
    }
  }

  lemma EndSearch(a: Arena, start: NodeId, matches: TreeNode -> bool, bound: nat)
    requires WellFormed(a) && start < |a| && Pending(a, start, matches, bound, [])
    ensures forall m: NodeId :: DescendantWithin(a, start, m, bound) ==> !matches(a[m].data)
  {
  }

  // ----- Shallowest match -----

  /** No match within the bound lies higher up than the result. */
  ghost predicate IsShallowest(a: Arena, start: NodeId, matches: TreeNode -> bool, bound: nat, r: Option<NodeId>)
    requires WellFormed(a) && start < |a|
  {
    r.Some? ==>
      r.value < |a|
      && forall m: NodeId :: DescendantWithin(a, start, m, bound) && matches(a[m].data) ==>
           a[r.value].data.depth <= a[m].data.depth
  }

  /** Two levels down the children are all looked at before any grandchild, so the result is a shallowest match. */
  lemma ShallowUpToTwo(a: Arena, start: NodeId, matches: TreeNode -> bool, bound: nat)
    requires WellFormed(a) && start < |a| && bound <= 2
    ensures AllIn(a, Ids([(start, 0)]))
    ensures IsShallowest(a, start, matches, bound, Search(a, matches, [(start, 0)], bound))
  {
    hide WellFormed, Forest, Preorder, Pending, InSubtree;
    var queue: seq<(NodeId, nat)> := [(start, 0)];
    StartSearch(a, start, matches, bound);
    SearchFinds(a, start, matches, bound, queue);
    PopShrinks(a, queue);
    var r := Search(a, matches, queue, bound);
    if r.Some? {
      forall m: NodeId | DescendantWithin(a, start, m, bound) && matches(a[m].data)
        ensures a[r.value].data.depth <= a[m].data.depth
      {
        ProperIsDeeper(a, start, m);
        if a[m].data.depth == a[start].data.depth + 1 {
          ChildMatchFirst(a, start, matches, bound, m);
        }
      }
    }
  }

  lemma ProperIsDeeper(a: Arena, start: NodeId, m: NodeId)
    requires WellFormed(a) && start < |a| && m < |a| && m != start && InSubtree(a, start, m)
    ensures a[m].data.depth > a[start].data.depth
  {
    SubtreeBounds(a, start, m);
  }

  /** A matching child makes the first round of the search return a child. */
  lemma ChildMatchFirst(a: Arena, start: NodeId, matches: TreeNode -> bool, bound: nat, m: NodeId)
    requires WellFormed(a) && start < |a| && bound >= 1 && m < |a| && m != start && InSubtree(a, start, m)
    requires a[m].data.depth == a[start].data.depth + 1 && matches(a[m].data)
    ensures AllIn(a, Ids([(start, 0)])) && Search(a, matches, [(start, 0)], bound).Some?
    ensures Search(a, matches, [(start, 0)], bound).value < |a|
    ensures a[Search(a, matches, [(start, 0)], bound).value].data.depth == a[start].data.depth + 1
  {
    hide ParentLinks, Depths, ChildLinks, Forest, Preorder;
    var queue: seq<(NodeId, nat)> := [(start, 0)];
    StartSearch(a, start, matches, bound);
    PopShrinks(a, queue);
    var c := ChildTowards(a, start, m);
    ChildrenIn(a, start);
    Trees.ChildrenDepths(a, start);
    SubtreeBounds(a, c, m);
    assert m in a[start].children;
  }

  /**
   * A matching leaf below the first child, a longer way to another one below the second: the second subtree is
   * searched to its end first.
   */
  ghost function Lopsided(): Arena {
    Trees.WithChild(Trees.WithChild(Trees.WithChild(Trees.WithChild(Trees.WithChild(
      Trees.Planted("r", ""), 0, "c"), 0, "c"), 1, "x"), 2, "d"), 4, "x")
  }

  lemma LopsidedIs()
    ensures var a := Lopsided();
      && Grown(a) && WellFormed(a) && |a| == 6
      && a[0].children == [1, 2] && a[1].children == [3] && a[2].children == [4] && a[4].children == [5]
      && a[1].data.title == "c" && a[2].data.title == "c" && a[4].data.title == "d"
      && a[3].data.title == "x" && a[5].data.title == "x"
      && a[0].data.depth == 0 && a[3].data.depth == 2 && a[5].data.depth == 3
  {
    hide Grown, Trees.WithChild;
    var a0 := Trees.Planted("r", "");
    var a1 := Trees.WithChild(a0, 0, "c");
    var a2 := Trees.WithChild(a1, 0, "c");
    var a3 := Trees.WithChild(a2, 1, "x");
    var a4 := Trees.WithChild(a3, 2, "d");
    Trees.PlantedIsGrown("r", "");
    Trees.WithChildGrown(a0, 0, "c");
    Trees.WithChildGrown(a1, 0, "c");
    Trees.WithChildGrown(a2, 1, "x");
    Trees.WithChildGrown(a3, 2, "d");
    Trees.WithChildGrown(a4, 4, "x");
    Trees.GrownIsWellFormed(Lopsided());
  }

  function TitledX(node: TreeNode): bool {
    node.title == "x"
  }

  /** From three levels on, the deeper of the two matches is returned. */
  lemma DeeperMatchReturned(bound: nat)
    requires bound >= 3
    ensures WellFormed(Lopsided()) && AllIn(Lopsided(), Ids([(0, 0)]))
    ensures Search(Lopsided(), TitledX, [(0, 0)], bound) == Some(5)
    ensures !IsShallowest(Lopsided(), 0, TitledX, bound, Some(5))
  {
    hide WellFormed, Lopsided, Forest, Preorder, InSubtree, Grown, Search;
    LopsidedIs();
    var a := Lopsided();
    var q0: seq<(NodeId, nat)> := [(0, 0)];
    var q1: seq<(NodeId, nat)> := [(1, 1), (2, 1)];
    var q2: seq<(NodeId, nat)> := [(1, 1), (4, 2)];
    assert Pushed(q0[..0], a[0].children, 1) == q1;
    assert Pushed(q1[..1], a[2].children, 2) == q2;
    SearchStep(a, TitledX, q0, bound);
    SearchStep(a, TitledX, q1, bound);
    SearchStep(a, TitledX, q2, bound);
    LopsidedMatch(bound);
  }

  lemma LopsidedMatch(bound: nat)
    requires bound >= 2
    ensures WellFormed(Lopsided()) && |Lopsided()| == 6 && DescendantWithin(Lopsided(), 0, 3, bound)
  {
    hide Lopsided;
    LopsidedIs();
    RootHasAll(Lopsided(), 3);
  }

  /**
   * The result is a shallowest match, for every tree, predicate and start, exactly if the bound is at most two. The
   * one caller passes four.
   */
  lemma ShallowestIff(bound: nat)
    ensures (forall a: Arena, matches: TreeNode -> bool, start: NodeId ::
               WellFormed(a) && start < |a| && AllIn(a, Ids([(start, 0)])) ==>
                 IsShallowest(a, start, matches, bound, Search(a, matches, [(start, 0)], bound)))
            <==> bound <= 2
  {
    hide WellFormed, Search, IsShallowest, Lopsided;
    if bound <= 2 {
      forall a: Arena, matches: TreeNode -> bool, start: NodeId |
        WellFormed(a) && start < |a| && AllIn(a, Ids([(start, 0)]))
        ensures IsShallowest(a, start, matches, bound, Search(a, matches, [(start, 0)], bound))
      {
        ShallowUpToTwo(a, start, matches, bound);
      }
    } else {
      DeeperMatchReturned(bound);
      LopsidedMatch(bound);
    }
  }
}
