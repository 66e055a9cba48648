/** Dotted structure numbers ("2.1.3"): how `add_child` builds them, and that they decode to the node's position. */
module Numbering {
  import opened Prelude
  import opened Arena

  const DIGITS := "0123456789"

  // ----- Printing and parsing -----

  function Decimal(n: nat): (s: string)
    ensures s != "" && '.' !in s
  {
    if n < 10 then [DIGITS[n]] else Decimal(n / 10) + [DIGITS[n % 10]]
  }

  function DigitValue(c: char): nat {
    if '0' <= c <= '9' then (c - '0') as int else 0
  }

  function ParseDecimal(s: string): nat {
    if s == "" then 0 else ParseDecimal(s[..|s| - 1]) * 10 + DigitValue(s[|s| - 1])
  }

  lemma {:induction false} DecimalRoundTrip(n: nat)
    ensures ParseDecimal(Decimal(n)) == n
  {
    hide ParseDecimal, DigitValue;
    DigitRoundTrip(n % 10);
    if n < 10 {
      ParsePush("", DIGITS[n]);
      assert "" + [DIGITS[n]] == Decimal(n);
    } else {
      DecimalRoundTrip(n / 10);
      ParsePush(Decimal(n / 10), DIGITS[n % 10]);
    }
  }

  lemma DigitRoundTrip(d: nat)
    requires d < 10
    ensures DigitValue(DIGITS[d]) == d
  {
  }

  lemma ParsePush(s: string, c: char)
    ensures ParseDecimal(s + [c]) == ParseDecimal(s) * 10 + DigitValue(c)
    ensures ParseDecimal("") == 0
  {
    hide DigitValue;
    assert (s + [c])[..|s|] == s;
  }

  /** The number of child `i` of a node numbered `parent`. */
  function ExtendStructure(parent: string, i: nat): (s: string)
    ensures s != ""
  {
    if parent == "" then Decimal(i) else parent + "." + Decimal(i)
  }

  function Dotted(ps: seq<nat>): string {
    if ps == [] then "" else ExtendStructure(Dotted(ps[..|ps| - 1]), ps[|ps| - 1])
  }

  lemma DottedSample()
    ensures Dotted([]) == "" && Dotted([2]) == "2" && Dotted([2, 1, 13]) == "2.1.13"
  {
    DottedPush([], 2);
    DottedPush([2], 1);
    DottedPush([2, 1], 13);
    assert Decimal(1) == "1" && Decimal(13) == "1" + "3";
    assert Dotted([2, 1, 13]) == "2.1" + "." + "13";
  }

  lemma DottedPush(ps: seq<nat>, i: nat)
    ensures Dotted(ps + [i]) == ExtendStructure(Dotted(ps), i)
  {
    assert (ps + [i])[..|ps|] == ps;
  }

  function LastDot(s: string): (k: int)
    ensures -1 <= k < |s|
  {
    if s == "" then -1 else if s[|s| - 1] == '.' then |s| - 1 else LastDot(s[..|s| - 1])
  }

  function ParseDotted(s: string): seq<nat>
    decreases |s|
  {
    if s == "" then []
    else if LastDot(s) == -1 then [ParseDecimal(s)]
    else ParseDotted(s[..LastDot(s)]) + [ParseDecimal(s[LastDot(s) + 1..])]
  }

  lemma {:induction false} LastDotNone(s: string)
    requires '.' !in s
    ensures LastDot(s) == -1
  {
    if s != "" {
      LastDotNone(s[..|s| - 1]);
    }
  }

  lemma {:induction false} LastDotAt(x: string, y: string)
    requires '.' !in y
    ensures LastDot(x + "." + y) == |x|
    decreases |y|
  {
    var s := x + "." + y;
    if y != "" {
      assert s[..|s| - 1] == x + "." + y[..|y| - 1];
      LastDotAt(x, y[..|y| - 1]);
      assert s[|s| - 1] == y[|y| - 1];
    }
  }

  /** Parsing undoes printing. */
  lemma {:induction false} DottedRoundTrip(ps: seq<nat>)
    ensures ParseDotted(Dotted(ps)) == ps
  {
    if ps != [] {
      var front, last := ps[..|ps| - 1], ps[|ps| - 1];
      DottedRoundTrip(front);
      DecimalRoundTrip(last);
      if Dotted(front) == "" {
        LastDotNone(Decimal(last));
      } else {
        var s := Dotted(ps);
        LastDotAt(Dotted(front), Decimal(last));
        assert s[..|Dotted(front)|] == Dotted(front);
        assert s[|Dotted(front)| + 1..] == Decimal(last);
      }
      assert front + [last] == ps;
    }
  }

  // ----- Positions in the tree -----

  ghost function IndexIn(s: seq<NodeId>, x: NodeId): (i: nat)
    requires x in s
    ensures i < |s| && s[i] == x
  {
    if s[0] == x then 0 else 1 + IndexIn(s[1..], x)
  }

  lemma {:induction false} IndexInGrows(s: seq<NodeId>, x: NodeId, y: NodeId)
    requires x in s
    ensures IndexIn(s + [y], x) == IndexIn(s, x)
  {
    if s[0] != x {
      assert (s + [y])[1..] == s[1..] + [y];
      IndexInGrows(s[1..], x, y);
    }
  }

  lemma IndexInUnique(s: seq<NodeId>, i: nat)
    requires i < |s| && Distinct(s)
    ensures IndexIn(s, s[i]) == i
  {
  }

  /** The 1-based child positions to follow from the root to `n`. */
  ghost function Positions(a: Arena, n: NodeId): seq<nat>
    requires WellFormed(a) && n < |a|
    decreases n
  {
    if n == ROOT then []
    else
      var p := a[n].parent.value;
      Positions(a, p) + [IndexIn(a[p].children, n) + 1]
  }

  /** Follow child positions from the root. */
  ghost function NodeAt(a: Arena, ps: seq<nat>): (r: Option<NodeId>)
    requires WellFormed(a)
    ensures r.Some? ==> r.value < |a|
  {
    if ps == [] then Some(ROOT)
    else
      var last := ps[|ps| - 1];
      match NodeAt(a, ps[..|ps| - 1])
      case None => None
      case Some(p) => if 1 <= last <= |a[p].children| then Some(a[p].children[last - 1]) else None
  }

  lemma ChildPosition(a: Arena, p: NodeId, i: nat)
    requires WellFormed(a) && p < |a| && i < |a[p].children|
    ensures a[p].children[i] < |a|
    ensures Positions(a, a[p].children[i]) == Positions(a, p) + [i + 1]
  {
    assert Distinct(a[p].children);
    IndexInUnique(a[p].children, i);
    assert a[a[p].children[i]].parent == Some(p);
  }

  lemma NodeAtChild(a: Arena, ps: seq<nat>, p: NodeId, i: nat)
    requires WellFormed(a) && NodeAt(a, ps) == Some(p) && i < |a[p].children|
    ensures NodeAt(a, ps + [i + 1]) == Some(a[p].children[i])
  {
    hide ParentLinks, Depths, ChildLinks;
    assert (ps + [i + 1])[..|ps|] == ps;
  }

  /** Positions and nodes are in bijection. */
  lemma {:induction false} PositionsLeadBack(a: Arena, n: NodeId)
    requires WellFormed(a) && n < |a|
    ensures NodeAt(a, Positions(a, n)) == Some(n)
    decreases n
  {
    hide ChildLinks, Depths;
    if n != ROOT {
      var p := a[n].parent.value;
      PositionsLeadBack(a, p);
      NodeAtChild(a, Positions(a, p), p, IndexIn(a[p].children, n));
    }
  }

  lemma {:induction false} NodeAtHasPositions(a: Arena, ps: seq<nat>)
    requires WellFormed(a) && NodeAt(a, ps).Some?
    ensures Positions(a, NodeAt(a, ps).value) == ps
  {
    hide WellFormed;
    if ps != [] {
      var front, last := ps[..|ps| - 1], ps[|ps| - 1];
      NodeAtHasPositions(a, front);
      var p := NodeAt(a, front).value;
      ChildPosition(a, p, last - 1);
      assert front + [last] == ps;
    }
  }

  /** Every node carries the number of its position. */
  ghost predicate Numbered(a: Arena)
    requires WellFormed(a)
  {
    forall n {:trigger a[n].data} :: 0 <= n < |a| ==> a[n].data.structure == Dotted(Positions(a, n))
  }

  /** The trees that growth alone produces. */
  ghost predicate Grown(a: Arena) {
    WellFormed(a) && Numbered(a)
  }

  /** A structure string decodes to its node's position, and only that node carries it. */
  lemma StructureDecodes(a: Arena, n: NodeId)
    requires Grown(a) && n < |a|
    ensures ParseDotted(a[n].data.structure) == Positions(a, n)
    ensures NodeAt(a, ParseDotted(a[n].data.structure)) == Some(n)
    ensures a[n].data.structure == "" <==> n == ROOT
  {
    DottedRoundTrip(Positions(a, n));
    PositionsLeadBack(a, n);
  }

  lemma StructureUnique(a: Arena, n: NodeId, m: NodeId)
    requires Grown(a) && n < |a| && m < |a|
    requires a[n].data.structure == a[m].data.structure
    ensures n == m
  {
    StructureDecodes(a, n);
    StructureDecodes(a, m);
  }

  // ----- Growth -----

  /** The arena after a new last child is added below `p`. */
  ghost function Grow(a: Arena, p: NodeId, data: TreeNode): Arena
    requires p < |a|
  {
    a[p := a[p].(children := a[p].children + [|a|])] + [Slot(data, Some(p), [])]
  }

  lemma GrowParentLinks(a: Arena, p: NodeId, data: TreeNode)
    requires ParentLinks(a) && p < |a|
    ensures ParentLinks(Grow(a, p, data))
  {
    var b := Grow(a, p, data);
    forall n {:trigger b[n].parent} | 0 < n < |b|
      ensures b[n].parent.Some? && b[n].parent.value < n && n in b[b[n].parent.value].children
    {
      if n < |a| {
        assert a[n].parent == b[n].parent;
        assert n in a[a[n].parent.value].children;
      } else {
        assert b[p].children[|a[p].children|] == n;
      }
    }
  }

  lemma GrowChildLinks(a: Arena, p: NodeId, data: TreeNode)
    requires ChildLinks(a) && p < |a|
    ensures ChildLinks(Grow(a, p, data))
  {
    var b := Grow(a, p, data);
    forall n {:trigger b[n].children} | 0 <= n < |b| ensures Distinct(b[n].children) {
      if n < |a| {
        assert Distinct(a[n].children);
        assert forall i :: 0 <= i < |a[n].children| ==> a[n].children[i] < |a|;
      }
    }
    forall n, i {:trigger b[n].children[i]} | 0 <= n < |b| && 0 <= i < |b[n].children|
      ensures n < b[n].children[i] < |b| && b[b[n].children[i]].parent == Some(n)
    {
      if n < |a| && i < |a[n].children| {
        assert a[n].children[i] == b[n].children[i];
      }
    }
  }

  lemma GrowDepths(a: Arena, p: NodeId, data: TreeNode)
    requires ParentLinks(a) && Depths(a) && p < |a| && data.depth == a[p].data.depth + 1
    requires ParentLinks(Grow(a, p, data))
    ensures Depths(Grow(a, p, data))
  {
    var b := Grow(a, p, data);
    forall n {:trigger b[n].parent, b[n].data} | 0 < n < |b|
      ensures b[n].data.depth == b[b[n].parent.value].data.depth + 1
    {
      if n < |a| {
        assert a[n].parent == b[n].parent && a[n].data == b[n].data;
      }
    }
  }

  lemma GrowWellFormed(a: Arena, p: NodeId, data: TreeNode)
    requires WellFormed(a) && p < |a| && data.depth == a[p].data.depth + 1
    ensures WellFormed(Grow(a, p, data))
  {
    GrowParentLinks(a, p, data);
    GrowChildLinks(a, p, data);
    GrowDepths(a, p, data);
  }

  lemma {:induction false} GrowKeepsPositions(a: Arena, p: NodeId, data: TreeNode, n: NodeId)
    requires WellFormed(a) && p < |a| && n < |a|
    requires WellFormed(Grow(a, p, data))
    ensures Positions(Grow(a, p, data), n) == Positions(a, n)
    decreases n
  {
    hide ChildLinks, Depths;
    if n != ROOT {
      var up := a[n].parent.value;
      assert Grow(a, p, data)[n].parent == a[n].parent;
      GrowKeepsPositions(a, p, data, up);
      if up == p {
        IndexInGrows(a[p].children, n, |a|);
      }
    }
  }

  lemma NumberOf(a: Arena, n: NodeId)
    requires Grown(a) && n < |a|
    ensures a[n].data.structure == Dotted(Positions(a, n))
  {
  }

  lemma NewChildNumbered(a: Arena, p: NodeId, data: TreeNode)
    requires Grown(a) && p < |a| && WellFormed(Grow(a, p, data))
    ensures Dotted(Positions(Grow(a, p, data), |a|))
         == ExtendStructure(a[p].data.structure, |a[p].children| + 1)
  {
    hide WellFormed, Numbered;
    var b := Grow(a, p, data);
    NumberOf(a, p);
    GrowKeepsPositions(a, p, data, p);
    ChildPosition(b, p, |a[p].children|);
    var ps, qs := Positions(a, p), Positions(b, |a|);
    assert qs == ps + [|a[p].children| + 1];
    assert qs[..|qs| - 1] == ps;
  }

  lemma GrowNumberedAt(a: Arena, p: NodeId, data: TreeNode, n: NodeId)
    requires Grown(a) && p < |a| && n <= |a| && WellFormed(Grow(a, p, data))
    requires data.structure == ExtendStructure(a[p].data.structure, |a[p].children| + 1)
    ensures Grow(a, p, data)[n].data.structure == Dotted(Positions(Grow(a, p, data), n))
  {
    hide WellFormed, Positions, Dotted;
    if n < |a| {
      GrowKeepsPositions(a, p, data, n);
      assert Grow(a, p, data)[n].data == a[n].data;
    } else {
      NewChildNumbered(a, p, data);
    }
  }

  /** A child numbered after its siblings keeps the whole tree numbered. */
  lemma GrowNumbered(a: Arena, p: NodeId, data: TreeNode)
    requires Grown(a) && p < |a| && data.depth == a[p].data.depth + 1
    requires data.structure == ExtendStructure(a[p].data.structure, |a[p].children| + 1)
    ensures Grown(Grow(a, p, data))
  {
    hide WellFormed, Positions, Dotted;
    GrowWellFormed(a, p, data);
    forall n | 0 <= n <= |a| {
      GrowNumberedAt(a, p, data, n);
    }
  }

  /** Two arenas of the same shape, depths included; texts, pages and structure strings may differ. */
  ghost predicate SameShape(a: Arena, b: Arena) {
    && |a| == |b|
    && forall n {:trigger a[n]} {:trigger b[n]} :: 0 <= n < |a| ==>
         a[n].parent == b[n].parent && a[n].children == b[n].children && a[n].data.depth == b[n].data.depth
  }

  lemma SameShapeWellFormed(a: Arena, b: Arena)
    requires WellFormed(a) && SameShape(a, b)
    ensures WellFormed(b)
  {
  }

  lemma {:induction false} SameShapePositions(a: Arena, b: Arena, n: NodeId)
    requires WellFormed(a) && WellFormed(b) && SameShape(a, b) && n < |a|
    ensures Positions(a, n) == Positions(b, n)
    decreases n
  {
    if n != ROOT {
      SameShapePositions(a, b, a[n].parent.value);
    }
  }
}
