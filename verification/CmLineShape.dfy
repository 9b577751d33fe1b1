/** The tree that holds a document's lines, as linked objects: leaves of lines, branches
    with children, parent links, and every node caching the number and the total height
    of the lines below it (codemirror.js). */
module CmLineShape {
  import opened Wrappers

  class Line {
    var text: string
    var height: real
    var parent: Chunk?

    constructor (text: string, height: real)
      ensures this.text == text && this.height == height && parent == null
    {
      this.text, this.height, parent := text, height, null;
    }
  }

  // A leaf holds lines; a branch holds children and caches the number of lines below it.
  class Chunk {
    var isLeaf: bool
    var lines: seq<Line>
    var children: seq<Chunk>
    var size: nat
    var height: real
    var parent: Chunk?

    constructor (isLeaf: bool)
      ensures this.isLeaf == isLeaf && lines == [] && children == [] && size == 0 && height == 0.0 && parent == null
    {
      this.isLeaf, lines, children, size, height, parent := isLeaf, [], [], 0, 0.0, null;
    }

    function ChunkSize(): nat
      reads this
    {
      if isLeaf then |lines| else size
    }
  }

  // ----- which object is where -----

  datatype Shape = LeafShape(node: Chunk, lines: seq<Line>) | BranchShape(node: Chunk, kids: seq<Shape>)

  ghost function LinesOf(s: Shape): seq<Line> {
    match s
    case LeafShape(_, lines) => lines
    case BranchShape(_, kids) => KidLines(kids)
  }

  ghost function KidLines(kids: seq<Shape>): seq<Line> {
    if kids == [] then [] else LinesOf(kids[0]) + KidLines(kids[1..])
  }

  /** All nodes, each before those below it. */
  ghost function NodesOf(s: Shape): seq<Chunk> {
    match s
    case LeafShape(node, _) => [node]
    case BranchShape(node, kids) => [node] + KidNodes(kids)
  }

  ghost function KidNodes(kids: seq<Shape>): seq<Chunk> {
    if kids == [] then [] else NodesOf(kids[0]) + KidNodes(kids[1..])
  }

  ghost predicate Distinct<T>(s: seq<T>) {
    forall i, j :: 0 <= i < j < |s| ==> s[i] != s[j]
  }

  ghost function Chunks(s: Shape): set<Chunk> {
    set c | c in NodesOf(s)
  }

  ghost function LineSet(s: Shape): set<Line> {
    set l | l in LinesOf(s)
  }

  lemma {:induction false} KidsAreWithin(kids: seq<Shape>)
    ensures forall k :: k in kids ==> (forall l :: l in LinesOf(k) ==> l in KidLines(kids))
    ensures forall k :: k in kids ==> (forall c :: c in NodesOf(k) ==> c in KidNodes(kids))
  {
    if kids != [] {
      KidsAreWithin(kids[1..]);
      assert forall k :: k in kids ==> k == kids[0] || k in kids[1..];
    }
  }

  lemma {:induction false} NodeFirst(s: Shape)
    ensures NodesOf(s) != [] && NodesOf(s)[0] == s.node
  {
  }

  lemma TopsAreWithin(kids: seq<Shape>)
    ensures forall k :: k in kids ==> k.node in KidNodes(kids)
  {
    KidsAreWithin(kids);
    forall k | k in kids
      ensures k.node in KidNodes(kids)
    {
      NodeFirst(k);
      assert k.node in NodesOf(k);
    }
  }

  lemma UnderIsWithin(s: Shape)
    ensures Under(s) <= Chunks(s)
    ensures s.BranchShape? ==> forall k :: k in s.kids ==> Chunks(k) <= Under(s) && Under(k) <= Under(s)
  {
    if s.BranchShape? {
      KidsAreWithin(s.kids);
    }
  }

  lemma {:induction false} KidWith(kids: seq<Shape>, l: Line) returns (i: nat)
    requires l in KidLines(kids)
    ensures i < |kids| && l in LinesOf(kids[i])
  {
    if l in LinesOf(kids[0]) {
      i := 0;
    } else {
      i := KidWith(kids[1..], l);
      i := i + 1;
    }
  }

  lemma {:induction false} ObjectsExist(s: Shape)
    ensures forall c :: c in NodesOf(s) ==> allocated(c)
    ensures forall l :: l in LinesOf(s) ==> allocated(l)
    ensures forall c :: c in Chunks(s) ==> allocated(c)
    ensures forall l :: l in LineSet(s) ==> allocated(l)
    decreases s
  {
    if s.BranchShape? {
      KidsExist(s.kids);
    }
  }

  lemma {:induction false} KidsExist(kids: seq<Shape>)
    ensures forall c :: c in KidNodes(kids) ==> allocated(c)
    ensures forall l :: l in KidLines(kids) ==> allocated(l)
    decreases kids
  {
    if kids != [] {
      ObjectsExist(kids[0]);
      KidsExist(kids[1..]);
    }
  }

  /** The nodes below the top one. */
  ghost function Under(s: Shape): set<Chunk> {
    match s
    case LeafShape(_, _) => {}
    case BranchShape(_, kids) => set c | c in KidNodes(kids)
  }

  /** From the top node down, the links between the objects are those of the shape. */
  ghost predicate Below(s: Shape)
    reads Chunks(s)`isLeaf, Chunks(s)`lines, Chunks(s)`children, Chunks(s)`size, Under(s)`parent, LineSet(s)`parent
    decreases s
  {
    NodeFirst(s);
    match s
    case LeafShape(node, lines) =>
      node.isLeaf && node.lines == lines && forall l :: l in lines ==> l.parent == node
    case BranchShape(node, kids) =>
      KidsAreWithin(kids);
      TopsAreWithin(kids);
      && !node.isLeaf && node.size == |KidLines(kids)| && |node.children| == |kids|
      && forall i :: 0 <= i < |kids| ==>
           node.children[i] == kids[i].node && kids[i].node.parent == node && Below(kids[i])
  }

  ghost predicate Linked(s: Shape, up: Chunk?)
    reads Chunks(s)`isLeaf, Chunks(s)`lines, Chunks(s)`children, Chunks(s)`size, Chunks(s)`parent, LineSet(s)`parent
  {
    NodeFirst(s);
    UnderIsWithin(s);
    s.node.parent == up && Below(s)
  }

  // ----- heights -----

  function Sum(hs: seq<real>): real {
    if hs == [] then 0.0 else hs[0] + Sum(hs[1..])
  }

  /** The linear search over prefix sums: the first line that reaches below height h. */
  function FirstBelow(hs: seq<real>, h: real): nat {
    if hs == [] || h < hs[0] then 0 else 1 + FirstBelow(hs[1..], h - hs[0])
  }

  predicate NonNegative(hs: seq<real>) {
    forall i :: 0 <= i < |hs| ==> hs[i] >= 0.0
  }

  lemma {:induction false} SumConcat(a: seq<real>, b: seq<real>)
    ensures Sum(a + b) == Sum(a) + Sum(b)
  {
    if a == [] {
      assert a + b == b;
    } else {
      assert (a + b)[1..] == a[1..] + b;
      SumConcat(a[1..], b);
    }
  }

  lemma {:induction false} SumUpdated(hs: seq<real>, p: nat, h: real)
    requires p < |hs|
    ensures Sum(hs[p := h]) == Sum(hs) + h - hs[p]
  {
    if p > 0 {
      assert hs[p := h][1..] == hs[1..][p - 1 := h];
      SumUpdated(hs[1..], p - 1, h);
    } else {
      assert hs[p := h][1..] == hs[1..];
    }
  }

  function Prefix(hs: seq<real>, n: nat): real
    requires n <= |hs|
  {
    Sum(hs[..n])
  }

  lemma PrefixOfRest(hs: seq<real>, n: nat)
    requires 0 < n <= |hs|
    ensures Prefix(hs, n) == hs[0] + Prefix(hs[1..], n - 1)
  {
    assert hs[..n][1..] == hs[1..][..n - 1];
  }

  lemma {:induction false} FirstBelowIsLeast(hs: seq<real>, h: real)
    ensures var r := FirstBelow(hs, h);
            && r <= |hs|
            && (forall n: nat :: 0 < n <= r ==> Prefix(hs, n) <= h)
            && (r < |hs| ==> h < Prefix(hs, r + 1))
  {
    if hs != [] {
      var r := FirstBelow(hs, h);
      if hs[0] <= h {
        FirstBelowIsLeast(hs[1..], h - hs[0]);
      }
      forall n: nat | 0 < n <= |hs|
        ensures Prefix(hs, n) == hs[0] + Prefix(hs[1..], n - 1)
      {
        PrefixOfRest(hs, n);
      }
    }
  }

  /** A block of lines that ends above h can be skipped as a whole. */
  lemma {:induction false} SkipBlock(a: seq<real>, b: seq<real>, h: real)
    requires NonNegative(a) && Sum(a) <= h
    ensures FirstBelow(a + b, h) == |a| + FirstBelow(b, h - Sum(a))
  {
    if a == [] {
      assert a + b == b;
    } else {
      SumNonNegative(a[1..]);
      assert (a + b)[1..] == a[1..] + b;
      SkipBlock(a[1..], b, h - a[0]);
    }
  }

  lemma {:induction false} EnterBlock(a: seq<real>, b: seq<real>, h: real)
    requires NonNegative(a) && NonNegative(b) && h < Sum(a)
    ensures FirstBelow(a + b, h) == FirstBelow(a, h)
  {
    if a == [] {
      assert a + b == b;
    } else if a[0] <= h {
      assert (a + b)[1..] == a[1..] + b;
      EnterBlock(a[1..], b, h - a[0]);
    }
  }

  lemma {:induction false} SumNonNegative(hs: seq<real>)
    requires NonNegative(hs)
    ensures Sum(hs) >= 0.0
  {
    if hs != [] {
      SumNonNegative(hs[1..]);
    }
  }

  ghost function Heights(lines: seq<Line>): (hs: seq<real>)
    reads (set l | l in lines)`height
    ensures |hs| == |lines| && forall i :: 0 <= i < |lines| ==> hs[i] == lines[i].height
  {
    if lines == [] then [] else [lines[0].height] + Heights(lines[1..])
  }

  lemma HeightsConcat(a: seq<Line>, b: seq<Line>)
    ensures Heights(a + b) == Heights(a) + Heights(b)
  {
  }

  /** Every node caches the height of the lines below it. */
  ghost predicate Weighed(s: Shape)
    reads Chunks(s)`height, LineSet(s)`height
    decreases s
  {
    NodeFirst(s);
    && s.node.height == Sum(Heights(LinesOf(s)))
    && match s
       case LeafShape(_, _) => true
       case BranchShape(_, kids) => KidsAreWithin(kids); forall k :: k in kids ==> Weighed(k)
  }

  // ----- parts of a shape -----

  lemma {:induction false} KidLinesConcat(a: seq<Shape>, b: seq<Shape>)
    ensures KidLines(a + b) == KidLines(a) + KidLines(b)
  {
    if a == [] {
      assert a + b == b;
    } else {
      assert (a + b)[1..] == a[1..] + b;
      KidLinesConcat(a[1..], b);
    }
  }

  lemma {:induction false} KidNodesConcat(a: seq<Shape>, b: seq<Shape>)
    ensures KidNodes(a + b) == KidNodes(a) + KidNodes(b)
  {
    if a == [] {
      assert a + b == b;
    } else {
      assert (a + b)[1..] == a[1..] + b;
      KidNodesConcat(a[1..], b);
    }
  }

  lemma KidsFrom(kids: seq<Shape>, i: nat)
    requires i < |kids|
    ensures KidLines(kids[i..]) == LinesOf(kids[i]) + KidLines(kids[i + 1..])
    ensures KidNodes(kids[i..]) == NodesOf(kids[i]) + KidNodes(kids[i + 1..])
  {
    assert kids[i..][1..] == kids[i + 1..];
  }

  lemma KidsUpTo(kids: seq<Shape>, i: nat)
    requires i < |kids|
    ensures KidLines(kids[..i + 1]) == KidLines(kids[..i]) + LinesOf(kids[i])
  {
    assert kids[..i + 1] == kids[..i] + [kids[i]] && [kids[i]][1..] == [];
    KidLinesConcat(kids[..i], [kids[i]]);
  }

  lemma KidsAround(kids: seq<Shape>, i: nat)
    requires i < |kids|
    ensures KidLines(kids) == KidLines(kids[..i]) + (LinesOf(kids[i]) + KidLines(kids[i + 1..]))
    ensures KidNodes(kids) == KidNodes(kids[..i]) + (NodesOf(kids[i]) + KidNodes(kids[i + 1..]))
  {
    hide KidLines, KidNodes, LinesOf, NodesOf;
    assert kids == kids[..i] + kids[i..];
    KidLinesConcat(kids[..i], kids[i..]);
    KidNodesConcat(kids[..i], kids[i..]);
    KidsFrom(kids, i);
  }

  lemma ApartFromRest<T>(a: seq<T>, b: seq<T>, c: seq<T>)
    requires Distinct(a + (b + c))
    ensures forall x :: x in b ==> x !in a && x !in c
  {
    var all := a + (b + c);
    forall i, j | 0 <= i < |a| && 0 <= j < |b|
      ensures a[i] != b[j]
    {
      assert all[i] == a[i] && all[|a| + j] == b[j];
    }
    forall i, j | 0 <= i < |b| && 0 <= j < |c|
      ensures b[i] != c[j]
    {
      assert all[|a| + i] == b[i] && all[|a| + |b| + j] == c[j];
    }
  }

  /** Children share neither nodes nor lines. */
  lemma KidsApart(kids: seq<Shape>, i: nat, j: nat)
    requires i < |kids| && j < |kids| && i != j
    ensures Distinct(KidNodes(kids)) ==> forall c :: c in NodesOf(kids[j]) ==> c !in NodesOf(kids[i])
    ensures Distinct(KidLines(kids)) ==> forall l :: l in LinesOf(kids[j]) ==> l !in LinesOf(kids[i])
  {
    hide KidLines, KidNodes, LinesOf, NodesOf, Distinct;
    KidsAround(kids, i);
    KidsAreWithin(kids[..i]);
    KidsAreWithin(kids[i + 1..]);
    assert if j < i then kids[..i][j] == kids[j] else kids[i + 1..][j - i - 1] == kids[j];
    if Distinct(KidNodes(kids)) {
      ApartFromRest(KidNodes(kids[..i]), NodesOf(kids[i]), KidNodes(kids[i + 1..]));
    }
    if Distinct(KidLines(kids)) {
      ApartFromRest(KidLines(kids[..i]), LinesOf(kids[i]), KidLines(kids[i + 1..]));
    }
  }

  lemma KidNodesDiffer(kids: seq<Shape>, i: nat, j: nat)
    requires i < |kids| && j < |kids| && i != j && Distinct(KidNodes(kids))
    ensures kids[i].node != kids[j].node
  {
    NodeFirst(kids[i]);
    NodeFirst(kids[j]);
    assert kids[i].node in NodesOf(kids[i]) && kids[j].node in NodesOf(kids[j]);
    KidsApart(kids, i, j);
  }

  lemma DistinctPart<T>(a: seq<T>, b: seq<T>, c: seq<T>)
    requires Distinct(a + (b + c))
    ensures Distinct(b)
  {
    forall i, j | 0 <= i < j < |b|
      ensures b[i] != b[j]
    {
      var all := a + (b + c);
      assert all[|a| + i] == b[i] && all[|a| + j] == b[j];
    }
  }

  lemma DistinctKids(s: Shape)
    requires s.BranchShape? && Distinct(NodesOf(s))
    ensures Distinct(KidNodes(s.kids))
    ensures forall i :: 0 <= i < |s.kids| ==> Distinct(NodesOf(s.kids[i]))
  {
    var nodes := KidNodes(s.kids);
    assert NodesOf(s) == [s.node] + (nodes + []);
    DistinctPart([s.node], nodes, []);
    forall i | 0 <= i < |s.kids|
      ensures Distinct(NodesOf(s.kids[i]))
    {
      KidsAround(s.kids, i);
      DistinctPart(KidNodes(s.kids[..i]), NodesOf(s.kids[i]), KidNodes(s.kids[i + 1..]));
    }
  }

  lemma DistinctKidLines(s: Shape, i: nat)
    requires s.BranchShape? && Distinct(LinesOf(s)) && i < |s.kids|
    ensures Distinct(LinesOf(s.kids[i]))
  {
    KidsAround(s.kids, i);
    DistinctPart(KidLines(s.kids[..i]), LinesOf(s.kids[i]), KidLines(s.kids[i + 1..]));
  }

  lemma WithinParent(s: Shape, i: nat)
    requires s.BranchShape? && i < |s.kids|
    ensures forall c :: c in NodesOf(s.kids[i]) ==> c in NodesOf(s) && c in KidNodes(s.kids)
    ensures forall l :: l in LinesOf(s.kids[i]) ==> l in LinesOf(s)
  {
    KidsAreWithin(s.kids);
    assert s.kids[i] in s.kids;
  }

  lemma NodeApart(s: Shape, i: nat, c: Chunk)
    requires s.BranchShape? && i < |s.kids| && Distinct(NodesOf(s)) && c in NodesOf(s.kids[i])
    ensures c != s.node
  {
    WithinParent(s, i);
    assert NodesOf(s) == [s.node] + (KidNodes(s.kids) + []);
    ApartFromRest([s.node], KidNodes(s.kids), []);
  }

  lemma SomeKid(kids: seq<Shape>)
    ensures KidLines(kids) != [] ==> kids != []
  {
  }

  lemma NodeOf(s: Shape, up: Chunk?)
    requires Linked(s, up)
    ensures s.LeafShape? == s.node.isLeaf && s.node.parent == up
    ensures s.node.ChunkSize() == |LinesOf(s)|
    ensures s.LeafShape? ==> s.node.lines == LinesOf(s) == s.lines
    ensures s.BranchShape? ==> LinesOf(s) == KidLines(s.kids) && |s.node.children| == |s.kids|
  {
  }

  lemma KidOf(s: Shape, up: Chunk?, i: nat)
    requires Linked(s, up) && s.BranchShape? && i < |s.kids|
    ensures |s.node.children| == |s.kids|
    ensures s.node.children[i] == s.kids[i].node && Linked(s.kids[i], s.node)
    ensures s.node.children[i].ChunkSize() == |LinesOf(s.kids[i])|
  {
    NodeOf(s.kids[i], s.node);
  }

  lemma KidWeighs(s: Shape, i: nat)
    requires s.BranchShape? && Weighed(s) && i < |s.kids|
    ensures Weighed(s.kids[i]) && s.kids[i].node.height == Sum(Heights(LinesOf(s.kids[i])))
  {
  }

  lemma OneLine(top: Chunk, leaf: Chunk, line: Line)
    requires top != leaf && leaf.isLeaf && leaf.lines == [line] && leaf.height == line.height && leaf.parent == top
    requires !top.isLeaf && top.children == [leaf] && top.size == 1 && top.height == leaf.height && top.parent == null
    requires line.parent == leaf
    ensures var s := BranchShape(top, [LeafShape(leaf, [line])]);
            LinesOf(s) == [line] && NodesOf(s) == [top, leaf] && Linked(s, null) && Weighed(s)
  {
    var kids := [LeafShape(leaf, [line])];
    assert kids[1..] == [];
    assert KidLines(kids) == LinesOf(kids[0]) + KidLines([]) == [line];
    assert KidNodes(kids) == NodesOf(kids[0]) + KidNodes([]) == [leaf];
    assert Heights([line]) == [line.height] && Sum([line.height]) == line.height;
  }
}
