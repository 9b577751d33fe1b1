/** Inserting lines into the tree and removing them: leaves are split and collapsed,
    branches spill into siblings, and the objects that are moved get new parents
    (codemirror.js). */
module CmLineEdits {
  import opened Wrappers
  import opened Splices
  import opened CmLineShape

  const LEAF_LIMIT := 50
  const SLICE := 25
  const BRANCH_LIMIT := 10
  const SPILL := 5

  ghost predicate Bounded(s: Shape) {
    match s
    case LeafShape(_, lines) => |lines| <= 50
    case BranchShape(_, kids) => 1 <= |kids| <= 10 && forall k :: k in kids ==> Bounded(k)
  }

  /** A node and everything below it is linked and weighed as its shape says. */
  ghost predicate Built(s: Shape)
    reads Chunks(s)`isLeaf, Chunks(s)`lines, Chunks(s)`children, Chunks(s)`size, Chunks(s)`height
    reads Under(s)`parent, LineSet(s)`parent, LineSet(s)`height
  {
    Below(s) && Weighed(s)
  }

  ghost function NodeSet(kids: seq<Shape>): set<Chunk> {
    set c | c in KidNodes(kids)
  }

  ghost function UnderAll(kids: seq<Shape>): set<Chunk> {
    set k, c | k in kids && c in Under(k) :: c
  }

  ghost function LinesIn(kids: seq<Shape>): set<Line> {
    set l | l in KidLines(kids)
  }

  lemma FrameOf(kids: seq<Shape>)
    ensures forall k :: k in kids ==>
              Chunks(k) <= NodeSet(kids) && Under(k) <= UnderAll(kids) && LineSet(k) <= LinesIn(kids)
  {
    KidsAreWithin(kids);
  }

  ghost predicate AllBuilt(kids: seq<Shape>)
    reads NodeSet(kids)`isLeaf, NodeSet(kids)`lines, NodeSet(kids)`children, NodeSet(kids)`size, NodeSet(kids)`height
    reads UnderAll(kids)`parent, LinesIn(kids)`parent, LinesIn(kids)`height
  {
    FrameOf(kids);
    forall k :: k in kids ==> Built(k)
  }

  ghost predicate AreTops(nodes: seq<Chunk>, kids: seq<Shape>) {
    |nodes| == |kids| && forall i :: 0 <= i < |kids| ==> nodes[i] == kids[i].node
  }

  /** No child is below one of the children. */
  lemma TopsAreNotUnder(nodes: seq<Chunk>, kids: seq<Shape>)
    requires AreTops(nodes, kids) && Distinct(KidNodes(kids))
    ensures forall c :: c in nodes ==> c in NodeSet(kids) && c !in UnderAll(kids)
  {
    TopsAreWithin(kids);
    forall i, j | 0 <= i < |kids| && 0 <= j < |kids|
      ensures kids[i].node !in Under(kids[j])
    {
      TopIsNotUnder(kids, i, j);
    }
  }

  lemma TopIsNotUnder(kids: seq<Shape>, i: nat, j: nat)
    requires i < |kids| && j < |kids| && Distinct(KidNodes(kids))
    ensures kids[i].node !in Under(kids[j])
  {
    UnderIsWithin(kids[j]);
    NodeFirst(kids[i]);
    assert kids[i].node in NodesOf(kids[i]);
    if i != j {
      KidsApart(kids, i, j);
    } else if kids[i].BranchShape? {
      KidsAround(kids, i);
      DistinctPart(KidNodes(kids[..i]), NodesOf(kids[i]), KidNodes(kids[i + 1..]));
      assert NodesOf(kids[i]) == [kids[i].node] + (KidNodes(kids[i].kids) + []);
      ApartFromRest([kids[i].node], KidNodes(kids[i].kids), []);
    }
  }

  lemma AllExist(kids: seq<Shape>)
    ensures forall c :: c in KidNodes(kids) ==> allocated(c)
    ensures forall c :: c in NodeSet(kids) ==> allocated(c)
    ensures forall c :: c in UnderAll(kids) ==> allocated(c)
    ensures forall l :: l in LinesIn(kids) ==> allocated(l)
  {
    KidsExist(kids);
    FrameOf(kids);
    forall k | k in kids
      ensures Under(k) <= NodeSet(kids)
    {
      UnderIsWithin(k);
    }
  }

  // ----- building nodes -----

  method NewLeaf(lines: seq<Line>) returns (leaf: Chunk)
    modifies SetOf(lines)`parent
    ensures fresh(leaf) && leaf.parent == null && Built(LeafShape(leaf, lines))
  {
    hide Sum, Heights, Built;
    leaf := new Chunk(true);
    var height := 0.0;
    leaf.lines := lines;
    NothingWeighs();
    for i := 0 to |lines|
      invariant leaf.isLeaf && leaf.lines == lines && leaf.parent == null
      invariant forall j :: 0 <= j < i ==> lines[j].parent == leaf
      invariant height == Sum(Heights(lines[..i]))
    {
      SumNext(lines, i);
      height := height + lines[i].height;
      lines[i].parent := leaf;
      assert height == Sum(Heights(lines[..i + 1]));
    }
    assert lines[..|lines|] == lines;
    leaf.height := height;
    LeafIsBuilt(LeafShape(leaf, lines));
  }

  lemma NothingWeighs()
    ensures Sum(Heights([])) == 0.0
  {
  }

  lemma LeafIsBuilt(s: Shape)
    requires s.LeafShape? && s.node.isLeaf && s.node.lines == s.lines && s.node.height == Sum(Heights(s.lines))
    requires forall l :: l in s.lines ==> l.parent == s.node
    ensures Built(s)
  {
  }

  lemma SumNext(lines: seq<Line>, i: nat)
    requires i < |lines|
    ensures Sum(Heights(lines[..i + 1])) == Sum(Heights(lines[..i])) + lines[i].height
  {
    assert lines[..i + 1] == lines[..i] + [lines[i]];
    HeightsConcat(lines[..i], [lines[i]]);
    SumConcat(Heights(lines[..i]), Heights([lines[i]]));
  }

  method NewBranch(children: seq<Chunk>, ghost kids: seq<Shape>) returns (b: Chunk)
    requires AreTops(children, kids) && AllBuilt(kids) && Distinct(KidNodes(kids))
    modifies SetOf(children)`parent
    ensures fresh(b) && b.parent == null && Built(BranchShape(b, kids))
  {
    hide Built, AllBuilt, Sum, Heights, KidLines, KidNodes, LinesOf, NodesOf, Below, Weighed, Under, Distinct;
    TopsAreNotUnder(children, kids);
    AllExist(kids);
    b := new Chunk(false);
    b.children := children;
    var size, height := 0, 0.0;
    NoKidsCount(kids);
    for i := 0 to |children|
      invariant !b.isLeaf && b.children == children && b.parent == null
      invariant AllBuilt(kids)
      invariant forall j :: 0 <= j < i ==> children[j].parent == b
      invariant size == |KidLines(kids[..i])| && height == Sum(Heights(KidLines(kids[..i])))
    {
      var ch := children[i];
      KidCounts(kids, i);
      size := size + ch.ChunkSize();
      height := height + ch.height;
      ch.parent := b;
    }
    b.size, b.height := size, height;
    assert kids[..|kids|] == kids;
    BranchIsBuilt(BranchShape(b, kids));
  }

  lemma NoKidsCount(kids: seq<Shape>)
    ensures KidLines(kids[..0]) == [] && Sum(Heights(KidLines(kids[..0]))) == 0.0
  {
  }

  lemma KidCounts(kids: seq<Shape>, i: nat)
    requires AllBuilt(kids) && i < |kids|
    ensures kids[i].node.ChunkSize() == |LinesOf(kids[i])| && kids[i].node.height == Sum(Heights(LinesOf(kids[i])))
    ensures KidLines(kids[..i + 1]) == KidLines(kids[..i]) + LinesOf(kids[i])
    ensures Sum(Heights(KidLines(kids[..i + 1]))) == Sum(Heights(KidLines(kids[..i]))) + kids[i].node.height
  {
    var k := kids[i];
    assert k in kids && Built(k);
    NodeOf(k, k.node.parent);
    KidsUpTo(kids, i);
    HeightsConcat(KidLines(kids[..i]), LinesOf(k));
    SumConcat(Heights(KidLines(kids[..i])), Heights(LinesOf(k)));
  }

  lemma BranchIsBuilt(s: Shape)
    requires s.BranchShape? && AllBuilt(s.kids) && AreTops(s.node.children, s.kids)
    requires forall k :: k in s.kids ==> k.node.parent == s.node
    requires !s.node.isLeaf && s.node.size == |KidLines(s.kids)| && s.node.height == Sum(Heights(KidLines(s.kids)))
    ensures Built(s)
  {
    forall i | 0 <= i < |s.kids|
      ensures Built(s.kids[i])
    {
      assert s.kids[i] in s.kids;
    }
  }

  // ----- lists of shapes -----

  lemma AllBuiltJoin(a: seq<Shape>, b: seq<Shape>)
    requires AllBuilt(a) && AllBuilt(b)
    ensures AllBuilt(a + b)
  {
  }

  lemma AllBuiltOne(s: Shape)
    requires Built(s)
    ensures AllBuilt([s]) && KidLines([s]) == LinesOf(s) && KidNodes([s]) == NodesOf(s)
  {
    assert [s][1..] == [];
  }

  lemma AllBuiltPart(kids: seq<Shape>, i: nat, j: nat)
    requires AllBuilt(kids) && i <= j <= |kids|
    ensures AllBuilt(kids[i..j])
  {
  }

  lemma DistinctJoin<T>(a: seq<T>, b: seq<T>)
    requires Distinct(a) && Distinct(b) && forall x :: x in a ==> x !in b
    ensures Distinct(a + b)
  {
    forall i, j | 0 <= i < j < |a + b|
      ensures (a + b)[i] != (a + b)[j]
    {
      if i < |a| <= j {
        assert a[i] in a && b[j - |a|] in b;
      }
    }
  }

  lemma PartsApart<T>(s: seq<T>, i: nat, j: nat, k: nat, m: nat)
    requires Distinct(s) && i <= j <= k <= m <= |s|
    ensures forall x :: x in s[i..j] ==> x !in s[k..m]
  {
    forall a, b | i <= a < j && k <= b < m
      ensures s[a] != s[b]
    {
    }
  }

  // ----- leaves -----

  lemma InsertedWeighs(lines: seq<Line>, at: nat, more: seq<Line>)
    requires at <= |lines|
    ensures Sum(Heights(Inserted(lines, at, more))) == Sum(Heights(lines)) + Sum(Heights(more))
  {
    hide Sum, Heights;
    assert lines == lines[..at] + lines[at..];
    WeighsBoth(lines[..at], lines[at..]);
    WeighsBoth(lines[..at], more);
    WeighsBoth(lines[..at] + more, lines[at..]);
  }

  lemma WeighsBoth(a: seq<Line>, b: seq<Line>)
    ensures Sum(Heights(a + b)) == Sum(Heights(a)) + Sum(Heights(b))
  {
    HeightsConcat(a, b);
    SumConcat(Heights(a), Heights(b));
  }

  method InsertIntoLeaf(leaf: Chunk, at: nat, lines: seq<Line>, height: real, ghost s: Shape)
    requires s.LeafShape? && leaf == s.node && Built(s) && at <= |s.lines| && height == Sum(Heights(lines))
    modifies leaf`lines, leaf`height, SetOf(lines)`parent
    ensures Built(LeafShape(leaf, Inserted(s.lines, at, lines)))
  {
    hide Sum, Heights;
    ghost var all := Inserted(s.lines, at, lines);
    InsertedWeighs(s.lines, at, lines);
    leaf.height := leaf.height + height;
    leaf.lines := leaf.lines[..at] + lines + leaf.lines[at..];
    for i := 0 to |lines|
      invariant leaf.isLeaf && leaf.lines == all && leaf.height == Sum(Heights(all))
      invariant forall l :: l in s.lines ==> l.parent == leaf
      invariant forall j :: 0 <= j < i ==> lines[j].parent == leaf
    {
      lines[i].parent := leaf;
    }
    LeafIsBuilt(LeafShape(leaf, all));
  }

  ghost predicate AreSlices(parts: seq<Shape>, lines: seq<Line>) {
    KidLines(parts) == lines && forall p :: p in parts ==> p.LeafShape? && |p.lines| == 25
  }

  /** The next 25 lines of a leaf as a leaf of their own. */
  method SliceOff(child: Chunk, pos: nat) returns (leaf: Chunk)
    requires pos + SLICE <= |child.lines|
    modifies child`height, SetOf(child.lines[pos..pos + SLICE])`parent
    ensures fresh(leaf) && leaf.parent == child.parent && Built(LeafShape(leaf, child.lines[pos..pos + SLICE]))
    ensures child.height == old(child.height) - Sum(Heights(child.lines[pos..pos + SLICE]))
  {
    hide Sum, Heights;
    leaf := NewLeaf(child.lines[pos..pos + SLICE]);
    LeafOf(LeafShape(leaf, child.lines[pos..pos + SLICE]));
    child.height := child.height - leaf.height;
    leaf.parent := child.parent;
  }

  /** The lines of a leaf from `first` on, in new leaves of 25. */
  method SliceAll(child: Chunk, first: nat, ghost s: Shape) returns (leaves: seq<Chunk>, ghost slices: seq<Shape>)
    requires s.LeafShape? && child == s.node && Built(s) && Distinct(s.lines)
    requires first <= |s.lines| && (|s.lines| - first) % SLICE == 0
    modifies child`height, SetOf(s.lines)`parent
    ensures AllBuilt(slices) && KidNodes(slices) == leaves && Distinct(leaves) && AreSlices(slices, s.lines[first..])
    ensures forall l :: l in leaves ==> fresh(l) && l.parent == child.parent
    ensures forall j :: 0 <= j < first ==> s.lines[j].parent == child
    ensures child.height == Sum(Heights(s.lines[..first]))
  {
    hide Built, AllBuilt, Sum, Heights, KidLines, KidNodes, Bounded, LinesOf, NodesOf, Below, Weighed, Under,
         Distinct, AreSlices;
    var pos := first;
    leaves := [];
    slices := [];
    ghost var left := (|s.lines| - first) / SLICE;
    LeafOf(s);
    WeighsCut(s.lines, 0, pos);
    NoSlices(s.lines, pos);
    while pos < |child.lines|
      invariant child.lines == s.lines && first <= pos && left >= 0 && |s.lines| == pos + SLICE * left
      invariant AllBuilt(slices) && KidNodes(slices) == leaves && Distinct(leaves)
      invariant AreSlices(slices, s.lines[first..pos])
      invariant forall l :: l in leaves ==> fresh(l) && l.parent == child.parent
      invariant forall j :: 0 <= j < first ==> s.lines[j].parent == child
      invariant child.height == Sum(Heights(s.lines[..first])) + Sum(Heights(s.lines[pos..]))
      decreases left
    {
      SlicesApart(s.lines, first, pos, slices);
      AllExist(slices);
      var leaf := SliceOff(child, pos);
      assert AllBuilt(slices);
      ghost var slice := LeafShape(leaf, child.lines[pos..pos + SLICE]);
      WeighsCut(s.lines, pos, pos + SLICE);
      NextSlice(s.lines, first, pos, slices, slice);
      leaves := leaves + [leaf];
      slices := slices + [slice];
      pos, left := pos + SLICE, left - 1;
    }
    assert s.lines[pos..] == [] && s.lines[first..pos] == s.lines[first..];
    NothingWeighs();
  }

  lemma SlicesApart(lines: seq<Line>, first: nat, pos: nat, slices: seq<Shape>)
    requires first <= pos && pos + SLICE <= |lines| && Distinct(lines) && AreSlices(slices, lines[first..pos])
    ensures LinesIn(slices) !! SetOf(lines[pos..pos + SLICE])
    ensures forall j :: 0 <= j < first ==> lines[j] !in lines[pos..pos + SLICE]
  {
    PartsApart(lines, first, pos, pos, pos + SLICE);
    PartsApart(lines, 0, first, pos, pos + SLICE);
    assert forall j :: 0 <= j < first ==> lines[j] in lines[0..first];
  }

  /** A leaf that has grown too long keeps 25 to 49 lines; the others move to new leaves
      of 25 lines, which get the same parent. */
  method SplitLeaf(child: Chunk, ghost s: Shape) returns (leaves: seq<Chunk>, ghost parts: seq<Shape>)
    requires s.LeafShape? && child == s.node && Built(s) && Distinct(s.lines) && |s.lines| > LEAF_LIMIT
    modifies child`lines, child`height, SetOf(s.lines)`parent
    ensures AreTops([child] + leaves, parts) && AllBuilt(parts) && parts[0].LeafShape?
    ensures KidNodes(parts) == [child] + leaves && Distinct(KidNodes(parts))
    ensures KidLines(parts) == s.lines && forall p :: p in parts ==> Bounded(p)
    ensures parts[0].lines == s.lines[..|s.lines| % 25 + 25]
    ensures forall p :: p in parts[1..] ==> p.LeafShape? && |p.lines| == 25
    ensures forall l :: l in leaves ==> fresh(l) && l.parent == child.parent
  {
    hide Built, AllBuilt, Sum, Heights, KidLines, KidNodes, Bounded;
    LeafOf(s);
    var remaining := |child.lines| % SLICE + SLICE;
    ghost var slices;
    leaves, slices := SliceAll(child, remaining, s);
    AllExist(slices);
    child.lines := child.lines[..remaining];
    assert AllBuilt(slices);
    ghost var kept := LeafShape(child, s.lines[..remaining]);
    parts := [kept] + slices;
    LeafIsBuilt(kept);
    KeptAndSlices(kept, s.lines, slices);
  }

  lemma KeptAndSlices(kept: Shape, lines: seq<Line>, slices: seq<Shape>)
    requires kept.LeafShape? && |kept.lines| < 2 * SLICE && |kept.lines| <= |lines|
    requires kept.lines == lines[..|kept.lines|]
    requires AreSlices(slices, lines[|kept.lines|..]) && Built(kept) && AllBuilt(slices)
    requires Distinct(KidNodes(slices)) && kept.node !in KidNodes(slices)
    ensures var parts := [kept] + slices;
            && KidLines(parts) == lines && KidNodes(parts) == [kept.node] + KidNodes(slices)
            && AreTops([kept.node] + KidNodes(slices), parts) && AllBuilt(parts) && Distinct(KidNodes(parts))
            && forall p :: p in parts ==> Bounded(p)
  {
    var parts := [kept] + slices;
    assert parts[1..] == slices;
    DistinctJoin([kept.node], KidNodes(slices));
    LeafNodes(slices);
  }

  lemma {:induction false} LeafNodes(leaves: seq<Shape>)
    requires forall p :: p in leaves ==> p.LeafShape?
    ensures AreTops(KidNodes(leaves), leaves)
  {
    if leaves != [] {
      LeafNodes(leaves[1..]);
      assert forall i :: 0 < i < |leaves| ==> leaves[i] == leaves[1..][i - 1];
    }
  }

  lemma LeafOf(s: Shape)
    requires s.LeafShape? && Built(s)
    ensures s.node.isLeaf && s.node.lines == s.lines && s.node.height == Sum(Heights(s.lines))
    ensures forall l :: l in s.lines ==> l.parent == s.node
  {
  }

  lemma WeighsCut(lines: seq<Line>, i: nat, j: nat)
    requires i <= j <= |lines|
    ensures Sum(Heights(lines[i..])) == Sum(Heights(lines[i..j])) + Sum(Heights(lines[j..]))
  {
    assert lines[i..] == lines[i..j] + lines[j..];
    WeighsBoth(lines[i..j], lines[j..]);
  }

  lemma NoSlices(lines: seq<Line>, first: nat)
    requires first <= |lines|
    ensures AllBuilt([]) && KidNodes([]) == [] && AreSlices([], lines[first..first]) && Distinct<Chunk>([])
  {
  }

  lemma NextSlice(lines: seq<Line>, from: nat, pos: nat, slices: seq<Shape>, slice: Shape)
    requires from <= pos && pos + SLICE <= |lines| && AreSlices(slices, lines[from..pos])
    requires slice.LeafShape? && slice.lines == lines[pos..pos + SLICE]
    requires AllBuilt(slices) && Built(slice) && Distinct(KidNodes(slices)) && slice.node !in KidNodes(slices)
    ensures AreSlices(slices + [slice], lines[from..pos + SLICE]) && AllBuilt(slices + [slice])
    ensures KidNodes(slices + [slice]) == KidNodes(slices) + [slice.node]
    ensures Distinct(KidNodes(slices) + [slice.node])
  {
    hide Built;
    KidLinesConcat(slices, [slice]);
    KidNodesConcat(slices, [slice]);
    AllBuiltOne(slice);
    AllBuiltJoin(slices, [slice]);
    DistinctJoin(KidNodes(slices), [slice.node]);
    assert lines[from..pos] + lines[pos..pos + SLICE] == lines[from..pos + SLICE];
  }

  // ----- spilling -----

  lemma UnderIsBelow(kids: seq<Shape>)
    ensures UnderAll(kids) <= NodeSet(kids)
  {
    FrameOf(kids);
    forall k | k in kids
      ensures Under(k) <= NodeSet(kids)
    {
      UnderIsWithin(k);
    }
  }

  lemma ListsApart(a: seq<Shape>, b: seq<Shape>)
    requires Distinct(KidNodes(a) + KidNodes(b))
    ensures NodeSet(a) !! NodeSet(b)
  {
    assert KidNodes(a) + KidNodes(b) == [] + (KidNodes(a) + KidNodes(b));
    ApartFromRest([], KidNodes(a), KidNodes(b));
  }

  lemma BuiltParts(s: Shape)
    requires s.BranchShape? && Built(s)
    ensures AllBuilt(s.kids) && AreTops(s.node.children, s.kids) && !s.node.isLeaf
    ensures s.node.size == |KidLines(s.kids)| && s.node.height == Sum(Heights(KidLines(s.kids)))
    ensures forall k :: k in s.kids ==> k.node.parent == s.node
  {
    forall i | 0 <= i < |s.kids|
      ensures Built(s.kids[i]) && s.kids[i].node.parent == s.node
    {
    }
  }

  /** The last five children become a branch of their own. */
  method SpillOnce(me: Chunk, ghost s: Shape) returns (sibling: Chunk, ghost rest: Shape, ghost moved: Shape)
    requires s.BranchShape? && me == s.node && Built(s) && Distinct(NodesOf(s)) && |s.kids| > SPILL
    modifies me`children, me`size, me`height, SetOf(me.children)`parent
    ensures fresh(sibling) && sibling.parent == me.parent == old(me.parent)
    ensures |old(me.children)| == |s.kids| && me.children == old(me.children)[..|s.kids| - SPILL]
    ensures rest == BranchShape(me, s.kids[..|s.kids| - SPILL])
    ensures moved == BranchShape(sibling, s.kids[|s.kids| - SPILL..])
    ensures Built(rest) && Built(moved)
  {
    hide Built, AllBuilt, Sum, Heights, KidLines, KidNodes, Bounded, LinesOf, NodesOf, Below, Weighed, Under, Distinct;
    BuiltParts(s);
    var at := |me.children| - SPILL;
    ghost var stay, go := s.kids[..at], s.kids[at..];
    SpillParts(s, at);
    AllExist(stay);
    AllExist(go);
    ghost var stayHeights, goHeights := Heights(KidLines(stay)), Heights(KidLines(go));
    sibling := NewSibling(me, at, s);
    assert Heights(KidLines(stay)) == stayHeights && Heights(KidLines(go)) == goHeights;
    rest, moved := BranchShape(me, stay), BranchShape(sibling, go);
    FrameOfBranch(moved);
    Shorten(me, at, sibling, rest, moved);
  }

  /** A branch without the children that have moved to a sibling. */
  method Shorten(me: Chunk, at: nat, sibling: Chunk, ghost rest: Shape, ghost moved: Shape)
    requires at <= |me.children| && rest.BranchShape? && rest.node == me && AllBuilt(rest.kids)
    requires AreTops(me.children[..at], rest.kids)
    requires moved.BranchShape? && moved.node == sibling && Built(moved) && me !in NodeSet(rest.kids)
    requires me !in Chunks(moved)
    requires !me.isLeaf && forall k :: k in rest.kids ==> k.node.parent == me
    requires me.size == |KidLines(rest.kids)| + |KidLines(moved.kids)|
    requires me.height == Sum(Heights(KidLines(rest.kids))) + Sum(Heights(KidLines(moved.kids)))
    modifies me`children, me`size, me`height
    ensures Built(rest) && Built(moved) && me.children == old(me.children)[..at]
  {
    hide Built, AllBuilt, Sum, Heights, KidLines, KidNodes, LinesOf, NodesOf, Below, Weighed, Under;
    BuiltParts(moved);
    me.children := me.children[..at];
    me.size := me.size - sibling.size;
    me.height := me.height - sibling.height;
    assert AllBuilt(rest.kids) && Built(moved);
    BranchIsBuilt(rest);
  }

  /** The children from `at` on as the children of a new sibling. */
  method NewSibling(me: Chunk, at: nat, ghost s: Shape) returns (sibling: Chunk)
    requires s.BranchShape? && me == s.node && Built(s) && Distinct(NodesOf(s)) && at <= |me.children| == |s.kids|
    modifies SetOf(me.children[at..])`parent
    ensures fresh(sibling) && sibling.parent == me.parent == old(me.parent) && Built(BranchShape(sibling, s.kids[at..]))
    ensures AllBuilt(s.kids[..at]) && forall k :: k in s.kids[..at] ==> k.node.parent == me
  {
    hide Built, AllBuilt, Sum, Heights, KidLines, KidNodes, Bounded, LinesOf, NodesOf, Below, Weighed, Under, Distinct;
    BuiltParts(s);
    ghost var stay, go := s.kids[..at], s.kids[at..];
    SpillParts(s, at);
    TopsAreNotUnder(me.children[at..], go);
    TopsAreNotUnder(me.children[..at], stay);
    UnderIsBelow(stay);
    AllExist(stay);
    AllExist(go);
    sibling := NewBranch(me.children[at..], go);
    assert AllBuilt(stay);
    ghost var moved := BranchShape(sibling, go);
    FrameOfBranch(moved);
    sibling.parent := me.parent;
    assert AllBuilt(stay) && Built(moved);
  }

  lemma FrameOfBranch(s: Shape)
    requires s.BranchShape?
    ensures Under(s) == NodeSet(s.kids) && Chunks(s) == {s.node} + NodeSet(s.kids)
  {
  }

  lemma KidsCut(kids: seq<Shape>, at: nat)
    requires at <= |kids|
    ensures KidLines(kids) == KidLines(kids[..at]) + KidLines(kids[at..])
    ensures KidNodes(kids) == KidNodes(kids[..at]) + KidNodes(kids[at..])
  {
    assert kids == kids[..at] + kids[at..];
    KidLinesConcat(kids[..at], kids[at..]);
    KidNodesConcat(kids[..at], kids[at..]);
  }

  /** What is needed to move the children from `at` on. */
  lemma SpillParts(s: Shape, at: nat)
    requires s.BranchShape? && Built(s) && Distinct(NodesOf(s)) && at <= |s.kids|
    ensures var stay, go := s.kids[..at], s.kids[at..];
            && AllBuilt(stay) && AllBuilt(go) && Distinct(KidNodes(stay)) && Distinct(KidNodes(go))
            && s.node !in NodeSet(stay) && s.node !in NodeSet(go) && NodeSet(stay) !! NodeSet(go)
            && AreTops(s.node.children[..at], stay) && AreTops(s.node.children[at..], go)
            && KidLines(s.kids) == KidLines(stay) + KidLines(go)
            && Sum(Heights(KidLines(s.kids))) == Sum(Heights(KidLines(stay))) + Sum(Heights(KidLines(go)))
  {
    hide Built, KidLines, KidNodes, LinesOf, Sum, Heights, Distinct;
    var stay, go := s.kids[..at], s.kids[at..];
    BuiltParts(s);
    KidsCut(s.kids, at);
    AllBuiltPart(s.kids, 0, at);
    AllBuiltPart(s.kids, at, |s.kids|);
    WeighsBoth(KidLines(stay), KidLines(go));
    var nodes := KidNodes(stay) + KidNodes(go);
    assert NodesOf(s) == [s.node] + (nodes + []) && nodes == KidNodes(stay) + (KidNodes(go) + []);
    ApartFromRest([s.node], nodes, []);
    DistinctPart([s.node], nodes, []);
    DistinctPart(KidNodes(stay), KidNodes(go), []);
    assert nodes == [] + (KidNodes(stay) + KidNodes(go));
    DistinctPart([], KidNodes(stay), KidNodes(go));
    ListsApart(stay, go);
    assert forall c :: c in KidNodes(stay) ==> c in nodes;
    assert forall c :: c in KidNodes(go) ==> c in nodes;
  }

  ghost predicate AllBounded(kids: seq<Shape>) {
    forall k :: k in kids ==> Bounded(k)
  }

  /** Every node of the list is one of the first shape's or new. */
  twostate predicate OldOrNew(new nodes: seq<Chunk>, s: Shape) {
    forall c :: c in nodes ==> c in NodesOf(s) || fresh(c)
  }

  /** maybeSpill below the top: while there are more than ten children, the last five move
      to a new sibling, which comes right after this node. */
  method MaybeSpill(me: Chunk, ghost s: Shape) returns (siblings: seq<Chunk>, ghost parts: seq<Shape>)
    requires s.BranchShape? && me == s.node && Built(s) && Distinct(NodesOf(s)) && s.kids != [] && AllBounded(s.kids)
    modifies me`children, me`size, me`height, SetOf(me.children)`parent
    ensures AreTops([me] + siblings, parts) && AllBuilt(parts) && KidLines(parts) == LinesOf(s)
    ensures Distinct(KidNodes(parts)) && OldOrNew(KidNodes(parts), s)
    ensures AllBounded(parts) && forall p :: p in parts ==> p.BranchShape?
    ensures forall c :: c in siblings ==> fresh(c) && c.parent == me.parent
    ensures |s.kids| <= 10 ==> parts == [s]
    ensures |s.kids| > 10 ==> SpilledByFives(s, parts)
  {
    hide Built, AllBuilt, KidLines, KidNodes, Bounded, LinesOf, NodesOf, Below, Weighed, Under, Distinct, Spilling,
         AllBounded;
    siblings := [];
    ghost var kept, others, up := s, [], me.parent;
    SpillBegins(s);
    while |me.children| > BRANCH_LIMIT
      invariant kept.BranchShape? && kept.node == me && Built(kept) && |me.children| == |kept.kids| && me.parent == up
      invariant forall c :: c in me.children ==> c in old(me.children)
      invariant Spilling(s, kept, others) && AreTops(siblings, others) && AllBuilt(others)
      invariant OldOrNew(NodesOf(kept) + KidNodes(others), s)
      invariant forall c :: c in siblings ==> fresh(c) && c.parent == up
      decreases |kept.kids|
    {
      OthersApart(s, kept, others, siblings);
      AllExist(others);
      ObjectsExist(kept);
      ghost var rest, moved;
      var sibling;
      sibling, rest, moved := SpillOnce(me, kept);
      assert AllBuilt(others);
      SpilledShapes(s, kept, rest, moved, others);
      AllBuiltOne(moved);
      AllBuiltJoin([moved], others);
      siblings := [sibling] + siblings;
      kept, others := rest, [moved] + others;
    }
    parts := [kept] + others;
    SpillEnds(s, kept, others);
  }

  /** Every sibling has five children, and the branch has kept six to ten. */
  ghost predicate SpilledByFives(s: Shape, parts: seq<Shape>) {
    && parts != [] && s.BranchShape? && parts[0].BranchShape?
    && 6 <= |parts[0].kids| <= 10 && |parts[0].kids| <= |s.kids| && parts[0].kids == s.kids[..|parts[0].kids|]
    && (forall p :: p in parts[1..] ==> p.BranchShape? && |p.kids| == 5)
    && |parts| < |s.kids|
  }

  /** The shapes of a branch and the siblings split off so far hold its lines and nodes. */
  ghost predicate Spilling(s: Shape, kept: Shape, others: seq<Shape>) {
    && s.BranchShape? && kept.BranchShape? && kept.node == s.node && kept.kids != [] && AllBounded(kept.kids)
    && AllBounded(others) && (forall p :: p in others ==> p.BranchShape? && |p.kids| == 5)
    && |kept.kids| <= |s.kids| && kept.kids == s.kids[..|kept.kids|]
    && KidLines(kept.kids) + KidLines(others) == KidLines(s.kids)
    && Distinct(NodesOf(kept) + KidNodes(others))
    && |kept.kids| + SPILL * |others| == |s.kids| && (others == [] ==> kept == s)
    && (others != [] ==> |kept.kids| > SPILL)
  }

  lemma SpillBegins(s: Shape)
    requires s.BranchShape? && Built(s) && Distinct(NodesOf(s)) && s.kids != [] && AllBounded(s.kids)
    ensures Spilling(s, s, []) && AllBuilt([]) && |s.node.children| == |s.kids|
    ensures forall c :: c in NodesOf(s) + KidNodes([]) ==> c in NodesOf(s)
  {
    BuiltParts(s);
    assert NodesOf(s) + [] == NodesOf(s) && KidLines(s.kids) + [] == KidLines(s.kids);
  }

  lemma NodesOfBranch(s: Shape)
    requires s.BranchShape?
    ensures NodesOf(s) == [s.node] + KidNodes(s.kids) && LinesOf(s) == KidLines(s.kids)
  {
  }

  lemma OthersApart(s: Shape, kept: Shape, others: seq<Shape>, siblings: seq<Chunk>)
    requires Spilling(s, kept, others) && Built(kept) && AreTops(siblings, others)
    ensures Distinct(NodesOf(kept)) && UnderAll(others) <= NodeSet(others) && kept.node !in NodeSet(others)
    ensures forall c :: c in kept.node.children ==> c !in NodeSet(others) && c !in siblings && c != kept.node
    ensures forall c :: c in siblings ==> c in KidNodes(others)
  {
    hide Built, Distinct;
    var a, b := NodesOf(kept), KidNodes(others);
    BuiltParts(kept);
    TopsAreWithin(kept.kids);
    TopsAreWithin(others);
    UnderIsBelow(others);
    assert a + b == [] + (a + b);
    DistinctPart([], a, b);
    ApartFromRest([], a, b);
    assert a == [kept.node] + (KidNodes(kept.kids) + []);
    ApartFromRest([kept.node], KidNodes(kept.kids), []);
  }

  lemma SpilledLines(kids: seq<Shape>, at: nat, moved: Shape, others: seq<Shape>)
    requires at <= |kids| && moved.BranchShape? && moved.kids == kids[at..]
    ensures KidLines(kids[..at]) + KidLines([moved] + others) == KidLines(kids) + KidLines(others)
  {
    hide KidLines;
    KidsCut(kids, at);
    OneMore(moved, others);
    NodesOfBranch(moved);
    Associates(KidLines(kids[..at]), KidLines(kids[at..]), KidLines(others));
  }

  lemma SpilledNodes(kept: Shape, rest: Shape, moved: Shape, others: seq<Shape>)
    requires kept.BranchShape? && |kept.kids| >= SPILL
    requires rest == BranchShape(kept.node, kept.kids[..|kept.kids| - SPILL])
    requires moved.BranchShape? && moved.kids == kept.kids[|kept.kids| - SPILL..]
    requires Distinct(NodesOf(kept) + KidNodes(others)) && moved.node !in NodesOf(kept) + KidNodes(others)
    ensures Distinct(NodesOf(rest) + KidNodes([moved] + others))
    ensures forall c :: c in NodesOf(rest) + KidNodes([moved] + others) ==>
              c in NodesOf(kept) + KidNodes(others) || c == moved.node
  {
    hide KidNodes, Distinct;
    var at := |kept.kids| - SPILL;
    var stay, go := kept.kids[..at], kept.kids[at..];
    KidsCut(kept.kids, at);
    OneMore(moved, others);
    var a, b := [kept.node] + KidNodes(stay), KidNodes(go) + KidNodes(others);
    assert NodesOf(kept) + KidNodes(others) == a + b;
    assert NodesOf(rest) + KidNodes([moved] + others) == a + [moved.node] + b;
    DistinctInsert(a, moved.node, b);
  }

  lemma SpilledShapes(s: Shape, kept: Shape, rest: Shape, moved: Shape, others: seq<Shape>)
    requires Spilling(s, kept, others) && |kept.kids| > BRANCH_LIMIT
    requires rest == BranchShape(kept.node, kept.kids[..|kept.kids| - SPILL])
    requires moved.BranchShape? && moved.kids == kept.kids[|kept.kids| - SPILL..]
    requires moved.node !in NodesOf(kept) + KidNodes(others)
    ensures Spilling(s, rest, [moved] + others)
    ensures forall c :: c in NodesOf(rest) + KidNodes([moved] + others) ==>
              c in NodesOf(kept) + KidNodes(others) || c == moved.node
  {
    hide KidLines, KidNodes, NodesOf, LinesOf, Distinct;
    var at := |kept.kids| - SPILL;
    SpilledLines(kept.kids, at, moved, others);
    SpilledNodes(kept, rest, moved, others);
    assert forall k :: k in moved.kids ==> k in kept.kids;
    assert forall k :: k in rest.kids ==> k in kept.kids;
    assert Bounded(moved);
  }

  lemma OneMore(s: Shape, others: seq<Shape>)
    ensures KidLines([s] + others) == LinesOf(s) + KidLines(others)
    ensures KidNodes([s] + others) == NodesOf(s) + KidNodes(others)
  {
    assert ([s] + others)[1..] == others;
  }

  lemma DistinctInsert<T>(a: seq<T>, x: T, b: seq<T>)
    requires Distinct(a + b) && x !in a + b
    ensures Distinct(a + [x] + b)
  {
    var all, more := a + b, a + [x] + b;
    forall i, j | 0 <= i < j < |more|
      ensures more[i] != more[j]
    {
      var i0, j0 := if i < |a| then i else i - 1, if j < |a| then j else j - 1;
      assert i != |a| ==> more[i] == all[i0];
      assert j != |a| ==> more[j] == all[j0];
    }
  }

  lemma SpillEnds(s: Shape, kept: Shape, others: seq<Shape>)
    requires Spilling(s, kept, others) && Built(kept) && AllBuilt(others) && |kept.kids| <= BRANCH_LIMIT
    ensures var parts := [kept] + others;
            && AllBuilt(parts) && AllBounded(parts) && (forall p :: p in parts ==> p.BranchShape?)
            && KidLines(parts) == LinesOf(s) && KidNodes(parts) == NodesOf(kept) + KidNodes(others)
            && Distinct(KidNodes(parts))
            && (|s.kids| <= 10 ==> parts == [s])
            && (|s.kids| > 10 ==> SpilledByFives(s, parts))
  {
    hide Built, Distinct;
    OneMore(kept, others);
    AllBuiltOne(kept);
    AllBuiltJoin([kept], others);
  }

  /** maybeSpill at the top, which becomes the parent of its own former children's branches,
      until it has at most ten children itself. */
  method MaybeSpillTop(top: Chunk, ghost s: Shape) returns (ghost t: Shape)
    requires s.BranchShape? && top == s.node && Built(s) && Distinct(NodesOf(s)) && s.kids != [] && AllBounded(s.kids)
    modifies Chunks(s)
    ensures t.BranchShape? && t.node == top && Built(t) && Bounded(t) && LinesOf(t) == LinesOf(s)
    ensures Distinct(NodesOf(t)) && OldOrNew(NodesOf(t), s) && top.parent == old(top.parent)
  {
    hide Built, AllBuilt, KidLines, KidNodes, LinesOf, NodesOf, Below, Weighed, Under, Distinct, AllBounded;
    t := s;
    BuiltParts(s);
    while |top.children| > BRANCH_LIMIT
      invariant t.BranchShape? && t.node == top && Built(t) && t.kids != [] && AllBounded(t.kids)
      invariant LinesOf(t) == LinesOf(s)
      invariant |top.children| == |t.kids| && top.parent == old(top.parent)
      invariant Distinct(NodesOf(t)) && OldOrNew(NodesOf(t), s)
      decreases |t.kids|
    {
      TopParts(t);
      t := SpillDown(top, t);
    }
    FewKids(t);
  }

  lemma FewKids(t: Shape)
    requires t.BranchShape? && 1 <= |t.kids| <= BRANCH_LIMIT && AllBounded(t.kids)
    ensures Bounded(t)
  {
  }

  lemma TopParts(s: Shape)
    requires s.BranchShape? && Built(s) && Distinct(NodesOf(s))
    ensures NodesOf(s) == [s.node] + KidNodes(s.kids) && LinesOf(s) == KidLines(s.kids)
    ensures Distinct(KidNodes(s.kids)) && s.node !in KidNodes(s.kids)
    ensures forall c :: c in s.node.children ==> c in KidNodes(s.kids) && c in NodesOf(s)
  {
    hide Built, Distinct;
    BuiltParts(s);
    TopsAreWithin(s.kids);
    assert NodesOf(s) == [s.node] + (KidNodes(s.kids) + []);
    ApartFromRest([s.node], KidNodes(s.kids), []);
    DistinctPart([s.node], KidNodes(s.kids), []);
  }

  /** The children of the top move to a new branch below it, which spills. */
  method SpillDown(top: Chunk, ghost s: Shape) returns (ghost t: Shape)
    requires s.BranchShape? && top == s.node && Built(s) && Distinct(NodesOf(s)) && AllBounded(s.kids)
    requires |s.kids| > BRANCH_LIMIT
    modifies top`children, SetOf(top.children)`parent
    ensures t.BranchShape? && t.node == top && Built(t) && AllBounded(t.kids) && LinesOf(t) == LinesOf(s)
    ensures 0 < |t.kids| < |s.kids| && |top.children| == |t.kids|
    ensures Distinct(NodesOf(t)) && OldOrNew(NodesOf(t), s) && top.parent == old(top.parent)
  {
    hide Built, AllBuilt, KidLines, KidNodes, Bounded, LinesOf, NodesOf, Below, Weighed, Under, Distinct, AllBounded;
    BuiltParts(s);
    TopParts(s);
    AllExist(s.kids);
    ObjectsExist(s);
    ghost var heights := Heights(KidLines(s.kids));
    var copy := CopyBelow(top, s);
    ghost var below := BranchShape(copy, s.kids);
    ObjectsExist(below);
    NodesOfBranch(below);
    BuiltParts(below);
    var siblings;
    ghost var parts;
    siblings, parts := MaybeSpill(copy, below);
    assert Heights(KidLines(parts)) == heights;
    AllExist(parts);
    UnderIsBelow(parts);
    top.children := [copy] + siblings;
    assert AllBuilt(parts) && Heights(KidLines(parts)) == heights;
    t := BranchShape(top, parts);
    BranchIsBuilt(t);
    NodesOfBranch(t);
    DistinctJoin([top], KidNodes(parts));
  }

  method CopyBelow(top: Chunk, ghost s: Shape) returns (copy: Chunk)
    requires s.BranchShape? && top == s.node && Built(s) && Distinct(NodesOf(s))
    modifies SetOf(top.children)`parent
    ensures fresh(copy) && copy.parent == top && copy.children == top.children && Built(BranchShape(copy, s.kids))
    ensures Distinct(NodesOf(BranchShape(copy, s.kids)))
  {
    hide Built, AllBuilt, KidLines, KidNodes, Bounded, LinesOf, NodesOf, Below, Weighed, Under, Distinct, AllBounded;
    BuiltParts(s);
    TopParts(s);
    AllExist(s.kids);
    copy := NewBranch(top.children, s.kids);
    ghost var below := BranchShape(copy, s.kids);
    FrameOfBranch(below);
    copy.parent := top;
    assert Built(below);
    BuiltParts(below);
    NodesOfBranch(below);
    DistinctJoin([copy], KidNodes(s.kids));
  }

  // ----- inserting -----

  /** The child that insertInner descends into: the first that holds position `at`. */
  method ChildFor(b: Chunk, at: nat, ghost s: Shape) returns (i: nat, rest: nat)
    requires s.BranchShape? && b == s.node && Built(s) && s.kids != [] && at <= |KidLines(s.kids)|
    ensures i < |b.children| && |b.children| == |s.kids| && b.children[i] == s.kids[i].node
    ensures at == |KidLines(s.kids[..i])| + rest && rest <= |LinesOf(s.kids[i])|
  {
    hide Built, Below, Weighed, KidLines, LinesOf;
    i, rest := 0, at;
    NothingBeforeKids(s.kids);
    CountedKid(s, 0);
    while rest > b.children[i].ChunkSize()
      invariant i < |s.kids| && |b.children| == |s.kids| && b.children[i] == s.kids[i].node && Built(s)
      invariant b.children[i].ChunkSize() == |LinesOf(s.kids[i])|
      invariant at == |KidLines(s.kids[..i])| + rest && rest <= |KidLines(s.kids[i..])|
      decreases |s.kids| - i
    {
      KidsFrom(s.kids, i);
      KidsUpTo(s.kids, i);
      SomeKid(s.kids[i + 1..]);
      rest := rest - b.children[i].ChunkSize();
      i := i + 1;
      CountedKid(s, i);
    }
  }

  lemma NothingBeforeKids(kids: seq<Shape>)
    ensures KidLines(kids[..0]) == [] && kids[0..] == kids
  {
  }

  lemma CountedKid(s: Shape, i: nat)
    requires s.BranchShape? && Built(s) && i < |s.kids|
    ensures |s.node.children| == |s.kids| && s.node.children[i] == s.kids[i].node
    ensures s.kids[i].node.parent == s.node && Built(s.kids[i]) && s.kids[i].node.ChunkSize() == |LinesOf(s.kids[i])|
    ensures s.kids[i].node.isLeaf == s.kids[i].LeafShape?
  {
    KidOf(s, s.node.parent, i);
    NodeOf(s.kids[i], s.node);
  }

  lemma InsertedDistinct<T>(s: seq<T>, at: nat, more: seq<T>)
    requires at <= |s| && Distinct(s + more)
    ensures Distinct(Inserted(s, at, more)) && Distinct(s) && Distinct(more)
  {
    hide Distinct;
    var a, b := s[..at], s[at..];
    assert s + more == a + (b + []) + more && s + more == [] + (s + more) && s + more == s + (more + []);
    PickPart(a, b, [], more);
    DistinctPart([], s, more);
    DistinctPart(s, more, []);
    assert s == [] + (a + b);
    DistinctPart([], a, b);
    assert b + more == [] + (b + more);
    ApartFromRest([], b, more);
    DistinctJoin(more, b);
    DistinctJoin(a, more + b);
    assert Inserted(s, at, more) == a + (more + b);
  }

  /** One child takes the lines, and splits or spills if that makes it too large. */
  method GrowChild(child: Chunk, at: nat, lines: seq<Line>, height: real, ghost k: Shape)
    returns (more: seq<Chunk>, ghost parts: seq<Shape>)
    requires child == k.node && Built(k) && Bounded(k) && Distinct(NodesOf(k)) && Distinct(LinesOf(k) + lines)
    requires at <= |LinesOf(k)| && height == Sum(Heights(lines))
    modifies Chunks(k), LineSet(k)`parent, SetOf(lines)`parent
    ensures AreTops([child] + more, parts) && AllBuilt(parts) && AllBounded(parts)
    ensures KidLines(parts) == Inserted(LinesOf(k), at, lines)
    ensures Distinct(KidNodes(parts)) && OldOrNew(KidNodes(parts), k)
    ensures child.parent == old(child.parent) && forall c :: c in more ==> fresh(c) && c.parent == child.parent
    decreases k, 2
  {
    hide Built, AllBuilt, KidLines, KidNodes, Bounded, LinesOf, NodesOf, Below, Weighed, Under, Distinct, AllBounded,
         Inserted;
    BuiltKind(k);
    if child.isLeaf {
      more, parts := GrowLeaf(child, at, lines, height, k);
    } else {
      ghost var grown := InsertInner(child, at, lines, height, k);
      BuiltParts(grown);
      TopParts(grown);
      more, parts := MaybeSpill(child, grown);
    }
  }

  lemma BuiltKind(s: Shape)
    requires Built(s)
    ensures s.node.isLeaf == s.LeafShape?
    ensures s.LeafShape? ==> LinesOf(s) == s.lines && NodesOf(s) == [s.node] && s.node.lines == s.lines
    ensures s.LeafShape? ==> s.node in Chunks(s) && LineSet(s) == SetOf(s.lines)
  {
  }

  method GrowLeaf(child: Chunk, at: nat, lines: seq<Line>, height: real, ghost k: Shape)
    returns (more: seq<Chunk>, ghost parts: seq<Shape>)
    requires k.LeafShape? && child == k.node && Built(k) && Distinct(k.lines + lines)
    requires at <= |k.lines| && height == Sum(Heights(lines))
    modifies child`lines, child`height, SetOf(k.lines)`parent, SetOf(lines)`parent
    ensures AreTops([child] + more, parts) && AllBuilt(parts) && AllBounded(parts)
    ensures KidLines(parts) == Inserted(k.lines, at, lines)
    ensures Distinct(KidNodes(parts)) && forall c :: c in KidNodes(parts) ==> c == child || fresh(c)
    ensures child.parent == old(child.parent) && forall c :: c in more ==> fresh(c) && c.parent == child.parent
  {
    hide Built, AllBuilt, KidLines, KidNodes, LinesOf, NodesOf, Below, Weighed, Under, Distinct;
    LeafOf(k);
    InsertIntoLeaf(child, at, lines, height, k);
    ghost var grown := LeafShape(child, Inserted(k.lines, at, lines));
    InsertedDistinct(k.lines, at, lines);
    LeafOf(grown);
    if |child.lines| > LEAF_LIMIT {
      more, parts := SplitLeaf(child, grown);
    } else {
      more, parts := [], [grown];
      AllBuiltOne(grown);
      NodesOfLeaf(grown);
    }
  }

  lemma NodesOfLeaf(s: Shape)
    requires s.LeafShape?
    ensures NodesOf(s) == [s.node] && LinesOf(s) == s.lines && Distinct(NodesOf(s))
    ensures Chunks(s) == {s.node} && Under(s) == {} && LineSet(s) == SetOf(s.lines)
  {
  }

  lemma PickPart<T>(b: seq<T>, k: seq<T>, a: seq<T>, m: seq<T>)
    requires Distinct(b + (k + a) + m)
    ensures Distinct(k) && Distinct(k + m)
    ensures forall x :: x in b ==> x !in k && x !in m
    ensures forall x :: x in a ==> x !in k && x !in m
  {
    var all := b + (k + a) + m;
    assert all == b + (k + (a + m)) && all == (b + k) + (a + m) && all == (b + k) + (a + (m + []));
    ApartFromRest(b, k, a + m);
    ApartFromRest(b + k, a, m);
    DistinctPart(b, k, a + m);
    assert all == (b + k + a) + (m + []);
    ApartFromRest(b + k + a, m, []);
    DistinctPart(b + k + a, m, []);
    DistinctJoin(k, m);
  }

  /** What is needed to let the child at i grow. */
  lemma GrowReady(s: Shape, i: nat, lines: seq<Line>)
    requires s.BranchShape? && Built(s) && Bounded(s) && Distinct(NodesOf(s)) && Distinct(LinesOf(s) + lines)
    requires i < |s.kids|
    ensures var k := s.kids[i];
            && Built(k) && Bounded(k) && Distinct(NodesOf(k)) && Distinct(LinesOf(k) + lines)
            && Chunks(k) <= Chunks(s) && LineSet(k) <= LineSet(s) && s.node !in Chunks(k) && s.node in Chunks(s)
    ensures Aside(s, s.kids[..i], s.kids[i], lines) && Aside(s, s.kids[i + 1..], s.kids[i], lines)
  {
    hide KidLines, KidNodes, Distinct, Built;
    var k, before, after := s.kids[i], s.kids[..i], s.kids[i + 1..];
    assert k in s.kids;
    BuiltParts(s);
    TopParts(s);
    WithinParent(s, i);
    KidsAround(s.kids, i);
    assert KidNodes(s.kids) == KidNodes(before) + (NodesOf(k) + KidNodes(after)) + [];
    PickPart(KidNodes(before), NodesOf(k), KidNodes(after), []);
    PickPart(KidLines(before), LinesOf(k), KidLines(after), lines);
    AllBuiltPart(s.kids, 0, i);
    AllBuiltPart(s.kids, i + 1, |s.kids|);
    UnderIsBelow(before);
    UnderIsBelow(after);
    TopsAreWithin(before);
    TopsAreWithin(after);
    assert forall c :: c in KidNodes(before) ==> c in KidNodes(s.kids);
    assert forall c :: c in KidNodes(after) ==> c in KidNodes(s.kids);
  }

  /** The children that stay as they are while one of them grows. */
  ghost predicate Aside(s: Shape, kids: seq<Shape>, grows: Shape, lines: seq<Line>)
    reads s.node`children, NodeSet(kids), LinesIn(kids)
  {
    TopsAreWithin(kids);
    UnderIsBelow(kids);
    && AllBuilt(kids) && AllBounded(kids)
    && (forall k :: k in kids ==> k.node.parent == s.node && k.node in NodeSet(kids))
    && s.node !in NodeSet(kids) && NodeSet(kids) !! Chunks(grows) && UnderAll(kids) <= NodeSet(kids)
    && LinesIn(kids) !! LineSet(grows) && LinesIn(kids) !! SetOf(lines)
  }

  method InsertInner(b: Chunk, at: nat, lines: seq<Line>, height: real, ghost s: Shape) returns (ghost t: Shape)
    requires s.BranchShape? && b == s.node && Built(s) && Bounded(s)
    requires Distinct(NodesOf(s)) && Distinct(LinesOf(s) + lines)
    requires at <= |LinesOf(s)| && height == Sum(Heights(lines))
    modifies Chunks(s), LineSet(s)`parent, SetOf(lines)`parent
    ensures t.BranchShape? && t.node == b && Built(t) && t.kids != [] && AllBounded(t.kids)
    ensures LinesOf(t) == Inserted(LinesOf(s), at, lines)
    ensures Distinct(NodesOf(t)) && OldOrNew(NodesOf(t), s) && b.parent == old(b.parent)
    decreases s, 1
  {
    hide Built, AllBuilt, KidLines, KidNodes, Bounded, LinesOf, NodesOf, Below, Weighed, Under, Distinct, AllBounded;
    hide Sum, Heights;
    SomeKids(s);
    ShapeExists(s);
    var i, rest := ChildFor(b, at, s);
    ghost var before, after, heights := s.kids[..i], s.kids[i + 1..], Heights(LinesOf(s));
    BuiltParts(s);
    WithinBranch(s, i);
    var more;
    ghost var parts;
    more, parts := GrowBeside(b, i, rest, lines, height, s);
    assert Heights(LinesOf(s)) == heights;
    AllExist(before);
    AllExist(parts);
    AllExist(after);
    b.size := b.size + |lines|;
    b.height := b.height + height;
    GrownLines(s.kids, i, at, rest, lines, parts);
    GrownNodes(s, i, parts);
    InsertedWeighs(LinesOf(s), at, lines);
    assert AllBuilt(before) && AllBuilt(parts) && AllBuilt(after);
    t := SpliceChild(b, i, more, before, parts, after);
    BoundedJoin(before, parts, after);
    NodesOfBranch(t);
  }

  /** The child at i grows; its siblings stay as they are. */
  method GrowBeside(b: Chunk, i: nat, at: nat, lines: seq<Line>, height: real, ghost s: Shape)
    returns (more: seq<Chunk>, ghost parts: seq<Shape>)
    requires s.BranchShape? && b == s.node && Built(s) && Bounded(s) && Distinct(NodesOf(s))
    requires Distinct(LinesOf(s) + lines)
    requires i < |b.children| == |s.kids| && at <= |LinesOf(s.kids[i])| && height == Sum(Heights(lines))
    modifies Chunks(s.kids[i]), LineSet(s.kids[i])`parent, SetOf(lines)`parent
    ensures Chunks(s.kids[i]) <= Chunks(s) && LineSet(s.kids[i]) <= LineSet(s) && b !in Chunks(s.kids[i])
    ensures AreTops([b.children[i]] + more, parts) && AllBuilt(parts) && AllBounded(parts)
    ensures KidLines(parts) == Inserted(LinesOf(s.kids[i]), at, lines)
    ensures Distinct(KidNodes(parts)) && OldOrNew(KidNodes(parts), s.kids[i])
    ensures forall c :: c in KidNodes(parts) ==> c in NodesOf(s.kids[i]) || c !in NodesOf(s)
    ensures Beside(b, s.kids[..i]) && Beside(b, s.kids[i + 1..]) && Beside(b, parts)
    decreases s, 0
  {
    hide Built, AllBuilt, KidLines, KidNodes, Bounded, LinesOf, NodesOf, Below, Weighed, Under, Distinct, AllBounded,
         Sum, Heights;
    GrowReady(s, i, lines);
    BuiltParts(s);
    AllExist(s.kids[..i]);
    AllExist(s.kids[i + 1..]);
    ShapeExists(s);
    assert b.children[i] == s.kids[i].node && s.kids[i] in s.kids;
    more, parts := GrowChild(b.children[i], at, lines, height, s.kids[i]);
    AllExist(parts);
    UnderIsBelow(parts);
  }

  /** Children of a branch that stay right when the branch itself is changed. */
  ghost predicate Beside(b: Chunk, kids: seq<Shape>)
    reads NodeSet(kids), LinesIn(kids)
  {
    TopsAreWithin(kids);
    UnderIsBelow(kids);
    && AllBuilt(kids) && AllBounded(kids) && b !in NodeSet(kids) && UnderAll(kids) <= NodeSet(kids)
    && forall k :: k in kids ==> k.node.parent == b
  }

  lemma WithinBranch(s: Shape, i: nat)
    requires s.BranchShape? && i < |s.kids|
    ensures Chunks(s.kids[i]) <= Chunks(s) && LineSet(s.kids[i]) <= LineSet(s) && s.node in Chunks(s)
  {
    WithinParent(s, i);
    NodeFirst(s);
  }

  lemma BoundedJoin(a: seq<Shape>, b: seq<Shape>, c: seq<Shape>)
    requires AllBounded(a) && AllBounded(b) && AllBounded(c)
    ensures AllBounded(a + b + c)
  {
  }

  /** The children at i becomes several. */
  method SpliceChild(b: Chunk, i: nat, more: seq<Chunk>, ghost before: seq<Shape>, ghost parts: seq<Shape>,
                     ghost after: seq<Shape>)
    returns (ghost t: Shape)
    requires i < |b.children| && AreTops(b.children[..i], before) && AreTops(b.children[i + 1..], after)
    requires AreTops([b.children[i]] + more, parts)
    requires AllBuilt(before) && AllBuilt(parts) && AllBuilt(after) && !b.isLeaf
    requires b !in NodeSet(before) && b !in NodeSet(parts) && b !in NodeSet(after)
    requires forall k :: k in before + parts + after ==> k.node.parent == b
    requires b.size == |KidLines(before + parts + after)|
    requires b.height == Sum(Heights(KidLines(before + parts + after)))
    modifies b`children
    ensures t == BranchShape(b, before + parts + after) && Built(t)
  {
    hide Built, AllBuilt, KidLines, KidNodes, Bounded, LinesOf, NodesOf, Below, Weighed, Under, Distinct, Sum, Heights;
    b.children := b.children[..i + 1] + more + b.children[i + 1..];
    assert AllBuilt(before) && AllBuilt(parts) && AllBuilt(after);
    t := BranchShape(b, before + parts + after);
    AllBuiltJoin(before, parts);
    AllBuiltJoin(before + parts, after);
    BranchIsBuilt(t);
  }

  lemma GrownLines(kids: seq<Shape>, i: nat, at: nat, rest: nat, lines: seq<Line>, parts: seq<Shape>)
    requires i < |kids| && at == |KidLines(kids[..i])| + rest <= |KidLines(kids)| && rest <= |LinesOf(kids[i])|
    requires KidLines(parts) == Inserted(LinesOf(kids[i]), rest, lines)
    ensures KidLines(kids[..i] + parts + kids[i + 1..]) == Inserted(KidLines(kids), at, lines)
  {
    hide KidLines, LinesOf;
    var before, after := kids[..i], kids[i + 1..];
    KidsAround(kids, i);
    KidLinesConcat(before, parts);
    KidLinesConcat(before + parts, after);
    Associates(KidLines(before), LinesOf(kids[i]), KidLines(after));
    InsertedWithin(KidLines(before), LinesOf(kids[i]), KidLines(after), rest, lines);
  }

  /** A part of a list of different elements gives way to others that are not elsewhere in it. */
  lemma SwapPart<T>(a: seq<T>, n: seq<T>, c: seq<T>, p: seq<T>)
    requires Distinct(a + (n + c)) && Distinct(p) && forall x :: x in p ==> x in n || x !in a + (n + c)
    ensures Distinct(a + (p + c)) && forall x :: x in a ==> x !in p
  {
    hide Distinct;
    var all := a + (n + c);
    assert all == all + [] && all == [] + all && all == (a + n) + (c + []);
    PickPart(a, n, c, []);
    DistinctPart([], a, n + c);
    ApartFromRest([], a, n + c);
    DistinctPart(a + n, c, []);
    assert forall x :: x in a || x in c ==> x in all;
    DistinctJoin(p, c);
    DistinctJoin(a, p + c);
  }

  /** The nodes stay different when the child at i becomes several. */
  lemma GrownNodes(s: Shape, i: nat, parts: seq<Shape>)
    requires s.BranchShape? && i < |s.kids| && Distinct(NodesOf(s)) && Distinct(KidNodes(parts))
    requires forall c :: c in KidNodes(parts) ==> c in NodesOf(s.kids[i]) || c !in NodesOf(s)
    ensures var t := BranchShape(s.node, s.kids[..i] + parts + s.kids[i + 1..]);
            && Distinct(NodesOf(t)) && s.node !in NodeSet(parts)
            && forall c :: c in NodesOf(t) ==> c in NodesOf(s) || (c in KidNodes(parts) && c !in NodesOf(s.kids[i]))
  {
    hide KidNodes, Distinct;
    WithinParent(s, i);
    var before, k, after := s.kids[..i], s.kids[i], s.kids[i + 1..];
    var a, n, c, p := [s.node] + KidNodes(before), NodesOf(k), KidNodes(after), KidNodes(parts);
    KidsAround(s.kids, i);
    KidNodesConcat(before, parts);
    KidNodesConcat(before + parts, after);
    assert NodesOf(s) == a + (n + c);
    SwapPart(a, n, c, p);
    assert [s.node] + (KidNodes(before) + p + c) == a + (p + c);
    assert s.node in a;
  }

  lemma ShapeExists(s: Shape)
    ensures forall c :: c in NodesOf(s) ==> allocated(c)
    ensures forall c :: c in Chunks(s) ==> allocated(c)
    ensures forall c :: c in Under(s) ==> allocated(c)
    ensures forall l :: l in LineSet(s) ==> allocated(l)
  {
    ObjectsExist(s);
    UnderIsWithin(s);
  }

  lemma SomeKids(s: Shape)
    requires s.BranchShape? && Bounded(s)
    ensures s.kids != [] && LinesOf(s) == KidLines(s.kids)
  {
  }

  // ----- removing -----

  method RemoveFromLeaf(leaf: Chunk, at: nat, n: nat, ghost k: Shape)
    requires k.LeafShape? && leaf == k.node && Built(k) && Distinct(k.lines) && at + n <= |k.lines|
    modifies leaf`lines, leaf`height, SetOf(k.lines)`parent
    ensures Built(LeafShape(leaf, Removed(k.lines, at, n)))
    ensures forall l :: l in k.lines && l !in Removed(k.lines, at, n) ==> l.parent == null
  {
    hide Sum, Heights;
    LeafOf(k);
    RemovedWeighs(k.lines, at, n);
    assert k.lines[at..at] == [];
    NothingWeighs();
    for i := at to at + n
      invariant leaf.isLeaf && leaf.lines == k.lines
      invariant leaf.height == Sum(Heights(k.lines)) - Sum(Heights(k.lines[at..i]))
      invariant forall j :: 0 <= j < |k.lines| ==> k.lines[j].parent == if at <= j < i then null else leaf
    {
      var line := leaf.lines[i];
      WeighsNext(k.lines, at, i);
      leaf.height := leaf.height - line.height;
      line.parent := null;
    }
    leaf.lines := leaf.lines[..at] + leaf.lines[at + n..];
    LeafIsBuilt(LeafShape(leaf, Removed(k.lines, at, n)));
  }

  lemma WeighsNext(lines: seq<Line>, i: nat, j: nat)
    requires i <= j < |lines|
    ensures Sum(Heights(lines[i..j + 1])) == Sum(Heights(lines[i..j])) + lines[j].height
  {
    assert lines[i..j + 1] == lines[i..j] + [lines[j]];
    WeighsBoth(lines[i..j], [lines[j]]);
  }

  lemma WeighsThree(a: seq<Line>, b: seq<Line>, c: seq<Line>)
    ensures Sum(Heights((a + b) + c)) == Sum(Heights(a + c)) + Sum(Heights(b))
  {
    hide Sum, Heights;
    WeighsBoth(a, b);
    WeighsBoth(a + b, c);
    WeighsBoth(a, c);
  }

  lemma RemovedWeighs(lines: seq<Line>, at: nat, n: nat)
    requires at + n <= |lines|
    ensures Sum(Heights(lines)) == Sum(Heights(Removed(lines, at, n))) + Sum(Heights(lines[at..at + n]))
  {
    hide Sum, Heights;
    var a, b, c := lines[..at], lines[at..at + n], lines[at + n..];
    assert lines == (a + b) + c && Removed(lines, at, n) == a + c;
    WeighsThree(a, b, c);
  }

  /** All lines below a node are appended to a list. */
  method Collapse(c: Chunk, lines: seq<Line>, ghost s: Shape) returns (all: seq<Line>)
    requires c == s.node && Built(s)
    ensures all == lines + LinesOf(s)
    decreases s
  {
    hide Built, KidLines, LinesOf, Below, Weighed;
    BuiltKind(s);
    if c.isLeaf {
      return lines + c.lines;
    }
    all := lines;
    NodesOfBranch(s);
    BuiltParts(s);
    ShapeExists(s);
    NothingBeforeKids(s.kids);
    for i := 0 to |c.children|
      invariant Built(s) && |c.children| == |s.kids| && all == lines + KidLines(s.kids[..i])
    {
      CountedKid(s, i);
      KidsUpTo(s.kids, i);
      Associates(lines, KidLines(s.kids[..i]), LinesOf(s.kids[i]));
      all := Collapse(c.children[i], all, s.kids[i]);
    }
    assert s.kids[..|s.kids|] == s.kids;
  }

  /** A branch left with fewer than 25 lines becomes the parent of a single leaf. */
  method CollapseIfSmall(b: Chunk, ghost s: Shape) returns (ghost t: Shape)
    requires s.BranchShape? && b == s.node && Built(s) && Distinct(NodesOf(s)) && |s.kids| <= BRANCH_LIMIT
    requires AllBounded(s.kids)
    modifies b`children, LineSet(s)`parent
    ensures t.BranchShape? && t.node == b && Built(t) && Bounded(t) && LinesOf(t) == LinesOf(s)
    ensures Distinct(NodesOf(t)) && OldOrNew(NodesOf(t), s)
    ensures |LinesOf(s)| < 25 ==> |t.kids| == 1 && t.kids[0].LeafShape?
    ensures |LinesOf(s)| >= 25 ==> t == s
  {
    hide Built, AllBuilt, KidLines, KidNodes, LinesOf, NodesOf, Below, Weighed, Under, Distinct, Sum, Heights;
    t := s;
    SizeOfBranch(s);
    if b.size < SLICE && !(|b.children| == 1 && b.children[0].isLeaf) {
      ShapeExists(s);
      var lines := Collapse(b, [], s);
      assert lines == LinesOf(s);
      var children := MoveToLeaf(b, lines, s);
      ghost var leaf := LeafShape(children[0], lines);
      NodesOfLeaf(leaf);
      b.children := children;
      assert Built(leaf);
      t := BranchShape(b, [leaf]);
      SingleLeaf(t);
      NodeFirst(s);
    }
  }

  lemma SizeOfBranch(s: Shape)
    requires s.BranchShape? && Built(s)
    ensures s.node.size == |LinesOf(s)| && s.node.height == Sum(Heights(LinesOf(s))) && !s.node.isLeaf
    ensures |s.node.children| == |s.kids|
    ensures |s.kids| == 1 ==> s.node.children[0].isLeaf == s.kids[0].LeafShape?
    ensures 1 <= |s.kids| <= BRANCH_LIMIT && AllBounded(s.kids) ==> Bounded(s)
    ensures s.kids == [] ==> |LinesOf(s)| == 0
  {
    BuiltParts(s);
    if |s.kids| == 1 {
      CountedKid(s, 0);
    }
  }

  method MoveToLeaf(b: Chunk, lines: seq<Line>, ghost s: Shape) returns (children: seq<Chunk>)
    requires s.BranchShape? && b == s.node && lines == LinesOf(s)
    modifies LineSet(s)`parent
    ensures |children| == 1 && fresh(children[0]) && children[0].parent == b && Built(LeafShape(children[0], lines))
  {
    hide Built;
    var leaf := NewLeaf(lines);
    LeafOf(LeafShape(leaf, lines));
    leaf.parent := b;
    LeafIsBuilt(LeafShape(leaf, lines));
    children := [leaf];
  }

  lemma SingleLeaf(t: Shape)
    requires t.BranchShape? && |t.kids| == 1 && t.kids[0].LeafShape? && Built(t.kids[0]) && |t.kids[0].lines| < SLICE
    requires t.node.children == [t.kids[0].node] && t.kids[0].node.parent == t.node && t.node != t.kids[0].node
    requires !t.node.isLeaf && t.node.size == |t.kids[0].lines| && t.node.height == Sum(Heights(t.kids[0].lines))
    ensures Built(t) && Bounded(t) && LinesOf(t) == t.kids[0].lines && NodesOf(t) == [t.node, t.kids[0].node]
    ensures Distinct(NodesOf(t))
  {
    hide Built;
    OneMore(t.kids[0], []);
    assert t.kids == [t.kids[0]] + [];
    assert KidLines(t.kids) == t.kids[0].lines;
    BranchIsBuilt(t);
  }

  /** A line that has been removed has no parent. */
  ghost predicate Detached(was: seq<Line>, now: seq<Line>)
    reads SetOf(was)`parent
  {
    forall l :: l in was && l !in now ==> l.parent == null
  }

  method ShrinkChild(child: Chunk, at: nat, n: nat, ghost k: Shape) returns (ghost r: Shape)
    requires child == k.node && Built(k) && Bounded(k) && Distinct(NodesOf(k)) && Distinct(LinesOf(k))
    requires at + n <= |LinesOf(k)|
    modifies Chunks(k), LineSet(k)`parent
    ensures r.node == child && Built(r) && Bounded(r) && LinesOf(r) == Removed(LinesOf(k), at, n)
    ensures Distinct(NodesOf(r)) && OldOrNew(NodesOf(r), k) && child.parent == old(child.parent)
    ensures Detached(LinesOf(k), LinesOf(r))
    decreases k, 3
  {
    hide Built, LinesOf, NodesOf, Below, Weighed, Under, Distinct;
    BuiltKind(k);
    if child.isLeaf {
      RemoveFromLeaf(child, at, n, k);
      r := LeafShape(child, Removed(k.lines, at, n));
      NodesOfLeaf(r);
    } else {
      r := RemoveInner(child, at, n, k);
    }
  }

  /** Where a removal stands, in shapes: the children kept are finished, and `rest` lines
      from position `from` of the children left, which are as they were, are to go. */
  ghost predicate Shrinking(s: Shape, target: seq<Line>, kept: seq<Shape>, left: seq<Shape>, from: nat, rest: nat) {
    && s.BranchShape? && |kept| + |left| <= |s.kids| && left == s.kids[|s.kids| - |left|..]
    && AllBounded(kept) && AllBounded(left)
    && Distinct(NodesOf(s)) && Distinct([s.node] + (KidNodes(kept) + KidNodes(left)))
    && Distinct(KidLines(kept) + KidLines(left))
    && from + rest <= |KidLines(left)| && KidLines(kept) + Removed(KidLines(left), from, rest) == target
  }

  /** The same, in the objects: they are built as the shapes say, and the lines removed so
      far have no parent. */
  ghost predicate ShrunkSoFar(b: Chunk, s: Shape, kept: seq<Shape>, left: seq<Shape>)
    reads b`isLeaf, b`children, b`height, NodeSet(kept), NodeSet(left), LinesIn(kept), LinesIn(left), LineSet(s)`parent
  {
    TopsAreWithin(kept);
    TopsAreWithin(left);
    UnderIsBelow(kept);
    UnderIsBelow(left);
    && AllBuilt(kept) && AllBuilt(left) && !b.isLeaf && AreTops(b.children, kept + left)
    && (forall k :: k in kept ==> k.node.parent == b) && (forall k :: k in left ==> k.node.parent == b)
    && b.height == Sum(Heights(KidLines(kept))) + Sum(Heights(KidLines(left)))
    && Detached(LinesOf(s), KidLines(kept) + KidLines(left))
  }

  lemma NextLeft(kept: seq<Shape>, left: seq<Shape>)
    requires left != []
    ensures KidLines(left) == LinesOf(left[0]) + KidLines(left[1..])
    ensures KidNodes(left) == NodesOf(left[0]) + KidNodes(left[1..])
    ensures KidLines(kept + [left[0]]) == KidLines(kept) + LinesOf(left[0])
    ensures KidNodes(kept + [left[0]]) == KidNodes(kept) + NodesOf(left[0])
    ensures kept + left == (kept + [left[0]]) + left[1..]
  {
    KidLinesConcat(kept, [left[0]]);
    KidNodesConcat(kept, [left[0]]);
    OneMore(left[0], []);
    assert [left[0]] + [] == [left[0]];
  }

  lemma ShrinkBegins(s: Shape, at: nat, n: nat)
    requires s.BranchShape? && Built(s) && Bounded(s) && Distinct(NodesOf(s)) && Distinct(LinesOf(s))
    requires at + n <= |LinesOf(s)|
    ensures Shrinking(s, Removed(LinesOf(s), at, n), [], s.kids, at, n) && ShrunkSoFar(s.node, s, [], s.kids)
    ensures s.node.size == |LinesOf(s)| && KidNodes([]) == [] && NodeSet([]) == {} && s.node !in NodeSet(s.kids)
  {
    hide Built, Sum, Heights;
    BuiltParts(s);
    TopParts(s);
    NothingWeighs();
    assert [] + s.kids == s.kids;
    assert [s.node] + (KidNodes([]) + KidNodes(s.kids)) == NodesOf(s);
    assert KidLines([]) + KidLines(s.kids) == LinesOf(s);
    assert [] + Removed(KidLines(s.kids), at, n) == Removed(LinesOf(s), at, n);
  }

  lemma SkipShapes(s: Shape, target: seq<Line>, kept: seq<Shape>, left: seq<Shape>, from: nat, n: nat)
    requires Shrinking(s, target, kept, left, from, n) && left != [] && |LinesOf(left[0])| <= from
    ensures Shrinking(s, target, kept + [left[0]], left[1..], from - |LinesOf(left[0])|, n)
  {
    hide KidLines, KidNodes, LinesOf, NodesOf, Distinct, Removed;
    var k, tail := left[0], left[1..];
    NextLeft(kept, left);
    Associates(KidLines(kept), LinesOf(k), KidLines(tail));
    Associates(KidNodes(kept), NodesOf(k), KidNodes(tail));
    RemovedBeyond(LinesOf(k), KidLines(tail), from, n);
    Associates(KidLines(kept), LinesOf(k), Removed(KidLines(tail), from - |LinesOf(k)|, n));
  }

  lemma SkipObjects(b: Chunk, s: Shape, kept: seq<Shape>, left: seq<Shape>)
    requires ShrunkSoFar(b, s, kept, left) && left != []
    ensures ShrunkSoFar(b, s, kept + [left[0]], left[1..])
  {
    hide KidLines, KidNodes, LinesOf, NodesOf, Sum, Heights, Built;
    var k, tail := left[0], left[1..];
    NextLeft(kept, left);
    AllBuiltPart(left, 1, |left|);
    assert k in left;
    AllBuiltOne(k);
    AllBuiltJoin(kept, [k]);
    Associates(KidLines(kept), LinesOf(k), KidLines(tail));
    WeighsBoth(KidLines(kept), LinesOf(k));
    WeighsBoth(LinesOf(k), KidLines(tail));
  }

  /** What is needed to let the first child left shrink. */
  lemma ShrinkReady(s: Shape, target: seq<Line>, kept: seq<Shape>, left: seq<Shape>, from: nat, n: nat)
    requires Shrinking(s, target, kept, left, from, n) && ShrunkSoFar(s.node, s, kept, left) && left != []
    ensures var k := left[0];
            && Built(k) && Bounded(k) && Distinct(NodesOf(k)) && Distinct(LinesOf(k))
            && s.BranchShape? && k in s.kids && Chunks(k) <= Chunks(s) && LineSet(k) <= LineSet(s)
            && s.node !in Chunks(k) && s.node in Chunks(s)
            && k.node.ChunkSize() == |LinesOf(k)| && k.node.height == Sum(Heights(LinesOf(k))) && k.node in Chunks(k)
            && Sum(Heights(KidLines(left))) == Sum(Heights(LinesOf(k))) + Sum(Heights(KidLines(left[1..])))
    ensures Aside(s, kept, left[0], []) && Aside(s, left[1..], left[0], [])
  {
    hide KidLines, KidNodes, Sum, Heights, Distinct, Removed;
    var k, tail := left[0], left[1..];
    assert k in left && k == s.kids[|s.kids| - |left|];
    NextLeft(kept, left);
    KidsAreWithin(s.kids);
    NodesOfBranch(s);
    NodeFirst(s);
    NodeFirst(k);
    NodeOf(k, k.node.parent);
    WeighsBoth(LinesOf(k), KidLines(tail));
    AllBuiltPart(left, 1, |left|);
    var b := [s.node] + KidNodes(kept);
    assert [s.node] + (KidNodes(kept) + KidNodes(left)) == b + (NodesOf(k) + KidNodes(tail)) + [];
    PickPart(b, NodesOf(k), KidNodes(tail), []);
    assert [s.node] + (KidNodes(kept) + KidNodes(left)) == [s.node] + ((KidNodes(kept) + KidNodes(left)) + []);
    ApartFromRest([s.node], KidNodes(kept) + KidNodes(left), []);
    assert KidLines(kept) + KidLines(left) == KidLines(kept) + (LinesOf(k) + KidLines(tail)) + [];
    PickPart(KidLines(kept), LinesOf(k), KidLines(tail), []);
    UnderIsBelow(kept);
    UnderIsBelow(tail);
    TopsAreWithin(kept);
    TopsAreWithin(tail);
  }

  /** The shapes after the first child left has given way to `parts`. */
  lemma ShrunkShapes(s: Shape, target: seq<Line>, kept: seq<Shape>, left: seq<Shape>, from: nat, n: nat, rm: nat,
                     parts: seq<Shape>)
    requires Shrinking(s, target, kept, left, from, n) && left != [] && from < |LinesOf(left[0])|
    requires rm == Min(n, |LinesOf(left[0])| - from) && |parts| <= 1 && AllBounded(parts)
    requires KidLines(parts) == Removed(LinesOf(left[0]), from, rm) && Distinct(KidNodes(parts))
    requires forall c :: c in KidNodes(parts) ==>
               c in NodesOf(left[0]) || c !in [s.node] + (KidNodes(kept) + KidNodes(left))
    ensures Shrinking(s, target, kept + parts, left[1..], 0, n - rm)
  {
    hide KidLines, KidNodes, LinesOf, NodesOf, Distinct, Removed, AllBounded;
    ShrunkNodes(s, kept, left, parts);
    ShrunkLines(kept, left, from, n, rm, parts);
    LaterLeft(s.kids, left);
    BoundedTwo(kept, parts);
  }

  lemma BoundedTwo(a: seq<Shape>, b: seq<Shape>)
    requires AllBounded(a) && AllBounded(b)
    ensures AllBounded(a + b)
  {
  }

  lemma LaterLeft(kids: seq<Shape>, left: seq<Shape>)
    requires 0 < |left| <= |kids| && left == kids[|kids| - |left|..]
    ensures left[1..] == kids[|kids| - |left[1..]|..]
    ensures AllBounded(left) ==> AllBounded(left[1..])
  {
  }

  lemma ShrunkNodes(s: Shape, kept: seq<Shape>, left: seq<Shape>, parts: seq<Shape>)
    requires left != [] && Distinct([s.node] + (KidNodes(kept) + KidNodes(left))) && Distinct(KidNodes(parts))
    requires forall c :: c in KidNodes(parts) ==>
               c in NodesOf(left[0]) || c !in [s.node] + (KidNodes(kept) + KidNodes(left))
    ensures Distinct([s.node] + (KidNodes(kept + parts) + KidNodes(left[1..])))
  {
    hide KidNodes, NodesOf, Distinct;
    NextLeft(kept, left);
    KidNodesConcat(kept, parts);
    var a, n, c, p := [s.node] + KidNodes(kept), NodesOf(left[0]), KidNodes(left[1..]), KidNodes(parts);
    assert [s.node] + (KidNodes(kept) + KidNodes(left)) == a + (n + c);
    SwapPart(a, n, c, p);
    assert [s.node] + ((KidNodes(kept) + p) + c) == a + (p + c);
  }

  lemma ShrunkLines(kept: seq<Shape>, left: seq<Shape>, from: nat, n: nat, rm: nat, parts: seq<Shape>)
    requires left != [] && from < |LinesOf(left[0])| && rm == Min(n, |LinesOf(left[0])| - from)
    requires Distinct(KidLines(kept) + KidLines(left)) && from + n <= |KidLines(left)|
    requires KidLines(parts) == Removed(LinesOf(left[0]), from, rm)
    ensures Distinct(KidLines(kept + parts) + KidLines(left[1..])) && n - rm <= |KidLines(left[1..])|
    ensures KidLines(kept + parts) + Removed(KidLines(left[1..]), 0, n - rm)
         == KidLines(kept) + Removed(KidLines(left), from, n)
  {
    hide Distinct, KidLines, LinesOf;
    NextLeft(kept, left);
    KidLinesConcat(kept, parts);
    var a, k, c, p := KidLines(kept), LinesOf(left[0]), KidLines(left[1..]), KidLines(parts);
    RemovedAcross(k, c, from, n, rm);
    Associates(a, p, Removed(c, 0, n - rm));
    DistinctPart(a, k, c);
    RemovedDistinct(k, from, rm);
    SwapPart(a, k, c, p);
    Associates(a, p, c);
  }

  lemma RemovedDistinct<T>(s: seq<T>, at: nat, n: nat)
    requires at + n <= |s| && Distinct(s)
    ensures Distinct(Removed(s, at, n)) && forall x :: x in Removed(s, at, n) ==> x in s
  {
    assert forall i :: 0 <= i < |Removed(s, at, n)| ==> Removed(s, at, n)[i] == s[if i < at then i else i + n];
  }

  method RemoveInner(b: Chunk, at: nat, n: nat, ghost s: Shape) returns (ghost t: Shape)
    requires s.BranchShape? && b == s.node && Built(s) && Bounded(s) && Distinct(NodesOf(s)) && Distinct(LinesOf(s))
    requires at + n <= |LinesOf(s)|
    modifies Chunks(s), LineSet(s)`parent
    ensures t.BranchShape? && t.node == b && Built(t) && Bounded(t) && LinesOf(t) == Removed(LinesOf(s), at, n)
    ensures Distinct(NodesOf(t)) && OldOrNew(NodesOf(t), s) && b.parent == old(b.parent)
    ensures Detached(LinesOf(s), LinesOf(t))
    ensures |LinesOf(t)| < 25 ==> |t.kids| == 1 && t.kids[0].LeafShape?
    decreases s, 2
  {
    hide Built, AllBuilt, KidLines, KidNodes, Bounded, LinesOf, NodesOf, Below, Weighed, Under, Distinct, AllBounded;
    hide Sum, Heights, Shrinking;
    ghost var target := Removed(LinesOf(s), at, n);
    var from: nat, rest: nat, i := at, n, 0;
    ghost var kept, left := [], s.kids;
    ShrinkBegins(s, at, n);
    ShapeExists(s);
    NodeFirst(s);
    AllExist(s.kids);
    UnderIsBelow(s.kids);
    b.size := b.size - n;
    while i < |b.children|
      invariant i == |kept| && Shrinking(s, target, kept, left, from, rest) && ShrunkSoFar(b, s, kept, left)
      invariant b.size == |LinesOf(s)| - n && b.parent == old(b.parent)
      invariant OldOrNew(KidNodes(kept), s)
      decreases |left|
    {
      NextCount(b, s, kept, left);
      var sz := b.children[i].ChunkSize();
      if from < sz {
        var more;
        more, rest, kept := ShrinkAt(b, i, from, rest, s, target, kept, left);
        left := left[1..];
        from := 0;
        i := i + more;
        if rest == 0 {
          break;
        }
      } else {
        SkipShapes(s, target, kept, left, from, rest);
        SkipObjects(b, s, kept, left);
        SkipNodes(s, target, kept, left, from, rest);
        kept, left := kept + [left[0]], left[1..];
        from := from - sz;
        i := i + 1;
      }
    }

    ghost var cut := BranchShape(b, kept + left);
    ShrinkEnds(b, s, target, kept, left, from, rest);
    t := CollapseIfSmall(b, cut);
  }

  /** The child at i is the first one left. */
  lemma NextCount(b: Chunk, s: Shape, kept: seq<Shape>, left: seq<Shape>)
    requires ShrunkSoFar(b, s, kept, left) && |kept| < |b.children|
    ensures left != [] && b.children[|kept|] == left[0].node && left[0].node.ChunkSize() == |LinesOf(left[0])|
  {
    assert (kept + left)[|kept|] == left[0] && left[0] in left;
    NodeOf(left[0], left[0].node.parent);
  }

  lemma SkipNodes(s: Shape, target: seq<Line>, kept: seq<Shape>, left: seq<Shape>, from: nat, n: nat)
    requires Shrinking(s, target, kept, left, from, n) && left != []
    ensures forall c :: c in KidNodes(kept + [left[0]]) ==> c in KidNodes(kept) || c in NodesOf(s)
  {
    hide KidNodes;
    NextLeft(kept, left);
    assert left[0] == s.kids[|s.kids| - |left|];
    WithinParent(s, |s.kids| - |left|);
  }

  lemma ShrinkEnds(b: Chunk, s: Shape, target: seq<Line>, kept: seq<Shape>, left: seq<Shape>, from: nat, rest: nat)
    requires Shrinking(s, target, kept, left, from, rest) && ShrunkSoFar(b, s, kept, left) && b == s.node
    requires (left == [] || rest == 0) && b.size == |target| && Bounded(s)
    ensures var cut := BranchShape(b, kept + left);
            && Built(cut) && LinesOf(cut) == target && Distinct(NodesOf(cut))
            && |cut.kids| <= BRANCH_LIMIT && AllBounded(cut.kids)
            && Detached(LinesOf(s), target)
    ensures forall c :: c in NodesOf(BranchShape(b, kept + left)) ==> c in KidNodes(kept) || c in NodesOf(s)
  {
    hide Built, KidLines, KidNodes, Sum, Heights, Distinct;
    var kids := kept + left;
    var cut := BranchShape(b, kids);
    KidLinesConcat(kept, left);
    KidNodesConcat(kept, left);
    WeighsBoth(KidLines(kept), KidLines(left));
    NothingLeft(left, from, rest);
    AllBuiltJoin(kept, left);
    NodesOfBranch(cut);
    BranchIsBuilt(cut);
    NodesOfBranch(s);
    NodeFirst(s);
    KidsCut(s.kids, |s.kids| - |left|);
  }

  lemma NothingLeft(left: seq<Shape>, from: nat, rest: nat)
    requires (left == [] || rest == 0) && from + rest <= |KidLines(left)|
    ensures Removed(KidLines(left), from, rest) == KidLines(left)
  {
  }

  /** One step of removeInner: the child at i shrinks, and goes when all its lines do. */
  method ShrinkAt(b: Chunk, i: nat, from: nat, n: nat, ghost s: Shape, ghost target: seq<Line>,
                  ghost kept: seq<Shape>, ghost left: seq<Shape>)
    returns (more: nat, rest: nat, ghost keeps: seq<Shape>)
    requires i == |kept| && left != [] && b == s.node && Bounded(s)
    requires Shrinking(s, target, kept, left, from, n) && ShrunkSoFar(b, s, kept, left)
    requires from < |LinesOf(left[0])|
    modifies Chunks(s), LineSet(s)`parent
    ensures more <= 1 && |keeps| == i + more
    ensures Shrinking(s, target, keeps, left[1..], 0, rest) && ShrunkSoFar(b, s, keeps, left[1..])
    ensures b.size == old(b.size) && b.parent == old(b.parent)
    ensures forall c :: c in KidNodes(keeps) ==> c in KidNodes(kept) || c in NodesOf(s) || fresh(c)
    decreases s, 1
  {
    hide Built, AllBuilt, KidLines, KidNodes, Bounded, LinesOf, NodesOf, Below, Weighed, Under, Distinct, AllBounded;
    hide Sum, Heights, Removed, Shrinking;
    NextCount(b, s, kept, left);
    ShrinkReady(s, target, kept, left, from, n);
    ghost var k, tail := left[0], left[1..];
    var child := b.children[i];
    var sz := child.ChunkSize();
    var rm := Min(n, sz - from);
    var oldHeight := child.height;
    AllExist(kept);
    AllExist(left);
    AllExist(tail);
    ghost var keptHeights, tailHeights := Heights(KidLines(kept)), Heights(KidLines(tail));
    ghost var r := ShrinkFirst(child, from, rm, s, target, kept, left, n);
    assert Heights(KidLines(kept)) == keptHeights && Heights(KidLines(tail)) == tailHeights;
    ghost var parts := if sz == rm then [] else [r];
    PartsOf(k, r, from, rm);
    DropOrKeep(b, i, child, sz == rm, oldHeight - child.height, s, kept, r, tail);
    rest, more, keeps := n - rm, if sz == rm then 0 else 1, kept + parts;
    ShrunkShapes(s, target, kept, left, from, n, rm, parts);
    KeptNodes(s, k, kept, r, parts);
  }

  /** The first child left shrinks; its siblings stay as they are. */
  method ShrinkFirst(child: Chunk, from: nat, rm: nat, ghost s: Shape, ghost target: seq<Line>,
                     ghost kept: seq<Shape>, ghost left: seq<Shape>, ghost n: nat)
    returns (ghost r: Shape)
    requires left != [] && child == left[0].node && Bounded(s) && from + rm <= |LinesOf(left[0])|
    requires Shrinking(s, target, kept, left, from, n) && ShrunkSoFar(s.node, s, kept, left)
    modifies Chunks(left[0]), LineSet(left[0])`parent
    ensures r.node == child && child.parent == s.node && LinesOf(r) == Removed(LinesOf(left[0]), from, rm)
    ensures Built(r) && Bounded(r) && Distinct(NodesOf(r)) && OldOrNew(NodesOf(r), left[0])
    ensures AllBuilt([r]) && s.node !in NodeSet([r])
    ensures AllBuilt(kept) && AllBuilt(left[1..])
    ensures forall k :: k in kept + left[1..] ==> k.node.parent == s.node
    ensures Detached(LinesOf(s), KidLines(kept) + LinesOf(r) + KidLines(left[1..]))
    decreases s, 0
  {
    hide Built, AllBuilt, KidLines, KidNodes, Bounded, LinesOf, NodesOf, Below, Weighed, Under, Distinct, AllBounded;
    hide Sum, Heights, Removed, Shrinking;
    ShrinkReady(s, target, kept, left, from, n);
    AllExist(kept);
    AllExist(left[1..]);
    ghost var j :| 0 <= j < |s.kids| && s.kids[j] == left[0];
    ghost var gone := set l | l in LinesOf(s) && l !in KidLines(kept) + KidLines(left);
    NextLeft(kept, left);
    ShapeExists(s);
    assert gone !! LineSet(left[0]) && forall l :: l in gone ==> l.parent == null && l in LineSet(s);
    r := ShrinkChild(child, from, rm, left[0]);
    StillDetached(s, kept, left, r, gone);
    AllBuiltOne(r);
  }

  lemma KeptNodes(s: Shape, k: Shape, kept: seq<Shape>, r: Shape, parts: seq<Shape>)
    requires Chunks(k) <= Chunks(s) && forall c :: c in KidNodes(parts) ==> c in NodesOf(r)
    ensures forall c :: c in KidNodes(kept + parts) ==> c in KidNodes(kept) || c in NodesOf(r)
    ensures forall c :: c in NodesOf(k) ==> c in NodesOf(s)
  {
    KidNodesConcat(kept, parts);
    forall c | c in NodesOf(k)
      ensures c in NodesOf(s)
    {
      assert c in Chunks(k);
    }
  }

  /** The branch after one of its children has shrunk by some height. */
  method DropOrKeep(b: Chunk, i: nat, child: Chunk, drop: bool, lower: real,
                    ghost s: Shape, ghost kept: seq<Shape>, ghost r: Shape, ghost tail: seq<Shape>)
    requires i == |kept| && AreTops(b.children, kept + [r] + tail) && child == r.node && !b.isLeaf
    requires AllBuilt(kept) && AllBuilt([r]) && AllBuilt(tail) && (drop ==> LinesOf(r) == [])
    requires b !in NodeSet(kept) && b !in NodeSet([r]) && b !in NodeSet(tail)
    requires UnderAll(kept) <= NodeSet(kept) && UnderAll(tail) <= NodeSet(tail)
    requires r.node !in NodeSet(kept) && r.node !in NodeSet(tail)
    requires forall k :: k in kept + [r] + tail ==> k.node.parent == b
    requires b.height - lower == Sum(Heights(KidLines(kept))) + Sum(Heights(LinesOf(r))) + Sum(Heights(KidLines(tail)))
    requires Detached(LinesOf(s), KidLines(kept) + LinesOf(r) + KidLines(tail))
    modifies b`children, b`height, child`parent
    ensures ShrunkSoFar(b, s, kept + if drop then [] else [r], tail)
  {
    hide Built, AllBuilt, KidLines, KidNodes, Bounded, LinesOf, NodesOf, Below, Weighed, Under, Distinct, AllBounded,
         Sum, Heights;
    ghost var parts := if drop then [] else [r];
    AllExist(kept);
    AllExist([r]);
    AllExist(tail);
    UnderIsBelow([r]);
    TopsAreWithin(kept);
    TopsAreWithin(tail);
    ghost var keptHeights, tailHeights := Heights(KidLines(kept)), Heights(KidLines(tail));
    ghost var heights := Heights(LinesOf(r));
    b.height := b.height - lower;
    assert AllBuilt([r]);
    if drop {
      b.children := b.children[..i] + b.children[i + 1..];
      child.parent := null;
    }
    OnePart(r, drop);
    assert AllBuilt(kept) && AllBuilt(parts) && AllBuilt(tail);
    assert Heights(KidLines(kept)) == keptHeights && Heights(LinesOf(r)) == heights;
    assert Heights(KidLines(tail)) == tailHeights;
    ShrunkObjects(b, s, kept, parts, tail);
  }

  lemma OnePart(r: Shape, drop: bool)
    requires drop ==> LinesOf(r) == []
    ensures KidLines(if drop then [] else [r]) == LinesOf(r) && AllBuilt([])
  {
    OneMore(r, []);
    assert [r] + [] == [r];
  }

  /** Lines removed before or just now have no parent. */
  lemma StillDetached(s: Shape, kept: seq<Shape>, left: seq<Shape>, r: Shape, gone: set<Line>)
    requires left != [] && gone == (set l | l in LinesOf(s) && l !in KidLines(kept) + KidLines(left))
    requires (forall l :: l in gone ==> l.parent == null) && Detached(LinesOf(left[0]), LinesOf(r))
    ensures Detached(LinesOf(s), KidLines(kept) + LinesOf(r) + KidLines(left[1..]))
  {
    hide KidLines, LinesOf;
    NextLeft(kept, left);
  }

  /** What is left of a child that has shrunk. */
  lemma PartsOf(k: Shape, r: Shape, from: nat, rm: nat)
    requires from + rm <= |LinesOf(k)| && LinesOf(r) == Removed(LinesOf(k), from, rm)
    requires Built(r) && Bounded(r) && Distinct(NodesOf(r))
    ensures var parts := if |LinesOf(k)| == rm then [] else [r];
            && KidLines(parts) == LinesOf(r) && AllBounded(parts) && AllBuilt(parts) && Distinct(KidNodes(parts))
            && (forall c :: c in KidNodes(parts) ==> c in NodesOf(r)) && UnderAll(parts) <= NodeSet(parts)
    ensures r.node.height == Sum(Heights(LinesOf(r))) && (|LinesOf(k)| == rm ==> LinesOf(r) == [])
  {
    AllBuiltOne(r);
    UnderIsBelow([r]);
    UnderIsBelow([]);
    NodeOf(r, r.node.parent);
  }

  lemma ShrunkObjects(b: Chunk, s: Shape, kept: seq<Shape>, parts: seq<Shape>, tail: seq<Shape>)
    requires AllBuilt(kept) && AllBuilt(parts) && AllBuilt(tail) && !b.isLeaf
    requires AreTops(b.children, kept + parts + tail)
    requires forall k :: k in kept + parts + tail ==> k.node.parent == b
    requires b.height == Sum(Heights(KidLines(kept))) + Sum(Heights(KidLines(parts))) + Sum(Heights(KidLines(tail)))
    requires Detached(LinesOf(s), KidLines(kept) + KidLines(parts) + KidLines(tail))
    ensures ShrunkSoFar(b, s, kept + parts, tail)
  {
    hide Built, KidLines, Sum, Heights;
    AllBuiltJoin(kept, parts);
    KidLinesConcat(kept, parts);
    WeighsBoth(KidLines(kept), KidLines(parts));
  }

  // ----- visiting -----

  /** iterN, with an operation that never stops it: the lines in the order visited. */
  method IterN(c: Chunk, at: nat, n: nat, ghost s: Shape) returns (visited: seq<Line>)
    requires c == s.node && Built(s) && at + n <= |LinesOf(s)|
    ensures visited == LinesOf(s)[at..at + n]
    decreases s, 1
  {
    hide Built, Below, Weighed, KidLines, LinesOf, NodesOf;
    BuiltKind(s);
    visited := [];
    if c.isLeaf {
      for i := at to at + n
        invariant c.lines == s.lines && visited == s.lines[at..i]
      {
        visited := visited + [c.lines[i]];
      }
    } else {
      visited := IterChildren(c, at, n, s);
    }
  }

  method IterChildren(c: Chunk, at: nat, n: nat, ghost s: Shape) returns (visited: seq<Line>)
    requires s.BranchShape? && c == s.node && Built(s) && at + n <= |LinesOf(s)|
    ensures visited == LinesOf(s)[at..at + n]
    decreases s, 0
  {
    hide Built, Below, Weighed, KidLines, LinesOf, NodesOf;
    visited := [];
    var from: nat, rest: nat := at, n;
    NodesOfBranch(s);
    BuiltParts(s);
    ShapeExists(s);
    NothingBeforeKids(s.kids);
    for i := 0 to |c.children|
      invariant Built(s) && |c.children| == |s.kids| && from + rest <= |KidLines(s.kids[i..])|
      invariant Visiting(visited, s.kids[i..], from, rest) == Visiting([], s.kids, at, n)
    {
      var child := c.children[i];
      var sz := child.ChunkSize();
      CountedKid(s, i);
      NextVisit(s.kids, i);
      if from < sz {
        var used := Min(rest, sz - from);
        VisitChild(visited, s.kids[i..], from, rest, used);
        var below := IterN(child, from, used, s.kids[i]);
        visited := visited + below;
        from, rest := 0, rest - used;
        if rest == 0 {
          VisitDone(visited, s.kids[i + 1..], from, rest);
          VisitAll(s.kids, at, n);
          return;
        }
      } else {
        VisitBeyond(visited, s.kids[i..], from, rest);
        from := from - sz;
      }
    }
    VisitDone(visited, s.kids[|s.kids|..], from, rest);
    VisitAll(s.kids, at, n);
  }

  lemma NextVisit(kids: seq<Shape>, i: nat)
    requires i < |kids|
    ensures kids[i..] != [] && kids[i..][0] == kids[i] && kids[i..][1..] == kids[i + 1..]
  {
  }

  ghost function Visiting(visited: seq<Line>, left: seq<Shape>, at: nat, n: nat): seq<Line>
    requires at + n <= |KidLines(left)|
  {
    visited + KidLines(left)[at..at + n]
  }

  lemma VisitChild(visited: seq<Line>, left: seq<Shape>, at: nat, n: nat, used: nat)
    requires left != [] && at < |LinesOf(left[0])| && at + n <= |KidLines(left)|
    requires used == Min(n, |LinesOf(left[0])| - at)
    ensures n - used <= |KidLines(left[1..])|
    ensures Visiting(visited + LinesOf(left[0])[at..at + used], left[1..], 0, n - used)
         == Visiting(visited, left, at, n)
  {
    SliceAcross(LinesOf(left[0]), KidLines(left[1..]), at, n, used);
    Associates(visited, LinesOf(left[0])[at..at + used], KidLines(left[1..])[..n - used]);
  }

  lemma VisitBeyond(visited: seq<Line>, left: seq<Shape>, at: nat, n: nat)
    requires left != [] && |LinesOf(left[0])| <= at && at + n <= |KidLines(left)|
    ensures at - |LinesOf(left[0])| + n <= |KidLines(left[1..])|
    ensures Visiting(visited, left[1..], at - |LinesOf(left[0])|, n) == Visiting(visited, left, at, n)
  {
    SliceBeyond(LinesOf(left[0]), KidLines(left[1..]), at, n);
  }

  lemma VisitDone(visited: seq<Line>, left: seq<Shape>, at: nat, n: nat)
    requires at + n <= |KidLines(left)| && (left == [] || n == 0)
    ensures Visiting(visited, left, at, n) == visited
  {
  }

  lemma VisitAll(kids: seq<Shape>, at: nat, n: nat)
    requires at + n <= |KidLines(kids)|
    ensures Visiting([], kids, at, n) == KidLines(kids)[at..at + n]
  {
  }

  // ----- the caches -----

  ghost function TotalSize(nodes: seq<Chunk>): nat
    reads SetOf(nodes)
  {
    if nodes == [] then 0 else nodes[0].ChunkSize() + TotalSize(nodes[1..])
  }

  ghost function TotalHeight(nodes: seq<Chunk>): real
    reads SetOf(nodes)
  {
    if nodes == [] then 0.0 else nodes[0].height + TotalHeight(nodes[1..])
  }

  lemma {:induction false} TotalsOfKids(nodes: seq<Chunk>, kids: seq<Shape>)
    requires AreTops(nodes, kids) && AllBuilt(kids)
    ensures TotalSize(nodes) == |KidLines(kids)| && TotalHeight(nodes) == Sum(Heights(KidLines(kids)))
  {
    if kids != [] {
      assert kids[0] in kids && Built(kids[0]);
      NodeOf(kids[0], kids[0].node.parent);
      AllBuiltPart(kids, 1, |kids|);
      TotalsOfKids(nodes[1..], kids[1..]);
      WeighsBoth(LinesOf(kids[0]), KidLines(kids[1..]));
    }
  }

  /** A branch caches the sums of what its children cache, and so does every branch below it. */
  lemma {:induction false} CachesAreSums(s: Shape)
    requires s.BranchShape? && Built(s)
    ensures s.node.size == TotalSize(s.node.children) && s.node.height == TotalHeight(s.node.children)
    ensures forall k :: k in s.kids ==> Built(k)
  {
    BuiltParts(s);
    TotalsOfKids(s.node.children, s.kids);
  }
}
