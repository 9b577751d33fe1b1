/** The lines of a document: inserted and removed by number, and looked up from numbers and
    heights down to lines, and from lines up through parent links to their numbers
    (codemirror.js). */
module CmLineTree {
  import opened Wrappers
  import opened Splices
  import opened CmLineShape
  import opened CmLineEdits

  // ----- the document -----

  class LineTree {
    const first: int
    var root: Chunk
    ghost var shape: Shape

    /** A new document has one line. */
    constructor (first: int, line: Line)
      requires line.parent == null
      modifies line`parent
      ensures Valid() && this.first == first && Lines() == [line]
      ensures forall c :: c in NodesOf(shape) ==> fresh(c)
    {
      var leaf := new Chunk(true);
      var top := new Chunk(false);
      this.first, root := first, top;
      shape := BranchShape(top, [LeafShape(leaf, [line])]);
      new;
      leaf.lines, leaf.height, leaf.parent := [line], line.height, top;
      line.parent := leaf;
      top.children, top.size, top.height := [leaf], 1, leaf.height;
      OneLine(top, leaf, line);
    }

    ghost predicate Valid()
      reads this, Chunks(shape), LineSet(shape)`parent, LineSet(shape)`height
    {
      && shape.BranchShape? && shape.node == root && Linked(shape, null) && Weighed(shape)
      && Distinct(LinesOf(shape)) && Distinct(NodesOf(shape)) && Bounded(shape)
    }

    ghost function Lines(): seq<Line>
      reads this
    {
      LinesOf(shape)
    }

    /** insert: the lines are new ones, and get their parents here. */
    method Insert(at: int, lines: seq<Line>)
      requires Valid() && first <= at <= first + |Lines()|
      requires Distinct(lines) && forall l :: l in lines ==> l.parent == null
      modifies this`shape, Chunks(shape), LineSet(shape)`parent, SetOf(lines)`parent
      ensures Valid() && Lines() == Inserted(old(Lines()), at - first, lines)
      ensures OldOrNew(NodesOf(shape), old(shape))
    {
      hide LinesOf, KidLines, NodesOf, KidNodes, Below, Weighed, Distinct, Sum, Heights, Bounded;
      NewLinesApart(shape, lines);
      ShapeExists(shape);
      var height := HeightOf(lines);
      ghost var grown := InsertInner(root, at - first, lines, height, shape);
      InsertedDistinct(LinesOf(shape), at - first, lines);
      shape := MaybeSpillTop(root, grown);
    }

    static method HeightOf(lines: seq<Line>) returns (height: real)
      ensures height == Sum(Heights(lines))
    {
      hide Sum, Heights;
      height := 0.0;
      NothingWeighs();
      for i := 0 to |lines|
        invariant height == Sum(Heights(lines[..i]))
      {
        height := height + lines[i].height;
        SumNext(lines, i);
      }
      assert lines[..|lines|] == lines;
    }

    /** remove: the lines lose their parents. */
    method Remove(at: int, n: nat)
      requires Valid() && first <= at && at + n <= first + |Lines()|
      modifies this`shape, Chunks(shape), LineSet(shape)`parent
      ensures Valid() && Lines() == Removed(old(Lines()), at - first, n)
      ensures forall l :: l in old(Lines()) && l !in Lines() ==> l.parent == null
      ensures OldOrNew(NodesOf(shape), old(shape))
    {
      hide LinesOf, KidLines, NodesOf, KidNodes, Below, Weighed, Distinct, Sum, Heights, Bounded;
      RemovedDistinct(LinesOf(shape), at - first, n);
      shape := RemoveInner(root, at - first, n, shape);
    }

    /** iter over a range: the lines visited, in order. */
    method Iter(from: int, to: int) returns (visited: seq<Line>)
      requires Valid() && first <= from <= to <= first + |Lines()|
      ensures visited == Lines()[from - first..to - first]
    {
      visited := IterN(root, from - first, to - from, shape);
    }

    lemma SizeIsCached()
      requires Valid()
      ensures root.size == |Lines()|
    {
      NodeOf(shape, null);
    }

    /** getLine: no line outside the document's range. */
    method GetLine(no: int) returns (r: Option<Line>)
      requires Valid()
      ensures r == if first <= no < first + |Lines()| then Some(Lines()[no - first]) else None
    {
      hide Linked, Below, LinesOf, KidLines, Weighed, Distinct;
      NodeOf(shape, null);
      var n := no - first;
      if n < 0 || n >= root.size {
        return None;
      }
      var chunk := root;
      ghost var s, up: Chunk? := shape, null;
      while !chunk.isLeaf
        invariant s.node == chunk && Linked(s, up)
        invariant 0 <= n < |LinesOf(s)| && LinesOf(s)[n] == Lines()[no - first]
        decreases s
      {
        NodeOf(s, up);
        var i := 0;
        assert s.kids[0..] == s.kids;
        SomeKid(s.kids);
        KidOf(s, up, 0);
        while n >= chunk.children[i].ChunkSize()
          invariant 0 <= i < |s.kids| && 0 <= n < |KidLines(s.kids[i..])|
          invariant KidLines(s.kids[i..])[n] == Lines()[no - first]
          invariant Linked(s, up) && |chunk.children| == |s.kids| && chunk.children[i] == s.kids[i].node
          invariant chunk.children[i].ChunkSize() == |LinesOf(s.kids[i])|
          decreases |s.kids| - i
        {
          KidsFrom(s.kids, i);
          SomeKid(s.kids[i + 1..]);
          n := n - chunk.children[i].ChunkSize();
          i := i + 1;
          KidOf(s, up, i);
        }
        KidOf(s, up, i);
        KidsFrom(s.kids, i);
        s, up, chunk := s.kids[i], chunk, chunk.children[i];
      }
      NodeOf(s, up);
      r := Some(chunk.lines[n]);
    }

    /** lineAtHeight agrees with the linear search over all lines. */
    method LineAtHeight(height: real) returns (n: int)
      requires Valid() && NonNegative(Heights(Lines()))
      ensures n == first + FirstBelow(Heights(Lines()), height)
    {
      hide Linked, Below, LinesOf, KidLines, Weighed, Distinct, FirstBelow, Sum, Heights;
      var chunk, h := root, height;
      n := first;
      ghost var s, up: Chunk? := shape, null;
      ghost var answer := first + FirstBelow(Heights(Lines()), height);
      NodeOf(s, up);
      while !chunk.isLeaf
        invariant s.node == chunk && Linked(s, up) && Weighed(s) && NonNegative(Heights(LinesOf(s)))
        invariant n + FirstBelow(Heights(LinesOf(s)), h) == answer
        decreases s
      {
        NodeOf(s, up);
        var i := 0;
        assert s.kids[0..] == s.kids;
        while i < |chunk.children|
          invariant 0 <= i <= |s.kids| && Linked(s, up) && Weighed(s) && s.BranchShape? && s.node == chunk
          invariant |chunk.children| == |s.kids| && NonNegative(Heights(KidLines(s.kids[i..])))
          invariant n + FirstBelow(Heights(KidLines(s.kids[i..])), h) == answer
        {
          var child := chunk.children[i];
          KidOf(s, up, i);
          KidWeighs(s, i);
          if h < child.height {
            break;
          }
          SkipKid(s.kids, i, h);
          h := h - child.height;
          n := n + child.ChunkSize();
          i := i + 1;
        }
        if i == |chunk.children| {
          NoKidsLeft(s.kids[i..], h);
          return;
        }
        EnterKid(s.kids, i, h);
        s, up, chunk := s.kids[i], chunk, chunk.children[i];
      }
      NodeOf(s, up);
      var i := 0;
      assert chunk.lines[0..] == chunk.lines;
      while i < |chunk.lines| && h >= chunk.lines[i].height
        invariant 0 <= i <= |chunk.lines|
        invariant n + i + FirstBelow(Heights(chunk.lines[i..]), h) == answer
      {
        NextLine(chunk.lines, i, h);
        h := h - chunk.lines[i].height;
        i := i + 1;
      }
      StopAtLine(chunk.lines, i, h);
      n := n + i;
    }

    /** updateLineHeight: the caches of all the nodes above the line follow, no other line
        changes, and the document is valid again. */
    method UpdateLineHeight(line: Line, height: real)
      requires Valid() && (line.parent != null ==> line in Lines())
      modifies line`height, Chunks(shape)`height
      ensures Valid() && Lines() == old(Lines()) && line.height == height
    {
      hide LinesOf, KidLines, NodesOf, KidNodes, Linked, Weighed, Distinct, Sum, Heights;
      var diff := height - line.height;
      if diff == 0.0 {
        return;
      }
      ObjectsExist(shape);
      ghost var chain, places := ChainTo(shape, line);
      line.height := line.height + diff;
      assert Linked(shape, null);
      RaiseAbove(line.parent, diff, shape, chain, places);
      assert Linked(shape, null);
      if chain == [] {
        StillWeighed(shape);
      } else {
        Reweighed(shape, chain, places, line, diff);
      }
    }

    /** The loop of updateLineHeight, from a line's parent to the top. */
    static method RaiseAbove(parent: Chunk?, diff: real, ghost s: Shape, ghost chain: seq<Shape>,
                             ghost places: seq<nat>)
      requires chain == [] ==> parent == null
      requires chain != [] ==>
                 IsChain(chain, places) && chain[0] == s && parent == Last(chain).node && Distinct(NodesOf(s))
      requires forall k :: 0 <= k < |chain| ==> chain[k].node.parent == AboveIn(chain, k)
      modifies Chunks(s)`height
      ensures forall c :: c in NodesOf(s) ==> old(allocated(c))
      ensures forall c :: c in NodesOf(s) && old(allocated(c)) ==>
                c.height == old(c.height) + Gain(diff, c in OnChain(chain))
    {
      hide LinesOf, KidLines, NodesOf, KidNodes, Distinct, OnChain, IsChain;
      ObjectsExist(s);
      NoneOnChain(chain);
      var n := parent;
      ghost var k := |chain| - 1;
      while n != null
        invariant -1 <= k < |chain| && n == if k < 0 then null else chain[k].node
        invariant forall j :: 0 <= j < |chain| ==> chain[j].node.parent == AboveIn(chain, j)
        invariant forall c :: c in NodesOf(s) ==> c.height == old(c.height) + Gain(diff, c in OnChain(chain[k + 1..]))
        decreases k + 1
      {
        NextOnChain(chain, places, k);
        n.height := n.height + diff;
        n := n.parent;
        k := k - 1;
      }
    }

    /** lineNo, from the line up through its parents. */
    method LineNo(line: Line) returns (r: Option<int>)
      requires Valid() && (line.parent != null ==> line in Lines())
      ensures line.parent == null ==> r == None
      ensures line.parent != null ==>
                r.Some? && first <= r.value < first + |Lines()| && Lines()[r.value - first] == line
      ensures forall n :: first <= n < first + |Lines()| && Lines()[n - first] == line ==> r == Some(n)
    {
      hide Linked, Below, LinesOf, KidLines, Weighed, Distinct, IsChain;
      ghost var chain, places := ChainTo(shape, line);
      if line.parent == null {
        return None;
      }
      ghost var k := |places|;
      LinkedAlong(chain, places, k);
      var cur := line.parent;
      NodeOf(chain[k], AboveIn(chain, k));
      ObjectsExist(shape);
      var no := IndexOf(cur.lines, line);
      var chunk := cur.parent;
      while chunk != null
        invariant Linked(shape, null) && 0 <= k < |chain|
        invariant cur == chain[k].node && chunk == AboveIn(chain, k)
        invariant 0 <= no < |LinesOf(chain[k])| && LinesOf(chain[k])[no] == line
        decreases k
      {
        k := k - 1;
        ChainStep(chain, places, k);
        LinkedAlong(chain, places, k);
        DistinctAlong(chain, places, k);
        LineInParent(chain[k], places[k], no, line);
        NodeOf(chain[k], AboveIn(chain, k));
        ObjectsExist(shape);
        var before := SizeBefore(chunk, cur, chain[k], AboveIn(chain, k), places[k]);
        no := no + before;
        cur, chunk := chunk, chunk.parent;
      }
      r := Some(no + first);
      OnlyPlace(Lines(), no);
    }
  }

  /** Lines without a parent are not in the tree. */
  lemma NewLinesApart(s: Shape, lines: seq<Line>)
    requires Linked(s, null) && Distinct(LinesOf(s)) && Distinct(lines) && forall l :: l in lines ==> l.parent == null
    ensures Distinct(LinesOf(s) + lines)
  {
    forall l | l in lines
      ensures l !in LinesOf(s)
    {
      var chain, places := ChainTo(s, l);
    }
    DistinctJoin(LinesOf(s), lines);
  }

  lemma {:induction false} WithinFirst(chain: seq<Shape>, places: seq<nat>, k: nat)
    requires IsChain(chain, places) && k < |chain|
    ensures chain[k].node in NodesOf(chain[0])
    ensures forall l :: l in LinesOf(chain[k]) ==> l in LinesOf(chain[0])
    ensures forall c :: c in NodesOf(chain[k]) ==> c in NodesOf(chain[0])
  {
    NodeFirst(chain[k]);
    if k > 0 {
      WithinFirst(chain, places, k - 1);
      WithinParent(chain[k - 1], places[k - 1]);
    }
  }

  lemma LineWithin(chain: seq<Shape>, places: seq<nat>, line: Line)
    requires IsChain(chain, places) && Last(chain).LeafShape? && line in Last(chain).lines
    ensures line in LinesOf(chain[0])
  {
    WithinFirst(chain, places, |places|);
  }

  ghost function OnChain(chain: seq<Shape>): set<Chunk> {
    set s | s in chain :: s.node
  }

  ghost function Gain(diff: real, gains: bool): real {
    if gains then diff else 0.0
  }

  twostate lemma {:induction false} StillWeighed(s: Shape)
    requires old(Weighed(s))
    requires forall c :: c in NodesOf(s) ==> old(allocated(c)) && c.height == old(c.height)
    requires forall l :: l in LinesOf(s) ==> old(allocated(l)) && l.height == old(l.height)
    ensures Weighed(s)
    decreases s
  {
    NodeFirst(s);
    assert Heights(LinesOf(s)) == old(Heights(LinesOf(s)));
    if s.BranchShape? {
      forall i | 0 <= i < |s.kids|
        ensures Weighed(s.kids[i])
      {
        WithinParent(s, i);
        StillWeighed(s.kids[i]);
      }
    }
  }

  /** One line changes its height by `diff` and so does every node above it: the caches are
      right again. */
  twostate lemma {:induction false} Reweighed(s: Shape, new chain: seq<Shape>, new places: seq<nat>, new line: Line,
                                              new diff: real)
    requires IsChain(chain, places) && chain[0] == s && Last(chain).LeafShape? && line in Last(chain).lines
    requires Distinct(LinesOf(s)) && Distinct(NodesOf(s)) && old(Weighed(s))
    requires forall c :: c in NodesOf(s) ==> old(allocated(c))
    requires forall c :: c in NodesOf(s) && old(allocated(c)) ==>
               c.height == old(c.height) + Gain(diff, c in OnChain(chain))
    requires forall l :: l in LinesOf(s) ==> old(allocated(l))
    requires forall l :: l in LinesOf(s) && old(allocated(l)) ==> l.height == old(l.height) + Gain(diff, l == line)
    ensures Weighed(s)
    decreases s, 1
  {
    NodeFirst(s);
    assert s in chain && s.node in OnChain(chain);
    LineWithin(chain, places, line);
    RaisedSum(LinesOf(s), line, diff);
    if s.BranchShape? {
      forall k: nat | k < |s.kids|
        ensures Weighed(s.kids[k])
      {
        KidReweighed(s, chain, places, line, diff, k);
      }
    }
  }

  twostate lemma {:induction false} KidReweighed(s: Shape, new chain: seq<Shape>, new places: seq<nat>,
                                                 new line: Line, new diff: real, new kid: nat)
    requires IsChain(chain, places) && chain[0] == s && Last(chain).LeafShape? && line in Last(chain).lines
    requires Distinct(LinesOf(s)) && Distinct(NodesOf(s)) && old(Weighed(s))
    requires forall c :: c in NodesOf(s) ==> old(allocated(c))
    requires forall c :: c in NodesOf(s) && old(allocated(c)) ==>
               c.height == old(c.height) + Gain(diff, c in OnChain(chain))
    requires forall l :: l in LinesOf(s) ==> old(allocated(l))
    requires forall l :: l in LinesOf(s) && old(allocated(l)) ==> l.height == old(l.height) + Gain(diff, l == line)
    requires s.BranchShape? && kid < |s.kids|
    ensures Weighed(s.kids[kid])
    decreases s, 0
  {
    DistinctKids(s);
    DistinctKidLines(s, kid);
    WithinParent(s, kid);
    if kid == places[0] {
      KidOnChain(s, chain, places);
      Reweighed(s.kids[kid], chain[1..], places[1..], line, diff);
    } else {
      KidOffChain(s, chain, places, kid, line);
      StillWeighed(s.kids[kid]);
    }
  }

  lemma NoneOnChain(chain: seq<Shape>)
    ensures OnChain(chain[|chain|..]) == {} && OnChain(chain[0..]) == OnChain(chain)
  {
    assert chain[0..] == chain;
  }

  lemma ChainBelow(chain: seq<Shape>, places: seq<nat>, k: nat, s: Shape)
    requires IsChain(chain, places) && k < |chain| && s in chain[k + 1..]
    ensures k < |places| && chain[k].BranchShape? && places[k] < |chain[k].kids|
    ensures s.node in NodesOf(chain[k].kids[places[k]])
  {
    var j :| 0 <= j < |chain[k + 1..]| && chain[k + 1..][j] == s;
    assert IsChain(chain[k + 1..], places[k + 1..]);
    WithinFirst(chain[k + 1..], places[k + 1..], j);
  }

  lemma OnChainNext(chain: seq<Shape>, k: nat)
    requires k < |chain|
    ensures OnChain(chain[k..]) == OnChain(chain[k + 1..]) + {chain[k].node}
  {
    assert chain[k..] == [chain[k]] + chain[k + 1..];
  }

  /** Going up, a node is met once. */
  lemma NextOnChain(chain: seq<Shape>, places: seq<nat>, k: nat)
    requires IsChain(chain, places) && k < |chain| && Distinct(NodesOf(chain[0]))
    ensures chain[k].node in NodesOf(chain[0]) && chain[k].node !in OnChain(chain[k + 1..])
    ensures OnChain(chain[k..]) == OnChain(chain[k + 1..]) + {chain[k].node}
  {
    hide NodesOf, KidNodes, LinesOf, KidLines, Distinct, IsChain;
    WithinFirst(chain, places, k);
    DistinctAlong(chain, places, k);
    OnChainNext(chain, k);
    forall s | s in chain[k + 1..]
      ensures s.node != chain[k].node
    {
      ChainBelow(chain, places, k, s);
      NodeApart(chain[k], places[k], s.node);
    }
  }

  lemma KidOnChain(s: Shape, chain: seq<Shape>, places: seq<nat>)
    requires IsChain(chain, places) && chain[0] == s && s.BranchShape? && Last(chain).LeafShape? && Distinct(NodesOf(s))
    ensures IsChain(chain[1..], places[1..]) && chain[1] == s.kids[places[0]] && Last(chain[1..]) == Last(chain)
    ensures forall c :: c in NodesOf(chain[1]) ==> (c in OnChain(chain) <==> c in OnChain(chain[1..]))
  {
    forall c | c in NodesOf(chain[1])
      ensures (c in OnChain(chain) <==> c in OnChain(chain[1..]))
    {
      if c in OnChain(chain) {
        var k :| 0 <= k < |chain| && chain[k].node == c;
        NodeApart(s, places[0], c);
        assert chain[1..][k - 1] == chain[k];
      }
      if c in OnChain(chain[1..]) {
        var k :| 0 <= k < |chain[1..]| && chain[1..][k].node == c;
        assert chain[k + 1] == chain[1..][k];
      }
    }
  }

  lemma KidOffChain(s: Shape, chain: seq<Shape>, places: seq<nat>, i: nat, line: Line)
    requires IsChain(chain, places) && chain[0] == s && s.BranchShape? && Last(chain).LeafShape?
    requires line in Last(chain).lines
    requires Distinct(NodesOf(s)) && Distinct(LinesOf(s)) && i < |s.kids| && i != places[0]
    ensures forall c :: c in NodesOf(s.kids[i]) ==> c !in OnChain(chain)
    ensures line !in LinesOf(s.kids[i])
  {
    DistinctKids(s);
    KidsApart(s.kids, places[0], i);
    forall c | c in NodesOf(s.kids[i])
      ensures c !in OnChain(chain)
    {
      NodeApart(s, i, c);
      forall k | 0 < k < |chain|
        ensures chain[k].node in NodesOf(s.kids[places[0]])
      {
        assert IsChain(chain[1..], places[1..]);
        WithinFirst(chain[1..], places[1..], k - 1);
      }
    }
    assert IsChain(chain[1..], places[1..]) && chain[1..][|places| - 1] == Last(chain);
    WithinFirst(chain[1..], places[1..], |places| - 1);
  }

  twostate lemma RaisedSum(lines: seq<Line>, new line: Line, new diff: real)
    requires Distinct(lines) && line in lines
    requires forall l :: l in lines ==> old(allocated(l))
    requires forall l :: l in lines && old(allocated(l)) ==> l.height == old(l.height) + Gain(diff, l == line)
    ensures Sum(Heights(lines)) == old(Sum(Heights(lines))) + diff
  {
    hide Sum, Heights;
    var p :| 0 <= p < |lines| && lines[p] == line;
    var was := old(Heights(lines));
    forall q | 0 <= q < |lines|
      ensures Heights(lines)[q] == was[p := was[p] + diff][q]
    {
      assert lines[q] in lines;
    }
    assert Heights(lines) == was[p := was[p] + diff];
    SumUpdated(was, p, was[p] + diff);
  }

  /** The number of lines in the children that come before one of them. */
  method SizeBefore(chunk: Chunk, cur: Chunk, ghost s: Shape, ghost up: Chunk?, ghost place: nat) returns (n: nat)
    requires Linked(s, up) && s.BranchShape? && s.node == chunk && Distinct(KidNodes(s.kids))
    requires place < |s.kids| && cur == s.kids[place].node
    ensures n == |KidLines(s.kids[..place])|
  {
    hide Linked, Below, LinesOf, KidLines, Distinct;
    n := 0;
    NodeOf(s, up);
    KidOf(s, up, place);
    NothingBefore(s.kids);
    var i := 0;
    while chunk.children[i] != cur
      invariant 0 <= i <= place && n == |KidLines(s.kids[..i])|
      invariant Linked(s, up) && |chunk.children| == |s.kids| && chunk.children[place] == cur
      decreases place - i
    {
      KidOf(s, up, i);
      KidsUpTo(s.kids, i);
      n := n + chunk.children[i].ChunkSize();
      i := i + 1;
    }
    KidOf(s, up, i);
    if i < place {
      KidNodesDiffer(s.kids, i, place);
    }
  }

  lemma SkipKid(kids: seq<Shape>, i: nat, h: real)
    requires i < |kids| && NonNegative(Heights(KidLines(kids[i..]))) && Sum(Heights(LinesOf(kids[i]))) <= h
    ensures NonNegative(Heights(KidLines(kids[i + 1..])))
    ensures FirstBelow(Heights(KidLines(kids[i..])), h)
         == |LinesOf(kids[i])| + FirstBelow(Heights(KidLines(kids[i + 1..])), h - Sum(Heights(LinesOf(kids[i]))))
  {
    KidsFrom(kids, i);
    NonNegativeParts(LinesOf(kids[i]), KidLines(kids[i + 1..]));
    SkipBlock(Heights(LinesOf(kids[i])), Heights(KidLines(kids[i + 1..])), h);
  }

  lemma EnterKid(kids: seq<Shape>, i: nat, h: real)
    requires i < |kids| && NonNegative(Heights(KidLines(kids[i..]))) && h < Sum(Heights(LinesOf(kids[i])))
    ensures NonNegative(Heights(LinesOf(kids[i])))
    ensures FirstBelow(Heights(KidLines(kids[i..])), h) == FirstBelow(Heights(LinesOf(kids[i])), h)
  {
    KidsFrom(kids, i);
    NonNegativeParts(LinesOf(kids[i]), KidLines(kids[i + 1..]));
    EnterBlock(Heights(LinesOf(kids[i])), Heights(KidLines(kids[i + 1..])), h);
  }

  lemma NonNegativeParts(a: seq<Line>, b: seq<Line>)
    requires NonNegative(Heights(a + b))
    ensures Heights(a + b) == Heights(a) + Heights(b) && NonNegative(Heights(a)) && NonNegative(Heights(b))
  {
    HeightsConcat(a, b);
    assert forall i :: 0 <= i < |b| ==> b[i] == (a + b)[|a| + i];
    assert forall i :: 0 <= i < |a| ==> a[i] == (a + b)[i];
  }

  lemma NoKidsLeft(kids: seq<Shape>, h: real)
    requires kids == []
    ensures FirstBelow(Heights(KidLines(kids)), h) == 0
  {
  }

  lemma NextLine(lines: seq<Line>, i: nat, h: real)
    requires i < |lines| && lines[i].height <= h
    ensures FirstBelow(Heights(lines[i..]), h) == 1 + FirstBelow(Heights(lines[i + 1..]), h - lines[i].height)
  {
    assert Heights(lines[i..])[1..] == Heights(lines[i + 1..]);
  }

  lemma StopAtLine(lines: seq<Line>, i: nat, h: real)
    requires i <= |lines| && (i < |lines| ==> h < lines[i].height)
    ensures FirstBelow(Heights(lines[i..]), h) == 0
  {
  }

  // ----- the way up -----

  lemma ParentsAlong(chain: seq<Shape>, places: seq<nat>)
    requires IsChain(chain, places) && Linked(chain[0], null)
    ensures forall k :: 0 <= k < |chain| ==>
              chain[k].node.parent == AboveIn(chain, k) && Linked(chain[k], AboveIn(chain, k))
  {
    forall k | 0 <= k < |chain|
      ensures chain[k].node.parent == AboveIn(chain, k) && Linked(chain[k], AboveIn(chain, k))
    {
      LinkedAlong(chain, places, k);
      NodeOf(chain[k], AboveIn(chain, k));
    }
  }

  /** The chain from the top down to a line's leaf; none for a line without a parent. */
  lemma ChainTo(s: Shape, line: Line) returns (chain: seq<Shape>, places: seq<nat>)
    requires Linked(s, null) && (line.parent != null ==> line in LinesOf(s))
    ensures line.parent == null ==> chain == [] && line !in LinesOf(s)
    ensures line.parent != null ==>
      && IsChain(chain, places) && |chain| == |places| + 1 && chain[0] == s
      && Last(chain).LeafShape? && line in Last(chain).lines
      && line.parent == Last(chain).node
    ensures forall k :: 0 <= k < |chain| ==> chain[k].node.parent == AboveIn(chain, k)
  {
    chain, places := [], [];
    if line in LinesOf(s) {
      chain, places := FindChain(s, line);
      ParentsAlong(chain, places);
      ParentOf(Last(chain), AboveIn(chain, |places|), line);
    }
  }

  /** Each shape is the one below the last at its place. */
  ghost predicate IsChain(chain: seq<Shape>, places: seq<nat>) {
    && |chain| == |places| + 1
    && forall k :: 0 <= k < |places| ==>
         chain[k].BranchShape? && places[k] < |chain[k].kids| && chain[k + 1] == chain[k].kids[places[k]]
  }

  ghost function AboveIn(chain: seq<Shape>, k: nat): Chunk?
    requires k < |chain|
  {
    if k == 0 then null else chain[k - 1].node
  }

  lemma {:induction false} FindChain(s: Shape, line: Line) returns (chain: seq<Shape>, places: seq<nat>)
    requires line in LinesOf(s)
    ensures IsChain(chain, places) && chain[0] == s && Last(chain).LeafShape? && line in Last(chain).lines
    decreases s
  {
    if s.LeafShape? {
      chain, places := [s], [];
    } else {
      var i := KidWith(s.kids, line);
      chain, places := FindChain(s.kids[i], line);
      chain, places := [s] + chain, [i] + places;
    }
  }

  lemma ChainStep(chain: seq<Shape>, places: seq<nat>, k: nat)
    requires IsChain(chain, places) && k < |places|
    ensures chain[k].BranchShape? && places[k] < |chain[k].kids| && chain[k + 1] == chain[k].kids[places[k]]
  {
  }

  lemma {:induction false} LinkedAlong(chain: seq<Shape>, places: seq<nat>, k: nat)
    requires IsChain(chain, places) && Linked(chain[0], null) && k < |chain|
    ensures Linked(chain[k], AboveIn(chain, k))
  {
    if k > 0 {
      LinkedAlong(chain, places, k - 1);
      KidOf(chain[k - 1], AboveIn(chain, k - 1), places[k - 1]);
    }
  }

  lemma ParentOf(s: Shape, up: Chunk?, line: Line)
    requires Linked(s, up) && s.LeafShape? && line in s.lines
    ensures line.parent == s.node
  {
  }

  lemma NothingBefore(kids: seq<Shape>)
    ensures KidLines(kids[..0]) == []
  {
  }

  lemma LineInParent(s: Shape, i: nat, n: nat, line: Line)
    requires s.BranchShape? && i < |s.kids| && n < |LinesOf(s.kids[i])| && LinesOf(s.kids[i])[n] == line
    ensures var m := n + |KidLines(s.kids[..i])|;
            m < |LinesOf(s)| && LinesOf(s)[m] == line
  {
    KidsAround(s.kids, i);
  }

  lemma OnlyPlace<T>(s: seq<T>, i: nat)
    requires i < |s| && Distinct(s)
    ensures forall j :: 0 <= j < |s| && s[j] == s[i] ==> j == i
  {
    assert forall j :: 0 <= j < i ==> s[j] != s[i];
  }

  lemma {:induction false} DistinctAlong(chain: seq<Shape>, places: seq<nat>, k: nat)
    requires IsChain(chain, places) && Distinct(NodesOf(chain[0])) && k < |chain|
    ensures Distinct(NodesOf(chain[k])) && (chain[k].BranchShape? ==> Distinct(KidNodes(chain[k].kids)))
  {
    if k > 0 {
      DistinctAlong(chain, places, k - 1);
      DistinctKids(chain[k - 1]);
    }
    if chain[k].BranchShape? {
      DistinctKids(chain[k]);
    }
  }
}
