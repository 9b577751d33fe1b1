/** updateDoc: the five ways in which a change is applied to the tree of lines. */
module CmUpdateDoc {
  import opened Wrappers
  import opened CmText
  import opened CmLineShape
  import opened CmLineEdits
  import opened CmLineTree
  import Splices

  /** The change of setValue, which takes the whole document. */
  predicate CoversAll(doc: Lines, c: Change) {
    c.from == Pos(0, 0) && c.to == Pos(|doc| - 1, |Last(doc)|)
  }

  ghost function TextsOf(lines: seq<Line>): (r: seq<string>)
    reads (set l | l in lines)`text
    ensures |r| == |lines| && forall i :: 0 <= i < |lines| ==> r[i] == lines[i].text
  {
    if lines == [] then [] else [lines[0].text] + TextsOf(lines[1..])
  }

  /** Slices of a line, which end where the line ends. */
  function Upto(s: string, n: nat): string {
    if n < |s| then s[..n] else s
  }

  function From(s: string, n: nat): string {
    if n < |s| then s[n..] else ""
  }

  /** The text of a document in its tree of lines. With an editor, lines get the height it
      estimates for their text; without one, the height 1. */
  class LineDoc {
    const tree: LineTree
    const estimate: Option<string -> real>

    ghost predicate Valid()
      reads this, tree, Chunks(tree.shape), LineSet(tree.shape)`parent, LineSet(tree.shape)`height
    {
      tree.Valid() && tree.first == 0 && tree.Lines() != []
    }

    ghost function Text(): Lines
      requires Valid()
      reads this, tree, Chunks(tree.shape), LineSet(tree.shape)
    {
      TextsOf(tree.Lines())
    }

    /** The heights of its lines, whose sum the root caches. */
    ghost function LineHeights(): seq<real>
      requires Valid()
      reads this, tree, Chunks(tree.shape), LineSet(tree.shape)
    {
      Heights(tree.Lines())
    }

    ghost function Repr(): set<object>
      reads this, tree
    {
      var nodes: set<object>, lines: set<object> := Chunks(tree.shape), LineSet(tree.shape);
      {tree} + nodes + lines
    }

    /** Nothing has changed. */
    twostate predicate Same()
      reads this, tree, Chunks(tree.shape), LineSet(tree.shape)
      requires old(Valid())
    {
      Valid() && Text() == old(Text()) && Repr() == old(Repr())
    }

    /** A new document has one empty line, and then takes its text. */
    constructor (text: Lines, estimate: Option<string -> real>)
      ensures Valid() && fresh(Repr()) && Text() == text && this.estimate == estimate
      ensures LineHeights() == Estimated(text)
    {
      hide LineTree.Valid, LinesOf, NodesOf, TextsOf, Splice, Fitted;
      var line := new Line("", 1.0);
      tree := new LineTree(0, line);
      this.estimate := estimate;
      new;
      TextsAre(tree.Lines(), [""]);
      NodesOrLines(tree.shape);
      assert forall o :: o in Repr() ==> fresh(o);
      hide Repr, LineHeights, Estimated, Renewed;
      FirstText(text);
      ghost var was := LineHeights();
      AsManyHeights();
      UpdateDoc(Change(Pos(0, 0), Pos(0, 0), text), false, true);
      FirstHeights(was, text, LineHeights());
    }

    // ----- lines -----

    function HeightFor(text: string): real {
      if estimate.Some? then estimate.value(text) else 1.0
    }

    function Estimated(texts: seq<string>): (hs: seq<real>)
      ensures |hs| == |texts|
    {
      seq(|texts|, i requires 0 <= i < |texts| => HeightFor(texts[i]))
    }

    /** The lines that a change from line `from` to line `to` has left in the place of those
        have the estimated height of their text; all others have kept theirs. */
    ghost predicate Renewed(was: seq<real>, text: seq<string>, from: nat, to: nat, now: seq<real>) {
      && |now| == |text| && from <= to < |was|
      && var end := |text| - (|was| - to - 1);
         && from < end
         && now == was[..from] + Estimated(text[from..end]) + was[to + 1..]
    }

    /** linesFor. */
    method NewLines(texts: seq<string>) returns (lines: seq<Line>)
      ensures TextsOf(lines) == texts && Distinct(lines)
      ensures Heights(lines) == Estimated(texts)
      ensures forall k :: 0 <= k < |lines| ==>
                lines[k].height == if estimate.Some? then estimate.value(texts[k]) else 1.0
      ensures forall l :: l in lines ==> fresh(l) && l.parent == null
    {
      lines := [];
      for i := 0 to |texts|
        invariant |lines| == i && Distinct(lines)
        invariant forall l :: l in lines ==> fresh(l) && l.parent == null
        invariant forall k :: 0 <= k < i ==> lines[k].text == texts[k] && lines[k].height == HeightFor(texts[k])
      {
        var line := new Line(texts[i], HeightFor(texts[i]));
        lines := lines + [line];
      }
    }

    method InsertLines(at: nat, texts: seq<string>) returns (added: seq<Line>)
      requires Valid() && at <= |Text()|
      modifies Repr()
      ensures Valid() && forall o :: o in Repr() ==> o in old(Repr()) || fresh(o)
      ensures |added| == |texts| && forall l :: l in added ==> fresh(l)
      ensures tree.Lines() == Splices.Inserted(old(tree.Lines()), at, added)
      ensures Text() == Splices.Inserted(old(Text()), at, texts)
      ensures LineHeights() == Splices.Inserted(old(LineHeights()), at, Estimated(texts))
    {
      hide LinesOf, KidLines, NodesOf, KidNodes, Linked, Weighed, Distinct, Bounded, TextsOf, Heights, Estimated;
      ghost var was := tree.Lines();
      LinesExist(tree.shape);
      added := NewLines(texts);
      tree.Insert(at, added);
      assert TextsOf(was) == old(Text()) && TextsOf(added) == texts;
      assert Heights(was) == old(LineHeights()) && Heights(added) == Estimated(texts);
      TextsOfInserted(was, at, added);
      HeightsOfInserted(was, at, added);
      NodesOrLines(tree.shape);
    }

    method RemoveLines(at: nat, n: nat)
      requires Valid() && at + n <= |Text()| && n < |Text()|
      modifies Repr()
      ensures Valid() && forall o :: o in Repr() ==> o in old(Repr()) || fresh(o)
      ensures tree.Lines() == Splices.Removed(old(tree.Lines()), at, n)
      ensures Text() == Splices.Removed(old(Text()), at, n)
      ensures LineHeights() == Splices.Removed(old(LineHeights()), at, n)
    {
      hide LinesOf, KidLines, NodesOf, KidNodes, Linked, Weighed, Distinct, Bounded, TextsOf, Heights;
      ghost var was := tree.Lines();
      LinesExist(tree.shape);
      tree.Remove(at, n);
      assert TextsOf(was) == old(Text()) && Heights(was) == old(LineHeights());
      TextsOfRemoved(was, at, n);
      HeightsOfRemoved(was, at, n);
      NodesOrLines(tree.shape);
    }

    /** updateLine: the line gets the text and the height estimated for it, which all caches
        up to the root's take in; every other line keeps its own. */
    method UpdateLine(line: Line, text: string, ghost i: nat)
      requires Valid() && i < |tree.Lines()| && tree.Lines()[i] == line
      modifies Repr()
      ensures Valid() && tree.Lines() == old(tree.Lines()) && Repr() == old(Repr())
      ensures Text() == old(Text())[i := text]
      ensures LineHeights() == old(LineHeights())[i := HeightFor(text)]
      ensures line.height == if estimate.Some? then estimate.value(text) else 1.0
      ensures tree.root.height == old(tree.root.height) + HeightFor(text) - old(line.height)
    {
      hide LinesOf, KidLines, NodesOf, KidNodes, Linked, Weighed, Bounded, TextsOf, Heights;
      ghost var lines, was := tree.Lines(), Text();
      LinesExist(tree.shape);
      RootWeighs();
      assert lines == LinesOf(tree.shape);
      assert forall k :: 0 <= k < |lines| && k != i ==> lines[k] != line;
      line.text := text;
      assert forall k :: 0 <= k < |lines| ==> lines[k].text == was[i := text][k];
      if HeightFor(text) != line.height {
        tree.UpdateLineHeight(line, HeightFor(text));
      }
      TextsAre(lines, was[i := text]);
      HeightsAre(lines, old(LineHeights())[i := HeightFor(text)]);
      RootWeighs();
      SumUpdated(old(LineHeights()), i, HeightFor(text));
    }

    lemma AsManyHeights()
      requires Valid()
      ensures |LineHeights()| == |Text()|
    {
      hide LineTree.Valid, LineTree.Lines;
    }

    lemma NoneEstimated()
      ensures Estimated([]) == []
    {
    }

    lemma RootWeighs()
      requires Valid()
      ensures tree.root.height == Sum(LineHeights())
    {
    }

    // ----- the heights after a change -----

    lemma RenewedWhen(was: seq<real>, text: seq<string>, from: nat, to: nat, now: seq<real>)
      requires |now| == |text| && from <= to < |was| && from + |was| - to - 1 < |text|
      requires forall k :: 0 <= k < from ==> now[k] == was[k]
      requires forall k :: from <= k < |text| - (|was| - to - 1) ==> now[k] == HeightFor(text[k])
      requires forall k :: to < k < |was| ==> now[|text| - |was| + k] == was[k]
      ensures Renewed(was, text, from, to, now)
    {
    }

    /** Lines put in front of a line that is renewed. */
    lemma RenewedInFront(was: seq<real>, text: seq<string>, from: nat, to: nat, texts: seq<string>)
      requires from <= to < |was| && |text| == from + |texts| + |was| - to
      requires text[from..from + |texts|] == texts
      ensures var updated := was[to := HeightFor(text[from + |texts|])];
              Renewed(was, text, from, to, updated[..from] + Estimated(texts) + updated[to..])
    {
      var updated := was[to := HeightFor(text[from + |texts|])];
      var now := updated[..from] + Estimated(texts) + updated[to..];
      assert forall k :: from <= k < from + |texts| ==> text[k] == texts[k - from];
      RenewedWhen(was, text, from, to, now);
    }

    /** Lines put behind a line that is renewed, in place of others. */
    lemma RenewedBehind(was: seq<real>, text: seq<string>, from: nat, to: nat, texts: seq<string>)
      requires from <= to < |was| && |text| == from + |texts| + |was| - to
      requires text[from + 1..from + 1 + |texts|] == texts
      ensures var updated := was[from := HeightFor(text[from])];
              Renewed(was, text, from, to, updated[..from + 1] + Estimated(texts) + updated[to + 1..])
    {
      var updated := was[from := HeightFor(text[from])];
      var now := updated[..from + 1] + Estimated(texts) + updated[to + 1..];
      assert forall k :: from < k < from + 1 + |texts| ==> text[k] == texts[k - from - 1];
      RenewedWhen(was, text, from, to, now);
    }

    lemma RenewedAround(was: seq<real>, text: seq<string>, at: nat, texts: seq<string>)
      requires at < |was| && |text| == |texts| + |was| && text[at + 1..at + 1 + |texts|] == texts
      ensures var updated := was[at := HeightFor(text[at])];
              Renewed(was, text, at, at, Splices.Inserted(updated, at + 1, Estimated(texts)))
    {
      RenewedBehind(was, text, at, at, texts);
    }

    lemma RenewedAlone(was: seq<real>, text: seq<string>, at: nat)
      requires at < |was| == |text|
      ensures Renewed(was, text, at, at, was[at := HeightFor(text[at])])
    {
      RenewedWhen(was, text, at, at, was[at := HeightFor(text[at])]);
    }

    lemma RenewedWithout(was: seq<real>, text: seq<string>, from: nat, to: nat)
      requires from <= to < |was| && |text| == from + |was| - to
      ensures var updated := was[from := HeightFor(text[from])];
              Renewed(was, text, from, to, Splices.Removed(updated, from + 1, to - from))
    {
      RenewedBehind(was, text, from, to, []);
      var updated := was[from := HeightFor(text[from])];
      assert updated[..from + 1] + Estimated([]) == updated[..from + 1];
    }

    /** Lines put between two lines that are renewed, in place of others. */
    lemma RenewedBetween(was: seq<real>, text: seq<string>, from: nat, to: nat, texts: seq<string>)
      requires from < to < |was| && |text| == from + 1 + |texts| + |was| - to
      requires text[from + 1..from + 1 + |texts|] == texts
      ensures var updated := was[from := HeightFor(text[from])][to := HeightFor(text[from + 1 + |texts|])];
              Renewed(was, text, from, to, updated[..from + 1] + Estimated(texts) + updated[to..])
    {
      var updated := was[from := HeightFor(text[from])][to := HeightFor(text[from + 1 + |texts|])];
      var now := updated[..from + 1] + Estimated(texts) + updated[to..];
      assert forall k :: from < k < from + 1 + |texts| ==> text[k] == texts[k - from - 1];
      RenewedWhen(was, text, from, to, now);
    }

    lemma FirstHeights(was: seq<real>, text: seq<string>, now: seq<real>)
      requires |was| == 1 && Renewed(was, text, 0, 0, now)
      ensures now == Estimated(text)
    {
      assert text[0..|text|] == text;
    }

    /** As long as nobody measures lines, a change leaves every line with its estimated height. */
    lemma EstimatesStay(doc: Lines, c: Change, now: seq<real>)
      requires ValidChange(doc, c) && Renewed(Estimated(doc), Splice(doc, c), c.from.line, c.to.line, now)
      ensures now == Estimated(Splice(doc, c))
    {
      hide Splice;
      OthersStay(doc, c);
    }

    lemma AllRenewed(was: seq<real>, text: seq<string>)
      requires was != [] && text != []
      ensures Renewed(was, text, 0, |was| - 1, Estimated(text))
    {
      RenewedWhen(was, text, 0, |was| - 1, Estimated(text));
    }

    // ----- reading -----

    /** clipPos. */
    method ClipPos(p: Pos) returns (q: Pos)
      requires Valid()
      ensures Same() && q == Clip(Text(), p)
    {
      hide LineTree.Valid, LinesOf, NodesOf, TextsOf;
      LinesExist(tree.shape);
      tree.SizeIsCached();
      var last := tree.root.size - 1;
      if p.line < 0 {
        return Pos(0, 0);
      }
      var line := LineAt(if p.line > last then last else p.line);
      var length := |line.text|;
      if p.line > last {
        return Pos(last, length);
      }
      q := if p.ch > length then Pos(p.line, length) else if p.ch < 0 then Pos(p.line, 0) else p;
    }

    /** getBetween, as its callback builds it line by line: a position beyond the end of its
        line stands for that end, and lines that do not exist are not visited. */
    method GetBetween(start: Pos, end: Pos) returns (out: Lines)
      requires Valid() && Starts(Text(), start, end)
      ensures Same() && out == Between(Text(), Clip(Text(), start), Clip(Text(), end))
    {
      hide LineTree.Valid, LineTree.Lines, LinesOf, NodesOf, TextsOf;
      LinesExist(tree.shape);
      ghost var doc := Text();
      ghost var from, to := Clip(doc, start), Clip(doc, end);
      tree.SizeIsCached();
      LineHasText(start.line);
      var stop := if end.line < tree.root.size then end.line + 1 else tree.root.size;
      var visited := tree.Iter(start.line, stop);
      var acc: seq<string> := [];
      var n := start.line;
      while n < stop
        invariant start.line <= n <= stop == to.line + 1 && |visited| == stop - start.line
        invariant Valid() && Text() == doc
        invariant forall k :: 0 <= k < |visited| ==> visited[k].text == doc[start.line + k]
        invariant n == start.line ==> acc == []
        invariant start.line < n <= to.line ==> acc == [Right(doc, from)] + doc[start.line + 1..n]
        invariant n == to.line + 1 ==> acc == Between(doc, from, to)
      {
        var text := visited[n - start.line].text;
        if n == end.line {
          text := Upto(text, end.ch);
        }
        assert text == if n == to.line then Left(doc, to) else doc[n];
        if n == start.line {
          text := From(text, start.ch);
        }
        assert n == start.line ==> text == if n == to.line then doc[n][from.ch..to.ch] else Right(doc, from);
        acc := acc + [text];
        n := n + 1;
      }
      out := acc;
    }

    // ----- changes -----

    /** Every branch gives the text of the one splice, with the parts of a position beyond
        the end of its line cut off; `wholeLineOption` is true without an editor and the
        editor's wholeLineUpdateBefore option with one. */
    method UpdateDoc(c: Change, full: bool, wholeLineOption: bool)
      requires Valid() && Starts(Text(), c.from, c.to) && c.to.line < |Text()|
      requires full ==> CoversAll(Text(), c)
      modifies Repr()
      ensures Valid() && forall o :: o in Repr() ==> o in old(Repr()) || fresh(o)
      ensures Text() == Splice(old(Text()), Fitted(old(Text()), c))
      ensures Renewed(old(LineHeights()), Text(), c.from.line, c.to.line, LineHeights())
    {
      hide LineTree.Valid, LineTree.Lines, TextsOf, LinesOf, NodesOf, Splice, Fitted, Repr, LineHeights, Renewed;
      LinesExist(tree.shape);
      if full {
        ReplaceAll(c);
      } else {
        var firstLine := LineAt(c.from.line);
        var lastLine := LineAt(c.to.line);
        if c.from.ch == 0 && c.to.ch == 0 && Last(c.text) == "" && wholeLineOption {
          var added := ReplaceWholeLines(c, lastLine);
        } else if firstLine == lastLine {
          SameLine(c.from.line, c.to.line);
          var added := ReplaceInLine(c, firstLine);
        } else if |c.text| == 1 {
          JoinLines(c, firstLine, lastLine);
        } else {
          var added := ReplaceBothEnds(c, firstLine, lastLine);
        }
      }
    }

    /** The branch for a change of the whole document: no line is kept. */
    method ReplaceAll(c: Change)
      requires Valid() && ValidChange(Text(), c) && CoversAll(Text(), c)
      modifies Repr()
      ensures Valid() && forall o :: o in Repr() ==> o in old(Repr()) || fresh(o)
      ensures Text() == Splice(old(Text()), c)
      ensures Renewed(old(LineHeights()), Text(), c.from.line, c.to.line, LineHeights())
    {
      hide LineTree.Valid, LineTree.Lines, TextsOf, LinesOf, NodesOf, Splice, Repr, LineHeights, Renewed, Estimated,
           Splices.Removed, Splices.Inserted;
      ghost var doc, heights := Text(), LineHeights();
      AsManyHeights();
      var added := InsertLines(0, c.text);
      tree.SizeIsCached();
      RemoveLines(|c.text|, tree.root.size - |c.text|);
      AllReplaced(doc, c.text);
      AllReplaced(heights, Estimated(c.text));
      FullIsSplice(doc, c);
      AllRenewed(heights, c.text);
    }

    /** All objects of the document exist, so new ones are others. */
    lemma ObjectsExist()
      ensures forall l :: l in LineSet(tree.shape) ==> allocated(l)
      ensures forall c :: c in Chunks(tree.shape) ==> allocated(c)
    {
      LinesExist(tree.shape);
      assert forall l :: l in LineSet(tree.shape) <==> l in LinesOf(tree.shape);
    }

    lemma SizeIsCached()
      requires Valid()
      ensures tree.root.size == |Text()|
    {
      hide LinesOf, NodesOf, TextsOf;
      tree.SizeIsCached();
    }

    lemma LineHasText(i: nat)
      requires Valid() && i < |Text()|
      ensures |tree.Lines()| == |Text()| && tree.Lines()[i].text == Text()[i]
    {
      hide LineTree.Valid, LineTree.Lines;
    }

    lemma SameLine(i: nat, j: nat)
      requires Valid() && i < |tree.Lines()| && j < |tree.Lines()| && tree.Lines()[i] == tree.Lines()[j]
      ensures i == j
    {
    }

    /** getLine, for a line that exists. */
    method LineAt(i: nat) returns (line: Line)
      requires Valid() && i < |Text()|
      ensures line == old(tree.Lines())[i] && line.text == old(Text())[i]
    {
      hide LineTree.Valid, LinesOf, NodesOf, TextsOf;
      LinesExist(tree.shape);
      var found := tree.GetLine(i);
      line := found.value;
    }

    /** The whole-line branch: the line after the replaced ones is kept, as the object it
        is, and new lines come in front of it. */
    method ReplaceWholeLines(c: Change, lastLine: Line) returns (added: seq<Line>)
      requires Valid() && ValidChange(Text(), c) && lastLine == tree.Lines()[c.to.line]
      requires c.from.ch == 0 && c.to.ch == 0 && Last(c.text) == ""
      modifies Repr()
      ensures Valid() && forall o :: o in Repr() ==> o in old(Repr()) || fresh(o)
      ensures Text() == Splice(old(Text()), c)
      ensures Renewed(old(LineHeights()), Text(), c.from.line, c.to.line, LineHeights())
      ensures |added| == |c.text| - 1 && forall l :: l in added ==> fresh(l)
      ensures tree.Lines() == old(tree.Lines())[..c.from.line] + added + old(tree.Lines())[c.to.line..]
    {
      hide LineTree.Valid, LineTree.Lines, TextsOf, LinesOf, NodesOf, Splice, Repr, LineHeights, Renewed, Estimated;
      ghost var doc, heights := Text(), LineHeights();
      AsManyHeights();
      LineHasText(c.to.line);
      UpdateLine(lastLine, lastLine.text, c.to.line);
      assert Text() == doc;
      added := ReplaceLines(c.from.line, c.to.line, c.text[..|c.text| - 1]);
      WholeLineIsSplice(doc, c);
      RenewedInFront(heights, Text(), c.from.line, c.to.line, Init(c.text));
    }

    /** Lines go and others take their place, as far as there are any. */
    method ReplaceLines(at: nat, to: nat, texts: seq<string>) returns (added: seq<Line>)
      requires Valid() && at <= to < |Text()|
      modifies Repr()
      ensures Valid() && forall o :: o in Repr() ==> o in old(Repr()) || fresh(o)
      ensures |added| == |texts| && forall l :: l in added ==> fresh(l)
      ensures tree.Lines() == old(tree.Lines())[..at] + added + old(tree.Lines())[to..]
      ensures Text() == old(Text())[..at] + texts + old(Text())[to..]
      ensures LineHeights() == old(LineHeights())[..at] + Estimated(texts) + old(LineHeights())[to..]
    {
      hide LineTree.Valid, TextsOf, LinesOf, NodesOf, Repr, Splices.Removed, Splices.Inserted, LineHeights, Estimated;
      ghost var lines := tree.Lines();
      LineHasText(to);
      AsManyHeights();
      RemovedThenInserted(Text(), at, to, texts);
      RemovedThenInserted(LineHeights(), at, to, Estimated(texts));
      Splices.NothingDone(Text(), at);
      Splices.NothingDone(LineHeights(), at);
      Splices.NothingDone(lines, at);
      if to > at {
        RemoveLines(at, to - at);
      }
      added := [];
      NoneEstimated();
      AsManyHeights();
      Splices.NothingDone(Text(), at);
      Splices.NothingDone(LineHeights(), at);
      Splices.NothingDone(tree.Lines(), at);
      if |texts| > 0 {
        added := InsertLines(at, texts);
      }
      RemovedThenInserted(lines, at, to, added);
    }

    /** The branches for a change inside one line, which is kept. */
    method ReplaceInLine(c: Change, line: Line) returns (added: seq<Line>)
      requires Valid() && Starts(Text(), c.from, c.to) && c.to.line == c.from.line
      requires line == tree.Lines()[c.from.line]
      modifies Repr()
      ensures Valid() && forall o :: o in Repr() ==> o in old(Repr()) || fresh(o)
      ensures Text() == Splice(old(Text()), Fitted(old(Text()), c))
      ensures Renewed(old(LineHeights()), Text(), c.from.line, c.to.line, LineHeights())
      ensures |added| == |c.text| - 1 && forall l :: l in added ==> fresh(l)
      ensures tree.Lines() == Splices.Inserted(old(tree.Lines()), c.from.line + 1, added)
    {
      hide LineTree.Valid, LineTree.Lines, TextsOf, LinesOf, NodesOf, Splice, Repr, LineHeights, Renewed, Estimated;
      hide Fitted, Splices.Inserted;
      ghost var doc, lines, fit, heights := Text(), tree.Lines(), Fitted(Text(), c), LineHeights();
      AsManyHeights();
      CutParts(doc, c);
      LineHasText(c.from.line);
      var before, after := Upto(line.text, c.from.ch), From(line.text, c.to.ch);
      added := [];
      if |c.text| == 1 {
        UpdateLine(line, before + Last(c.text) + after, c.from.line);
        OneLineIsSplice(doc, fit);
        Splices.NothingDone(lines, c.from.line + 1);
        RenewedAlone(heights, Text(), c.from.line);
      } else {
        UpdateLine(line, before + c.text[0], c.from.line);
        var texts := c.text[1..|c.text| - 1] + [Last(c.text) + after];
        added := InsertLines(c.from.line + 1, texts);
        SplitLineIsSplice(doc, fit);
        InsertedThere(doc[c.from.line := before + c.text[0]], c.from.line + 1, texts);
        RenewedAround(heights, Text(), c.from.line, texts);
      }
    }

    /** The branch for a change over several lines with one line of text: the first line
        takes what is left of the last one. */
    method JoinLines(c: Change, firstLine: Line, lastLine: Line)
      requires Valid() && Starts(Text(), c.from, c.to) && c.from.line < c.to.line < |Text()| && |c.text| == 1
      requires firstLine == tree.Lines()[c.from.line] && lastLine == tree.Lines()[c.to.line]
      modifies Repr()
      ensures Valid() && forall o :: o in Repr() ==> o in old(Repr()) || fresh(o)
      ensures Text() == Splice(old(Text()), Fitted(old(Text()), c))
      ensures Renewed(old(LineHeights()), Text(), c.from.line, c.to.line, LineHeights())
      ensures tree.Lines() == old(tree.Lines())[..c.from.line + 1] + old(tree.Lines())[c.to.line + 1..]
    {
      hide LineTree.Valid, LineTree.Lines, TextsOf, LinesOf, NodesOf, Splice, Repr, LineHeights, Renewed, Estimated;
      hide Fitted, Splices.Removed;
      ghost var doc, fit, heights := Text(), Fitted(Text(), c), LineHeights();
      AsManyHeights();
      RemovedParts(tree.Lines(), c.from.line + 1, c.to.line - c.from.line);
      CutParts(doc, c);
      LineHasText(c.from.line);
      LineHasText(c.to.line);
      var joined := Upto(firstLine.text, c.from.ch) + c.text[0] + From(lastLine.text, c.to.ch);
      RemovedParts(doc[c.from.line := joined], c.from.line + 1, c.to.line - c.from.line);
      UpdateLine(firstLine, joined, c.from.line);
      RemoveLines(c.from.line + 1, c.to.line - c.from.line);
      JoinLinesIsSplice(doc, fit);
      RenewedWithout(heights, Text(), c.from.line, c.to.line);
    }

    /** The branch for a change over several lines with more than one line of text: the
        first and the last line are kept, with new lines in between. */
    method ReplaceBothEnds(c: Change, firstLine: Line, lastLine: Line) returns (added: seq<Line>)
      requires Valid() && Starts(Text(), c.from, c.to) && c.from.line < c.to.line < |Text()| && |c.text| > 1
      requires firstLine == tree.Lines()[c.from.line] && lastLine == tree.Lines()[c.to.line]
      modifies Repr()
      ensures Valid() && forall o :: o in Repr() ==> o in old(Repr()) || fresh(o)
      ensures Text() == Splice(old(Text()), Fitted(old(Text()), c))
      ensures Renewed(old(LineHeights()), Text(), c.from.line, c.to.line, LineHeights())
      ensures |added| == |c.text| - 2 && forall l :: l in added ==> fresh(l)
      ensures tree.Lines() == old(tree.Lines())[..c.from.line + 1] + added + old(tree.Lines())[c.to.line..]
    {
      hide LineTree.Valid, LineTree.Lines, TextsOf, LinesOf, NodesOf, Splice, Repr, LineHeights, Renewed, Estimated;
      hide Fitted;
      ghost var doc, heights := Text(), LineHeights();
      AsManyHeights();
      UpdateEnds(c, firstLine, lastLine);
      ghost var updated := Text();
      added := ReplaceLines(c.from.line + 1, c.to.line, c.text[1..|c.text| - 1]);
      BothEndsText(doc, c, updated, Text());
      RenewedBetween(heights, Text(), c.from.line, c.to.line, c.text[1..|c.text| - 1]);
    }

    method UpdateEnds(c: Change, firstLine: Line, lastLine: Line)
      requires Valid() && Starts(Text(), c.from, c.to) && c.from.line < c.to.line < |Text()|
      requires firstLine == tree.Lines()[c.from.line] && lastLine == tree.Lines()[c.to.line]
      modifies Repr()
      ensures Valid() && tree.Lines() == old(tree.Lines()) && Repr() == old(Repr())
      ensures var doc, fit := old(Text()), Fitted(old(Text()), c);
              Text() == doc[c.from.line := Left(doc, fit.from) + c.text[0]]
                           [c.to.line := Last(c.text) + Right(doc, fit.to)]
      ensures var was, text := old(LineHeights()), Text();
              LineHeights() == was[c.from.line := HeightFor(text[c.from.line])][c.to.line := HeightFor(text[c.to.line])]
    {
      hide LineTree.Valid, LineTree.Lines, TextsOf, LinesOf, NodesOf, Repr, Fitted, LineHeights;
      AsManyHeights();
      CutParts(Text(), c);
      LineHasText(c.from.line);
      LineHasText(c.to.line);
      var after := From(lastLine.text, c.to.ch);
      UpdateLine(firstLine, Upto(firstLine.text, c.from.ch) + c.text[0], c.from.line);
      UpdateLine(lastLine, Last(c.text) + after, c.to.line);
    }
  }

  lemma BothEndsText(doc: Lines, c: Change, updated: seq<string>, text: seq<string>)
    requires Starts(doc, c.from, c.to) && c.from.line < c.to.line < |doc| && |c.text| > 1
    requires var fit := Fitted(doc, c);
             updated == doc[c.from.line := Left(doc, fit.from) + c.text[0]]
                           [c.to.line := Last(c.text) + Right(doc, fit.to)]
    requires text == updated[..c.from.line + 1] + c.text[1..|c.text| - 1] + updated[c.to.line..]
    ensures text == Splice(doc, Fitted(doc, c))
  {
    hide Splice, Fitted;
    CutParts(doc, c);
    BothEndsIsSplice(doc, Fitted(doc, c));
  }

  lemma RemovedThenInserted<T>(s: seq<T>, at: nat, to: nat, more: seq<T>)
    requires at <= to <= |s|
    ensures Splices.Inserted(Splices.Removed(s, at, to - at), at, more) == s[..at] + more + s[to..]
  {
    Splices.InsertedAtSeam(s[..at], s[to..], more);
  }

  lemma RemovedParts<T>(s: seq<T>, at: nat, n: nat)
    requires at + n <= |s|
    ensures Splices.Removed(s, at, n) == s[..at] + s[at + n..]
    ensures forall k :: 0 <= k < at ==> Splices.Removed(s, at, n)[k] == s[k]
  {
  }

  lemma InsertedThere<T>(s: seq<T>, at: nat, more: seq<T>)
    requires at <= |s|
    ensures var r := Splices.Inserted(s, at, more);
            r[at..at + |more|] == more && forall k :: 0 <= k < at ==> r[k] == s[k]
  {
  }

  lemma AllReplaced<T>(s: seq<T>, more: seq<T>)
    ensures Splices.Removed(Splices.Inserted(s, 0, more), |more|, |s|) == more
  {
  }

  /** A change moves the lines around it, but leaves them as they are. */
  lemma OthersStay(doc: Lines, c: Change)
    requires ValidChange(doc, c)
    ensures var text, end := Splice(doc, c), |Splice(doc, c)| - (|doc| - c.to.line - 1);
            && c.from.line < end
            && (forall k :: 0 <= k < c.from.line ==> text[k] == doc[k])
            && (forall k :: end <= k < |text| ==> text[k] == doc[c.to.line + 1 + k - end])
  {
  }

  lemma FirstText(text: Lines)
    ensures var start: Lines, c := [""], Change(Pos(0, 0), Pos(0, 0), text);
            ValidChange(start, c) && Splice(start, c) == text
  {
    GlueNothing(text);
  }

  lemma CutParts(doc: Lines, c: Change)
    requires Starts(doc, c.from, c.to) && c.to.line < |doc|
    ensures var r := Fitted(doc, c);
            && r.from.line == c.from.line && r.to.line == c.to.line && r.text == c.text
            && Left(doc, r.from) == Upto(doc[c.from.line], c.from.ch)
            && Right(doc, r.to) == From(doc[c.to.line], c.to.ch)
  {
  }

  lemma TextsAre(lines: seq<Line>, texts: seq<string>)
    requires |lines| == |texts| && forall i :: 0 <= i < |lines| ==> lines[i].text == texts[i]
    ensures TextsOf(lines) == texts
  {
    hide TextsOf;
  }

  lemma HeightsAre(lines: seq<Line>, heights: seq<real>)
    requires |lines| == |heights| && forall i :: 0 <= i < |lines| ==> lines[i].height == heights[i]
    ensures Heights(lines) == heights
  {
    hide Heights;
  }

  lemma HeightsOfInserted(lines: seq<Line>, at: nat, more: seq<Line>)
    requires at <= |lines|
    ensures Heights(Splices.Inserted(lines, at, more)) == Splices.Inserted(Heights(lines), at, Heights(more))
  {
    hide Heights;
    HeightsAre(Splices.Inserted(lines, at, more), Splices.Inserted(Heights(lines), at, Heights(more)));
  }

  lemma HeightsOfRemoved(lines: seq<Line>, at: nat, n: nat)
    requires at + n <= |lines|
    ensures Heights(Splices.Removed(lines, at, n)) == Splices.Removed(Heights(lines), at, n)
  {
    hide Heights;
    HeightsAre(Splices.Removed(lines, at, n), Splices.Removed(Heights(lines), at, n));
  }

  lemma TextsOfConcat(a: seq<Line>, b: seq<Line>)
    ensures TextsOf(a + b) == TextsOf(a) + TextsOf(b)
  {
    hide TextsOf;
  }

  lemma TextsOfCut(lines: seq<Line>, i: nat)
    requires i <= |lines|
    ensures TextsOf(lines[..i]) == TextsOf(lines)[..i] && TextsOf(lines[i..]) == TextsOf(lines)[i..]
  {
    hide TextsOf;
    TextsOfConcat(lines[..i], lines[i..]);
    assert lines == lines[..i] + lines[i..];
  }

  lemma TextsOfInserted(lines: seq<Line>, at: nat, more: seq<Line>)
    requires at <= |lines|
    ensures TextsOf(Splices.Inserted(lines, at, more)) == Splices.Inserted(TextsOf(lines), at, TextsOf(more))
  {
    hide TextsOf;
    TextsOfCut(lines, at);
    TextsOfConcat(lines[..at], more);
    TextsOfConcat(lines[..at] + more, lines[at..]);
  }

  lemma TextsOfRemoved(lines: seq<Line>, at: nat, n: nat)
    requires at + n <= |lines|
    ensures TextsOf(Splices.Removed(lines, at, n)) == Splices.Removed(TextsOf(lines), at, n)
  {
    hide TextsOf;
    TextsOfCut(lines, at);
    TextsOfCut(lines, at + n);
    TextsOfConcat(lines[..at], lines[at + n..]);
  }

  lemma LinesExist(s: Shape)
    ensures forall l :: l in LinesOf(s) ==> allocated(l)
    ensures forall i :: 0 <= i < |LinesOf(s)| ==> allocated(LinesOf(s)[i])
    ensures forall c :: c in Chunks(s) ==> allocated(c)
    ensures forall l :: l in LineSet(s) <==> l in LinesOf(s)
  {
    ObjectsExist(s);
    assert forall i :: 0 <= i < |LinesOf(s)| ==> LinesOf(s)[i] in LinesOf(s);
  }

  lemma NodesOrLines(s: Shape)
    ensures forall l :: l in LineSet(s) <==> l in LinesOf(s)
    ensures forall c :: c in Chunks(s) <==> c in NodesOf(s)
  {
  }
  // ----- each branch is the splice -----

  lemma OneLineIsSplice(doc: Lines, c: Change)
    requires ValidChange(doc, c) && c.from.line == c.to.line && |c.text| == 1
    ensures Splice(doc, c) == doc[c.from.line := Left(doc, c.from) + c.text[0] + Right(doc, c.to)]
  {
  }

  lemma SplitLineIsSplice(doc: Lines, c: Change)
    requires ValidChange(doc, c) && c.from.line == c.to.line && |c.text| > 1
    ensures var l := c.from.line;
            var updated := doc[l := Left(doc, c.from) + c.text[0]];
            var added := c.text[1..|c.text| - 1] + [Last(c.text) + Right(doc, c.to)];
            Splice(doc, c) == Splices.Inserted(updated, l + 1, added)
  {
    var l := c.from.line;
    var updated := doc[l := Left(doc, c.from) + c.text[0]];
    assert updated[..l + 1] == doc[..l] + [updated[l]];
    assert updated[l + 1..] == doc[l + 1..];
  }

  lemma JoinLinesIsSplice(doc: Lines, c: Change)
    requires ValidChange(doc, c) && c.from.line < c.to.line && |c.text| == 1
    ensures var l := c.from.line;
            var updated := doc[l := Left(doc, c.from) + c.text[0] + Right(doc, c.to)];
            Splice(doc, c) == Splices.Removed(updated, l + 1, c.to.line - l)
  {
    var l := c.from.line;
    var updated := doc[l := Left(doc, c.from) + c.text[0] + Right(doc, c.to)];
    assert updated[..l + 1] == doc[..l] + [updated[l]];
    assert updated[c.to.line + 1..] == doc[c.to.line + 1..];
  }

  lemma BothEndsIsSplice(doc: Lines, c: Change)
    requires ValidChange(doc, c) && c.from.line < c.to.line && |c.text| > 1
    ensures var updated := doc[c.from.line := Left(doc, c.from) + c.text[0]]
                              [c.to.line := Last(c.text) + Right(doc, c.to)];
            Splice(doc, c) == updated[..c.from.line + 1] + c.text[1..|c.text| - 1] + updated[c.to.line..]
  {
    var l := c.from.line;
    var updated := doc[l := Left(doc, c.from) + c.text[0]][c.to.line := Last(c.text) + Right(doc, c.to)];
    assert updated[..l + 1] == doc[..l] + [updated[l]];
    assert updated[c.to.line..] == [updated[c.to.line]] + doc[c.to.line + 1..];
  }

  lemma FullIsSplice(doc: Lines, c: Change)
    requires ValidChange(doc, c) && CoversAll(doc, c)
    ensures Splice(doc, c) == c.text
  {
    assert Left(doc, c.from) == "" && Right(doc, c.to) == "";
    GlueNothing(c.text);
  }

  lemma GlueNothing(text: Lines)
    ensures Glue("", text, "") == text
  {
    assert "" + text[0] == text[0] && Last(text) + "" == Last(text);
    assert "" + text[0] + "" == text[0];
  }

  /** Replacing whole lines keeps the line object after them, with its text. */
  lemma WholeLineIsSplice(doc: Lines, c: Change)
    requires ValidChange(doc, c) && c.from.ch == 0 && c.to.ch == 0 && Last(c.text) == ""
    ensures Splice(doc, c) == doc[..c.from.line] + Init(c.text) + doc[c.to.line..]
  {
    var suf := Right(doc, c.to);
    assert suf == doc[c.to.line] && Left(doc, c.from) == "";
    assert "" + c.text[0] == c.text[0] && "" + suf == suf;
    assert Glue("", c.text, suf) == Init(c.text) + [suf];
    assert doc[c.to.line..] == [suf] + doc[c.to.line + 1..];
  }

  /** Two documents with the same flat text and no line break inside a line have
      the same lines, so the flat reading loses nothing. */
  lemma {:induction false} FlatIsInjective(a: Lines, b: Lines)
    requires Flat(a) == Flat(b)
    requires forall i :: 0 <= i < |a| ==> '\n' !in a[i]
    requires forall i :: 0 <= i < |b| ==> '\n' !in b[i]
    ensures a == b
    decreases |a|
  {
    FlatHead(a);
    FlatHead(b);
    SameHead(a, b);
    if |a| == 1 {
      assert a == b;
    } else {
      assert Flat(a)[|a[0]| + 1..] == Flat(a[1..]);
      assert Flat(b)[|b[0]| + 1..] == Flat(b[1..]);
      FlatIsInjective(a[1..], b[1..]);
      assert a == [a[0]] + a[1..] && b == [b[0]] + b[1..];
    }
  }

  lemma FlatHead(a: Lines)
    requires '\n' !in a[0]
    ensures |a[0]| <= |Flat(a)| && Flat(a)[..|a[0]|] == a[0]
    ensures |a| == 1 <==> |Flat(a)| == |a[0]|
    ensures |a| > 1 ==> Flat(a)[|a[0]|] == '\n'
    ensures forall k :: 0 <= k < |a[0]| ==> Flat(a)[k] != '\n'
  {
    forall k | 0 <= k < |a[0]| ensures Flat(a)[k] != '\n' {
      assert Flat(a)[k] == a[0][k];
      assert a[0][k] in a[0];
    }
  }

  lemma SameHead(a: Lines, b: Lines)
    requires Flat(a) == Flat(b) && '\n' !in a[0] && '\n' !in b[0]
    ensures a[0] == b[0] && (|a| == 1 <==> |b| == 1)
  {
    FlatHead(a);
    FlatHead(b);
  }
}
