/** Positions, changes and their effect on a document's lines, together with an
    independent reading of the same text as one flat string (codemirror.js). */
module CmText {
  import opened Wrappers

  // A document always has at least one line, and a change inserts at least one
  // (possibly empty) piece of a line.
  type Lines = s: seq<string> | s != [] witness [""]

  datatype Pos = Pos(line: int, ch: int)

  datatype Range = Range(anchor: Pos, head: Pos)
  {
    predicate Empty() {
      anchor == head
    }
  }

  datatype Selection = Selection(ranges: seq<Range>, primIndex: int)
  {
    predicate SomethingSelected() {
      exists i :: 0 <= i < |ranges| && !ranges[i].Empty()
    }
  }

  datatype Change = Change(from: Pos, to: Pos, text: Lines)

  function Cmp(a: Pos, b: Pos): int {
    if a.line != b.line then a.line - b.line else a.ch - b.ch
  }

  predicate Le(a: Pos, b: Pos) {
    Cmp(a, b) <= 0
  }

  predicate ValidPos(doc: Lines, p: Pos) {
    0 <= p.line < |doc| && 0 <= p.ch <= |doc[p.line]|
  }

  predicate ValidChange(doc: Lines, c: Change) {
    ValidPos(doc, c.from) && ValidPos(doc, c.to) && Le(c.from, c.to)
  }

  /** Two positions in order when cut to the size of the document, the first one on a line
      of it. */
  predicate Starts(doc: Lines, from: Pos, to: Pos) {
    && 0 <= from.line < |doc| && from.line <= to.line && 0 <= from.ch && 0 <= to.ch
    && Le(Clip(doc, from), Clip(doc, to))
  }

  /** The text around a position on its own line. */
  function Left(doc: Lines, p: Pos): string
    requires ValidPos(doc, p)
  {
    doc[p.line][..p.ch]
  }

  function Right(doc: Lines, p: Pos): string
    requires ValidPos(doc, p)
  {
    doc[p.line][p.ch..]
  }

  /** The lines that result from typing `text` between `pre` and `suf`. */
  function Glue(pre: string, text: Lines, suf: string): Lines {
    if |text| == 1 then [pre + text[0] + suf]
    else [pre + text[0]] + text[1..|text| - 1] + [Last(text) + suf]
  }

  function Splice(doc: Lines, c: Change): Lines
    requires ValidChange(doc, c)
  {
    doc[..c.from.line] + Glue(Left(doc, c.from), c.text, Right(doc, c.to)) + doc[c.to.line + 1..]
  }

  /** changeEnd: where the inserted text ends, in the changed document. */
  function ChangeEnd(c: Change): Pos {
    Pos(c.from.line + |c.text| - 1, |Last(c.text)| + if |c.text| == 1 then c.from.ch else 0)
  }

  function Between(doc: Lines, from: Pos, to: Pos): Lines
    requires ValidPos(doc, from) && ValidPos(doc, to) && Le(from, to)
  {
    if from.line == to.line then [doc[from.line][from.ch..to.ch]]
    else [Right(doc, from)] + doc[from.line + 1..to.line] + [Left(doc, to)]
  }

  /** historyChangeFromChange, without its marker spans. */
  function Inverse(doc: Lines, c: Change): Change
    requires ValidChange(doc, c)
  {
    Change(c.from, ChangeEnd(c), Between(doc, c.from, c.to))
  }

  // ----- what surrounds a change is untouched -----

  lemma GlueEnds(pre: string, text: Lines, suf: string)
    ensures var g := Glue(pre, text, suf);
            && |g| == |text|
            && |g[0]| >= |pre| && g[0][..|pre|] == pre
            && var e := |Last(text)| + if |text| == 1 then |pre| else 0;
               |Last(g)| >= e && Last(g)[e..] == suf
  {
  }

  /** The text before a change, and before any position in front of it. */
  lemma BeforeUntouched(doc: Lines, c: Change, p: Pos)
    requires ValidChange(doc, c) && ValidPos(doc, p) && Le(p, c.from)
    ensures var d := Splice(doc, c);
            && ValidPos(d, p)
            && d[..p.line] == doc[..p.line]
            && Left(d, p) == Left(doc, p)
  {
    GlueEnds(Left(doc, c.from), c.text, Right(doc, c.to));
    var d := Splice(doc, c);
    assert d[..p.line] == doc[..p.line];
    if p.line == c.from.line {
      assert d[p.line] == Glue(Left(doc, c.from), c.text, Right(doc, c.to))[0];
      assert d[p.line][..c.from.ch] == Left(doc, c.from);
      assert d[p.line][..p.ch] == d[p.line][..c.from.ch][..p.ch];
    } else {
      assert d[p.line] == doc[p.line];
    }
  }

  /** The text after a change starts where changeEnd says. */
  lemma AfterUntouched(doc: Lines, c: Change)
    requires ValidChange(doc, c)
    ensures var d, e := Splice(doc, c), ChangeEnd(c);
            && ValidPos(d, e) && Le(c.from, e)
            && Right(d, e) == Right(doc, c.to)
            && d[e.line + 1..] == doc[c.to.line + 1..]
            && |d| == |doc| + |c.text| - 1 - (c.to.line - c.from.line)
  {
    GlueEnds(Left(doc, c.from), c.text, Right(doc, c.to));
    var g := Glue(Left(doc, c.from), c.text, Right(doc, c.to));
    var d, e := Splice(doc, c), ChangeEnd(c);
    assert d[e.line] == Last(g);
  }

  // ----- the inverse of a change -----

  lemma BetweenInserted(doc: Lines, c: Change)
    requires ValidChange(doc, c)
    ensures var d := Splice(doc, c);
            ValidPos(d, c.from) && ValidPos(d, ChangeEnd(c)) && Le(c.from, ChangeEnd(c))
            && Between(d, c.from, ChangeEnd(c)) == c.text
  {
    BeforeUntouched(doc, c, c.from);
    AfterUntouched(doc, c);
    var d, e := Splice(doc, c), ChangeEnd(c);
    var pre, suf := Left(doc, c.from), Right(doc, c.to);
    var g := Glue(pre, c.text, suf);
    assert d[c.from.line..e.line + 1] == g;
    if |c.text| == 1 {
      assert d[c.from.line] == pre + c.text[0] + suf;
      assert d[c.from.line][c.from.ch..e.ch] == c.text[0];
    } else {
      assert d[c.from.line] == pre + c.text[0];
      assert Right(d, c.from) == c.text[0];
      assert d[e.line] == Last(c.text) + suf;
      assert Left(d, e) == Last(c.text);
      assert d[c.from.line + 1..e.line] == g[1..|g| - 1] == c.text[1..|c.text| - 1];
      assert [c.text[0]] + c.text[1..|c.text| - 1] + [Last(c.text)] == c.text;
    }
  }

  lemma GlueBetween(doc: Lines, from: Pos, to: Pos)
    requires ValidPos(doc, from) && ValidPos(doc, to) && Le(from, to)
    ensures Glue(Left(doc, from), Between(doc, from, to), Right(doc, to)) == doc[from.line..to.line + 1]
  {
    if from.line == to.line {
      var l := doc[from.line];
      assert l[..from.ch] + l[from.ch..to.ch] + l[to.ch..] == l;
    } else {
      var b, mid := Between(doc, from, to), doc[from.line + 1..to.line];
      assert |b| == |mid| + 2 && b[0] == Right(doc, from) && Last(b) == Left(doc, to);
      assert b[1..|b| - 1] == mid;
      assert Left(doc, from) + Right(doc, from) == doc[from.line];
      assert Left(doc, to) + Right(doc, to) == doc[to.line];
      assert [doc[from.line]] + mid + [doc[to.line]] == doc[from.line..to.line + 1];
    }
  }

  /** Replacing text by itself changes nothing. */
  lemma SpliceBetween(doc: Lines, from: Pos, to: Pos)
    requires ValidPos(doc, from) && ValidPos(doc, to) && Le(from, to)
    ensures Splice(doc, Change(from, to, Between(doc, from, to))) == doc
  {
    GlueBetween(doc, from, to);
    assert doc[..from.line] + doc[from.line..to.line + 1] + doc[to.line + 1..] == doc;
  }

  /** A splice only depends on the text around it. */
  lemma SameSurroundings(a: Lines, ca: Change, b: Lines, cb: Change)
    requires ValidChange(a, ca) && ValidChange(b, cb)
    requires ca.from == cb.from && ca.text == cb.text
    requires a[..ca.from.line] == b[..cb.from.line] && Left(a, ca.from) == Left(b, cb.from)
    requires a[ca.to.line + 1..] == b[cb.to.line + 1..] && Right(a, ca.to) == Right(b, cb.to)
    ensures Splice(a, ca) == Splice(b, cb)
  {
  }

  /** A history entry undoes its change, and the inverse of the inverse is the change. */
  lemma InverseUndoes(doc: Lines, c: Change)
    requires ValidChange(doc, c)
    ensures var d, inv := Splice(doc, c), Inverse(doc, c);
            && ValidChange(d, inv)
            && Splice(d, inv) == doc
            && Inverse(d, inv) == c
  {
    var d, inv := Splice(doc, c), Inverse(doc, c);
    BeforeUntouched(doc, c, c.from);
    AfterUntouched(doc, c);
    SameSurroundings(d, inv, doc, Change(c.from, c.to, inv.text));
    SpliceBetween(doc, c.from, c.to);
    BetweenInserted(doc, c);
    InverseEnd(doc, c);
  }

  lemma InverseEnd(doc: Lines, c: Change)
    requires ValidChange(doc, c)
    ensures ChangeEnd(Inverse(doc, c)) == c.to
  {
  }

  /** Adjacent insertions may share one history entry: stretching the entry's end
      over a second insertion at that end still undoes both at once. */
  lemma StretchedEntryUndoesBoth(doc: Lines, entry: Change, ins: Change)
    requires ValidChange(doc, entry) && ValidChange(doc, ins)
    requires ins.from == ins.to == entry.to
    ensures var d, stretched := Splice(doc, ins), entry.(to := ChangeEnd(ins));
            && ValidChange(d, stretched)
            && Splice(d, stretched) == Splice(doc, entry)
  {
    var d, stretched := Splice(doc, ins), entry.(to := ChangeEnd(ins));
    BeforeUntouched(doc, ins, entry.from);
    AfterUntouched(doc, ins);
    SameSurroundings(d, stretched, doc, entry);
  }

  // ----- the flat reading of a document -----

  /** The lines joined with line breaks. */
  function Flat(doc: Lines): string {
    if |doc| == 1 then doc[0] else doc[0] + "\n" + Flat(doc[1..])
  }

  function Before(doc: Lines, p: Pos): string
    requires ValidPos(doc, p)
  {
    Flat(doc[..p.line] + [Left(doc, p)])
  }

  function After(doc: Lines, p: Pos): string
    requires ValidPos(doc, p)
  {
    Flat([Right(doc, p)] + doc[p.line + 1..])
  }

  /** How many characters of the flat text come before a position. */
  function Offset(doc: Lines, p: Pos): (n: nat)
    requires ValidPos(doc, p)
    ensures n <= |Flat(doc)|
  {
    FlatSplit(doc, p);
    |Before(doc, p)|
  }

  lemma {:induction false} FlatCut(a: seq<string>, x: string, y: string, b: seq<string>)
    ensures Flat(a + [x + y] + b) == Flat(a + [x]) + Flat([y] + b)
    decreases |a|
  {
    var whole := a + [x + y] + b;
    if a == [] {
      assert whole == [x + y] + b && a + [x] == [x];
      if b == [] {
        assert whole == [x + y] && [y] + b == [y];
      } else {
        assert whole[1..] == b && ([y] + b)[1..] == b;
        assert x + y + "\n" + Flat(b) == x + (y + "\n" + Flat(b));
      }
    } else {
      assert whole[0] == a[0] && whole[1..] == a[1..] + [x + y] + b;
      assert (a + [x])[0] == a[0] && (a + [x])[1..] == a[1..] + [x];
      FlatCut(a[1..], x, y, b);
      assert a[0] + "\n" + (Flat(a[1..] + [x]) + Flat([y] + b)) == a[0] + "\n" + Flat(a[1..] + [x]) + Flat([y] + b);
    }
  }

  lemma FlatAt(doc: Lines, p: Pos)
    requires ValidPos(doc, p)
    ensures Flat(doc) == Before(doc, p) + After(doc, p)
    ensures Flat(doc)[..Offset(doc, p)] == Before(doc, p)
    ensures Flat(doc)[Offset(doc, p)..] == After(doc, p)
  {
    FlatSplit(doc, p);
  }

  lemma FlatSplit(doc: Lines, p: Pos)
    requires ValidPos(doc, p)
    ensures Flat(doc) == Before(doc, p) + After(doc, p)
  {
    FlatCut(doc[..p.line], Left(doc, p), Right(doc, p), doc[p.line + 1..]);
    assert Left(doc, p) + Right(doc, p) == doc[p.line];
    assert doc[..p.line] + [doc[p.line]] + doc[p.line + 1..] == doc;
  }

  lemma FlatGlue(head: seq<string>, pre: string, text: Lines, suf: string, tail: seq<string>)
    ensures Flat(head + Glue(pre, text, suf) + tail) == Flat(head + [pre]) + Flat(text) + Flat([suf] + tail)
  {
    hide Flat;
    if |text| == 1 {
      var t := text[0];
      assert pre + t + suf == pre + (t + suf);
      FlatCut(head, pre, t + suf, tail);
      FlatCut([], t, suf, tail);
      assert [] + [t + suf] + tail == [t + suf] + tail && [] + [t] == text;
    } else {
      FlatGlueMany(head, pre, text, suf, tail);
    }
  }

  lemma FlatGlueMany(head: seq<string>, pre: string, text: Lines, suf: string, tail: seq<string>)
    requires |text| > 1
    ensures Flat(head + Glue(pre, text, suf) + tail) == Flat(head + [pre]) + Flat(text) + Flat([suf] + tail)
  {
    hide Flat;
    var mid, ends := text[1..|text| - 1], Last(text) + suf;
    Regroup(head, [pre + text[0]], mid, [ends], tail);
    FlatCut(head, pre, text[0], mid + [ends] + tail);
    FlatCut([text[0]] + mid, Last(text), suf, tail);
    Regroup([], [text[0]], mid, [ends], tail);
    assert [] + [text[0]] == [text[0]] && [] + ([text[0]] + mid + [ends]) == [text[0]] + mid + [ends];
    assert [text[0]] + mid + [Last(text)] == text;
  }

  lemma Regroup<T>(a: seq<T>, b: seq<T>, c: seq<T>, d: seq<T>, e: seq<T>)
    ensures a + (b + c + d) + e == a + b + (c + d + e)
  {
  }

  /** A change is one flat splice: what came before it, its text, what came after. */
  lemma SpliceIsFlatSplice(doc: Lines, c: Change)
    requires ValidChange(doc, c)
    ensures Flat(Splice(doc, c))
         == Flat(doc)[..Offset(doc, c.from)] + Flat(c.text) + Flat(doc)[Offset(doc, c.to)..]
  {
    FlatGlue(doc[..c.from.line], Left(doc, c.from), c.text, Right(doc, c.to), doc[c.to.line + 1..]);
    FlatAt(doc, c.from);
    FlatAt(doc, c.to);
  }

  /** getBetween returns the characters between two offsets. */
  lemma BetweenIsFlatSlice(doc: Lines, from: Pos, to: Pos)
    requires ValidPos(doc, from) && ValidPos(doc, to) && Le(from, to)
    ensures Offset(doc, from) <= Offset(doc, to) <= |Flat(doc)|
    ensures Flat(Between(doc, from, to)) == Flat(doc)[Offset(doc, from)..Offset(doc, to)]
  {
    var c := Change(from, to, Between(doc, from, to));
    SpliceIsFlatSplice(doc, c);
    SpliceBetween(doc, from, to);
    FlatAt(doc, from);
    FlatAt(doc, to);
    var whole, mid := Flat(doc), Flat(c.text);
    var a, b := Offset(doc, from), Offset(doc, to);
    assert |whole| == a + |mid| + (|whole| - b);
    assert whole[a..b] == (whole[..a] + mid + whole[b..])[a..a + |mid|] == mid;
  }

  // ----- where positions go -----

  /** adjustForChange. */
  function Adjust(pos: Pos, c: Change): Pos {
    if Cmp(pos, c.from) < 0 then pos
    else if Cmp(pos, c.to) <= 0 then ChangeEnd(c)
    else
      Pos(pos.line + |c.text| - (c.to.line - c.from.line) - 1,
          if pos.line == c.to.line then pos.ch + ChangeEnd(c).ch - c.to.ch else pos.ch)
  }

  /** Adjusting never reorders two positions. */
  lemma AdjustIsMonotone(p: Pos, q: Pos, c: Change)
    requires Le(p, q) && Le(c.from, c.to)
    ensures Le(Adjust(p, c), Adjust(q, c))
  {
  }

  /** The text in front of an earlier position stays in front of it. */
  lemma AdjustBefore(doc: Lines, c: Change, p: Pos)
    requires ValidChange(doc, c) && ValidPos(doc, p) && Cmp(p, c.from) < 0
    ensures ValidPos(Splice(doc, c), Adjust(p, c))
    ensures Before(Splice(doc, c), Adjust(p, c)) == Before(doc, p)
    ensures Offset(Splice(doc, c), Adjust(p, c)) == Offset(doc, p)
  {
    BeforeUntouched(doc, c, p);
  }

  /** The text behind a position at or after the change's end stays behind it, and
      the offset moves by the inserted length less the removed length. */
  lemma AdjustAfter(doc: Lines, c: Change, p: Pos)
    requires ValidChange(doc, c) && ValidPos(doc, p) && Le(c.to, p)
    ensures ValidPos(Splice(doc, c), Adjust(p, c))
    ensures After(Splice(doc, c), Adjust(p, c)) == After(doc, p)
    ensures Offset(Splice(doc, c), Adjust(p, c))
         == Offset(doc, p) + |Flat(c.text)| - |Flat(Between(doc, c.from, c.to))|
  {
    hide Splice, Flat, Between;
    var d, q := Splice(doc, c), Adjust(p, c);
    AfterUntouched(doc, c);
    AdjustedRight(doc, c, p);
    SpliceIsFlatSplice(doc, c);
    BetweenIsFlatSlice(doc, c.from, c.to);
    FlatAt(doc, p);
    FlatAt(d, q);
    FlatAt(doc, c.to);
    assert |Flat(d)| == Offset(doc, c.from) + |Flat(c.text)| + (|Flat(doc)| - Offset(doc, c.to));
  }

  lemma AdjustedRight(doc: Lines, c: Change, p: Pos)
    requires ValidChange(doc, c) && ValidPos(doc, p) && Le(c.to, p)
    ensures var d, q := Splice(doc, c), Adjust(p, c);
            ValidPos(d, q) && Right(d, q) == Right(doc, p) && d[q.line + 1..] == doc[p.line + 1..]
  {
    AfterUntouched(doc, c);
    hide Splice, Glue;
    var d, e, q := Splice(doc, c), ChangeEnd(c), Adjust(p, c);
    if p.line == c.to.line {
      assert q.line == e.line && q.ch == p.ch + e.ch - c.to.ch;
      assert |d[e.line]| - e.ch == |doc[c.to.line]| - c.to.ch;
      assert Right(d, q) == Right(d, e)[p.ch - c.to.ch..];
      assert Right(doc, p) == Right(doc, c.to)[p.ch - c.to.ch..];
    } else {
      var k := p.line - (c.to.line + 1);
      assert q.line == e.line + 1 + k;
      assert d[q.line] == d[e.line + 1..][k] == doc[c.to.line + 1..][k] == doc[p.line];
      assert d[q.line + 1..] == d[e.line + 1..][k + 1..];
      assert doc[p.line + 1..] == doc[c.to.line + 1..][k + 1..];
    }
  }

  /** A position the change covers goes to the end of the inserted text. */
  lemma AdjustInside(doc: Lines, c: Change, p: Pos)
    requires ValidChange(doc, c) && ValidPos(doc, p) && Le(c.from, p) && Le(p, c.to)
    ensures ValidPos(Splice(doc, c), Adjust(p, c))
    ensures Before(Splice(doc, c), Adjust(p, c)) == Before(doc, c.from) + Flat(c.text)
  {
    var d, e := Splice(doc, c), ChangeEnd(c);
    AfterUntouched(doc, c);
    SpliceIsFlatSplice(doc, c);
    FlatAt(doc, c.from);
    FlatAt(doc, c.to);
    FlatAt(d, e);
    assert After(d, e) == After(doc, c.to);
    SameTail(Before(d, e), Before(doc, c.from) + Flat(c.text), After(d, e));
  }

  lemma SameTail(a: string, b: string, t: string)
    requires a + t == b + t
    ensures a == b
  {
    assert a == (a + t)[..|a + t| - |t|];
    assert b == (b + t)[..|b + t| - |t|];
  }

  // ----- positions from outside -----

  /** clipPos: the lines that exist keep their positions, except that one beyond an end of
      its line goes to that end, and a position before or after all lines goes to the
      first or the last position. */
  function Clip(doc: Lines, p: Pos): (q: Pos)
    ensures ValidPos(doc, q)
    ensures ValidPos(doc, p) ==> q == p
    ensures 0 <= p.line < |doc| ==> q.line == p.line
  {
    if p.line < 0 then Pos(0, 0)
    else if p.line > |doc| - 1 then Pos(|doc| - 1, |Last(doc)|)
    else if p.ch > |doc[p.line]| then Pos(p.line, |doc[p.line]|)
    else if p.ch < 0 then Pos(p.line, 0)
    else p
  }

  /** Clipping goes to the nearest position: none of the document lies between the given
      position and the clipped one. On a line that exists it stays on the line; together
      these determine it. */
  lemma ClipIsNearest(doc: Lines, p: Pos, q: Pos)
    requires ValidPos(doc, q)
    ensures Le(q, p) ==> Le(q, Clip(doc, p))
    ensures Le(p, q) ==> Le(Clip(doc, p), q)
    ensures q == Clip(doc, p)
       <==> && (0 <= p.line < |doc| ==> q.line == p.line)
            && forall x :: ValidPos(doc, x) ==> (Le(x, p) ==> Le(x, q)) && (Le(p, x) ==> Le(q, x))
  {
  }

  /** replaceRange accepts any two positions: clipped, then put in order. */
  function Clipped(doc: Lines, a: Pos, b: Pos, text: Lines): (c: Change)
    ensures ValidChange(doc, c) && c.text == text
    ensures {c.from, c.to} == {Clip(doc, a), Clip(doc, b)}
  {
    var from, to := Clip(doc, a), Clip(doc, b);
    if Cmp(to, from) < 0 then Change(to, from, text) else Change(from, to, text)
  }

  /** A change cut to the size of the document: only the first line of its text is left
      of one that ends after the last line. */
  function Fitted(doc: Lines, c: Change): (r: Change)
    requires Starts(doc, c.from, c.to)
    ensures ValidChange(doc, r)
    ensures ValidChange(doc, c) ==> r == c
  {
    Change(Clip(doc, c.from), Clip(doc, c.to), if c.to.line < |doc| then c.text else [c.text[0]])
  }
}
