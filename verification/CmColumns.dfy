/** Columns of a line with tabs: counting them, finding the position of a column, and
    counting on from a remembered position (codemirror.js). */
module CmColumns {
  import opened Wrappers

  const TAB := '\t'

  /** The column after one more character; past the end of the string all have width one. */
  function Next(s: string, i: nat, column: nat, tabSize: nat): nat
    requires tabSize >= 1
  {
    if i < |s| && s[i] == TAB then column + (tabSize - column % tabSize) else column + 1
  }

  /** The column reached at `end` when counting from a given column at `from`. */
  function Advance(s: string, from: nat, end: nat, column: nat, tabSize: nat): nat
    requires tabSize >= 1 && from <= end
    decreases end
  {
    if from == end then column else Next(s, end - 1, Advance(s, from, end - 1, column, tabSize), tabSize)
  }

  function Column(s: string, i: nat, tabSize: nat): nat
    requires tabSize >= 1
  {
    Advance(s, 0, i, 0, tabSize)
  }

  /** A tab goes on to the next multiple of the tab size, any other character, and a place
      beyond the end, takes one column. */
  lemma TabStops(s: string, from: nat, i: nat, column: nat, tabSize: nat)
    requires tabSize >= 1 && from <= i
    ensures Advance(s, from, from, column, tabSize) == column
    ensures var before, after := Advance(s, from, i, column, tabSize), Advance(s, from, i + 1, column, tabSize);
            if i < |s| && s[i] == '\t' then before < after == (before / tabSize + 1) * tabSize
            else after == before + 1
  {
    var n := Advance(s, from, i, column, tabSize);
    assert n == n / tabSize * tabSize + n % tabSize;
  }

  /** indexOf for the next tab. */
  method NextTab(s: string, from: nat) returns (i: int)
    ensures i == -1 ==> forall k :: from <= k < |s| ==> s[k] != TAB
    ensures i != -1 ==> from <= i < |s| && s[i] == TAB && forall k :: from <= k < i ==> s[k] != TAB
  {
    i := from;
    while i < |s|
      invariant from <= i && forall k :: from <= k < i && k < |s| ==> s[k] != TAB
    {
      if s[i] == TAB {
        return;
      }
      i := i + 1;
    }
    i := -1;
  }

  lemma {:induction false} AdvanceWithoutTabs(s: string, from: nat, end: nat, column: nat, tabSize: nat)
    requires tabSize >= 1 && from <= end && forall k :: from <= k < end && k < |s| ==> s[k] != TAB
    ensures Advance(s, from, end, column, tabSize) == column + (end - from)
    decreases end
  {
    if from < end {
      AdvanceWithoutTabs(s, from, end - 1, column, tabSize);
    }
  }

  /** Counting on from a remembered position is counting from further back. */
  lemma {:induction false} AdvanceInTwo(s: string, from: nat, mid: nat, end: nat, column: nat, tabSize: nat)
    requires tabSize >= 1 && from <= mid <= end
    ensures Advance(s, mid, end, Advance(s, from, mid, column, tabSize), tabSize)
         == Advance(s, from, end, column, tabSize)
    decreases end
  {
    if mid < end {
      AdvanceInTwo(s, from, mid, end - 1, column, tabSize);
    }
  }

  /** The white space of regular expressions, and the non-breaking space. */
  predicate IsSpace(c: char) {
    || '\t' <= c <= '\r' || c == ' ' || c == '\U{00A0}' || c == '\U{1680}' || '\U{2000}' <= c <= '\U{200A}'
    || c in {'\U{2028}', '\U{2029}', '\U{202F}', '\U{205F}', '\U{3000}', '\U{FEFF}'}
  }

  /** The code points of white space (section "White Space" and "Line Terminators" of
      ECMA-262). */
  lemma SpacesAre(c: char)
    ensures var u := c as int;
            IsSpace(c) <==> 0x9 <= u <= 0xD || u in {0x20, 0xA0, 0x1680} || 0x2000 <= u <= 0x200A
                            || u in {0x2028, 0x2029, 0x202F, 0x205F, 0x3000, 0xFEFF}
  {
  }

  /** Where the indentation of a line ends. */
  function IndentationEnd(s: string): (n: nat)
    ensures n <= |s| && (n < |s| ==> !IsSpace(s[n])) && forall i :: 0 <= i < n ==> IsSpace(s[i])
  {
    if s == [] || !IsSpace(s[0]) then 0 else 1 + IndentationEnd(s[1..])
  }

  /** search for the first character that is not a space. */
  method FirstNonSpace(s: string) returns (i: nat)
    ensures i == IndentationEnd(s)
  {
    i := 0;
    while i < |s| && IsSpace(s[i])
      invariant i <= |s| && forall k :: 0 <= k < i ==> IsSpace(s[k])
    {
      i := i + 1;
    }
  }

  /** countColumn, up to an end or to the end of the indentation. Before the start it counts
      backwards, a column per character. */
  method CountColumn(s: string, given: Option<nat>, tabSize: nat, startIndex: nat, startValue: nat) returns (n: int)
    requires tabSize >= 1
    ensures var end := if given.Some? then given.value else IndentationEnd(s);
            n == if startIndex <= end then Advance(s, startIndex, end, startValue, tabSize)
                 else startValue - (startIndex - end)
  {
    var end: nat;
    if given.Some? {
      end := given.value;
    } else {
      end := FirstNonSpace(s);
    }
    var i: nat := startIndex;
    var column: nat := startValue;
    while true
      invariant startIndex <= end ==> i <= end
      invariant end < startIndex ==> i == startIndex && column == startValue
      invariant startIndex <= i && column == Advance(s, startIndex, i, startValue, tabSize)
      decreases end - i
    {
      var nextTab := NextTab(s, i);
      if nextTab < 0 || nextTab >= end {
        if i <= end {
          AdvanceWithoutTabs(s, i, end, column, tabSize);
          AdvanceInTwo(s, startIndex, i, end, startValue, tabSize);
        }
        return column + (end - i);
      }
      AdvanceWithoutTabs(s, i, nextTab, column, tabSize);
      AdvanceInTwo(s, startIndex, i, nextTab, startValue, tabSize);
      column := column + (nextTab - i);
      column := column + (tabSize - column % tabSize);
      i := nextTab + 1;
    }
  }

  /** The least position whose column reaches the goal, or the end of the line. */
  predicate Reaches(s: string, goal: int, tabSize: nat, pos: int)
    requires tabSize >= 1
  {
    && 0 <= pos <= |s|
    && (forall i: nat :: i < pos ==> Column(s, i, tabSize) < goal)
    && (pos < |s| ==> Column(s, pos, tabSize) >= goal)
  }

  lemma {:induction false} ColumnsIncrease(s: string, i: nat, j: nat, tabSize: nat)
    requires tabSize >= 1 && i <= j
    ensures Column(s, i, tabSize) + (j - i) <= Column(s, j, tabSize)
    decreases j
  {
    if i < j {
      ColumnsIncrease(s, i, j - 1, tabSize);
    }
  }

  method FindColumn(s: string, goal: int, tabSize: nat) returns (found: int)
    requires tabSize >= 1
    ensures goal >= 0 ==> Reaches(s, goal, tabSize, found)
    ensures goal < 0 ==> found == goal
  {
    var pos: nat, col: nat := 0, 0;
    while true
      invariant pos <= |s| && col == Column(s, pos, tabSize)
      invariant pos > 0 ==> col < goal
      decreases |s| - pos
    {
      var nextTab := NextTab(s, pos);
      if nextTab == -1 {
        nextTab := |s|;
      }
      var skipped := nextTab - pos;
      if nextTab == |s| || col + skipped >= goal {
        found := pos + if skipped < goal - col then skipped else goal - col;
        if goal >= 0 {
          StopBeforeTab(s, goal, tabSize, pos, nextTab);
        }
        return;
      }
      PastTab(s, tabSize, pos, nextTab);
      ColumnAfterTab(s, tabSize, nextTab);
      col := col + (nextTab - pos);
      col := col + (tabSize - col % tabSize);
      pos := nextTab + 1;
      if col >= goal {
        BelowUntil(s, goal, tabSize, nextTab);
        return pos;
      }
    }
  }

  lemma PastTab(s: string, tabSize: nat, pos: nat, tab: nat)
    requires tabSize >= 1 && pos <= tab <= |s| && forall k :: pos <= k < tab ==> s[k] != TAB
    ensures forall i :: pos <= i <= tab ==> Column(s, i, tabSize) == Column(s, pos, tabSize) + (i - pos)
  {
    forall i | pos <= i <= tab
      ensures Column(s, i, tabSize) == Column(s, pos, tabSize) + (i - pos)
    {
      AdvanceWithoutTabs(s, pos, i, Column(s, pos, tabSize), tabSize);
      AdvanceInTwo(s, 0, pos, i, 0, tabSize);
    }
  }

  lemma ColumnAfterTab(s: string, tabSize: nat, tab: nat)
    requires tabSize >= 1 && tab < |s| && s[tab] == TAB
    ensures var col := Column(s, tab, tabSize);
            Column(s, tab + 1, tabSize) == col + (tabSize - col % tabSize)
  {
  }

  lemma BelowUntil(s: string, goal: int, tabSize: nat, last: nat)
    requires tabSize >= 1 && Column(s, last, tabSize) < goal
    ensures forall i: nat :: i <= last ==> Column(s, i, tabSize) < goal
  {
    forall i: nat | i <= last
      ensures Column(s, i, tabSize) < goal
    {
      ColumnsIncrease(s, i, last, tabSize);
    }
  }

  lemma StopBeforeTab(s: string, goal: nat, tabSize: nat, pos: nat, tab: nat)
    requires tabSize >= 1 && pos <= tab <= |s| && forall k :: pos <= k < tab ==> s[k] != TAB
    requires pos > 0 ==> Column(s, pos, tabSize) < goal
    requires tab == |s| || Column(s, pos, tabSize) + (tab - pos) >= goal
    ensures var skipped, missing := tab - pos, goal - Column(s, pos, tabSize);
            Reaches(s, goal, tabSize, pos + if skipped < missing then skipped else missing)
  {
    PastTab(s, tabSize, pos, tab);
    if pos > 0 {
      BelowUntil(s, goal, tabSize, pos);
    }
  }

  // ----- findColumn inverts countColumn -----

  /** The position found for the column of a position is that position. */
  lemma FindInvertsCount(s: string, tabSize: nat, p: nat, found: int)
    requires tabSize >= 1 && p <= |s| && Reaches(s, Column(s, p, tabSize), tabSize, found)
    ensures found == p
  {
    var goal := Column(s, p, tabSize);
    forall i: nat | i < p
      ensures Column(s, i, tabSize) < goal
    {
      ColumnsIncrease(s, i, p, tabSize);
    }
  }

  /** A goal inside the line is overshot exactly when it lies strictly inside the tab before
      the position found. */
  lemma OvershootIsInsideTab(s: string, goal: nat, tabSize: nat, found: nat)
    requires tabSize >= 1 && Reaches(s, goal, tabSize, found) && found < |s|
    ensures Column(s, found, tabSize) != goal
       <==> found > 0 && s[found - 1] == TAB && Column(s, found - 1, tabSize) < goal < Column(s, found, tabSize)
  {
    if found > 0 {
      assert Column(s, found - 1, tabSize) < goal;
    }
  }

  // ----- a stream that remembers the last column it counted -----

  class StringStream {
    const text: string
    const tabSize: nat
    var start: nat
    var lineStart: nat
    var lastColumnPos: nat
    var lastColumnValue: nat

    ghost predicate Valid()
      reads this
    {
      tabSize >= 1 && lastColumnValue == Column(text, lastColumnPos, tabSize)
    }

    constructor (text: string, tabSize: nat)
      ensures Valid() && this.text == text && this.tabSize == (if tabSize == 0 then 8 else tabSize)
      ensures start == 0 && lineStart == 0 && lastColumnPos == 0
    {
      this.text, this.tabSize := text, if tabSize == 0 then 8 else tabSize;
      start, lineStart, lastColumnPos, lastColumnValue := 0, 0, 0, 0;
    }

    /** column: counted on from the last call, and right exactly when the token does not
        start before the position remembered. */
    method TokenColumn() returns (r: int)
      requires Valid()
      modifies this`lastColumnPos, this`lastColumnValue
      ensures Valid()
      ensures lastColumnPos == if old(lastColumnPos) < start then start else old(lastColumnPos)
      ensures r == Column(text, lastColumnPos, tabSize) - Column(text, lineStart, tabSize)
      ensures r == Column(text, start, tabSize) - Column(text, lineStart, tabSize) <==> old(lastColumnPos) <= start
    {
      ghost var from := lastColumnPos;
      if lastColumnPos < start {
        AdvanceInTwo(text, 0, lastColumnPos, start, 0, tabSize);
        var value := CountColumn(text, Some(start), tabSize, lastColumnPos, lastColumnValue);
        lastColumnValue := value;
        lastColumnPos := start;
      } else {
        ColumnsIncrease(text, start, lastColumnPos, tabSize);
      }
      var hidden := 0;
      if lineStart != 0 {
        hidden := CountColumn(text, Some(lineStart), tabSize, 0, 0);
      }
      r := lastColumnValue - hidden;
    }
  }
}
