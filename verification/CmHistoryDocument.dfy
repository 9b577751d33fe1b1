/** The document object: its methods update text, selection and history in place,
    and each does to its state what the state machine says (codemirror.js). */
module CmHistoryDocument {
  import opened Wrappers
  import opened CmText
  import opened CmReverting
  import opened CmLineShape
  import opened CmUpdateDoc
  import opened CmHistory

  class Document {
    const settings: Settings
    const text: LineDoc
    var sel: Selection
    var hist: History
    var cleanGeneration: nat

    ghost predicate Valid()
      reads this, text, text.tree, text.Repr()
    {
      text.Valid() && Wf(hist)
    }

    ghost function State(): DocState
      requires text.Valid()
      reads this, text, text.tree, Chunks(text.tree.shape), LineSet(text.tree.shape)
    {
      DocState(text.Text(), sel, hist, cleanGeneration)
    }

    constructor (settings: Settings, lines: Lines, sel: Selection, estimate: Option<string -> real>)
      ensures Valid() && State() == NewDoc(settings, lines, sel) && this.settings == settings
      ensures fresh(text) && forall o :: o in text.Repr() ==> fresh(o)
    {
      hide LineDoc.Valid, LineDoc.Text, LineDoc.Repr, LineDoc.LineHeights, LinesOf, NodesOf;
      this.settings := settings;
      text := new LineDoc(lines, estimate);
      this.sel := sel;
      hist := NewHistory(0).(undoDepth := settings.undoDepth);
      cleanGeneration := 1;
      new;
      text.ObjectsExist();
    }

    /** All objects of the document are old ones of its or new. */
    twostate predicate OwnsOldOrNew()
      reads this, text, text.tree
    {
      forall o :: o in text.Repr() ==> o in old(text.Repr()) || fresh(o)
    }

    lemma ApartFromText()
      ensures this !in text.Repr()
    {
    }

    // ----- stacks -----

    static method ClearSelectionEvents(events: seq<Event>) returns (stack: seq<Event>)
      ensures stack == StripSelections(events)
    {
      stack := events;
      while |stack| > 0
        invariant StripSelections(stack) == StripSelections(events)
        decreases |stack|
      {
        if stack[|stack| - 1].ChangeEvent? {
          return;
        }
        stack := stack[..|stack| - 1];
      }
    }

    static method DropOldest(events: seq<Event>, undoDepth: nat) returns (stack: seq<Event>)
      requires Guarded(events) && (events == [] || Last(events).ChangeEvent?)
      ensures stack == Trim(events, Some(undoDepth))
    {
      stack := events;
      while |stack| > undoDepth
        invariant Guarded(stack) && (stack == [] || Last(stack).ChangeEvent?)
        invariant Trim(stack, Some(undoDepth)) == Trim(events, Some(undoDepth))
        decreases |stack|
      {
        assert stack[|stack| - 1].ChangeEvent?;
        stack := stack[1..];
        if stack[0].ChangeEvent? {
          stack := stack[1..];
        }
      }
    }

    /** lastChangeEvent; true when a change event is on top of what is left. */
    static method FindLastChangeEvent(events: seq<Event>, force: bool) returns (done: seq<Event>, found: bool)
      ensures (done, found) == LastChangeEvent(events, force)
    {
      done := events;
      if force {
        done := ClearSelectionEvents(done);
        found := |done| > 0;
      } else if |done| > 0 && done[|done| - 1].ChangeEvent? {
        found := true;
      } else if |done| > 1 && done[|done| - 2].ChangeEvent? {
        done := done[..|done| - 1];
        found := true;
      } else {
        found := false;
      }
    }

    // ----- changes -----

    /** historyChangeFromChange. */
    method HistoryChangeFromChange(c: Change) returns (inverse: Change)
      requires text.Valid() && Applies(text.Text(), c)
      ensures text.Same() && inverse == InvertChange(text.Text(), c)
    {
      var between := text.GetBetween(c.from, c.to);
      inverse := Change(c.from, ChangeEnd(c), between);
    }

    /** Merges a change into an event. */
    method JoinEvent(event: Event, c: Change) returns (merged: Event)
      requires text.Valid() && ValidChange(text.Text(), c)
      requires event.ChangeEvent? && event.changes != []
      ensures text.Same() && merged == Extend(text.Text(), event, c)
    {
      hide LineDoc.Valid, LineDoc.Text, LineDoc.Repr, LinesOf, NodesOf;
      var last := event.changes[|event.changes| - 1];
      if c.from == c.to && c.from == last.to {
        last := last.(to := ChangeEnd(c));
        merged := event.(changes := event.changes[..|event.changes| - 1] + [last]);
      } else {
        var inverse := HistoryChangeFromChange(c);
        merged := event.(changes := event.changes + [inverse]);
      }
    }

    /** Puts a fresh event on top, above a selection, and drops the oldest ones. */
    method StartNewEvent(events: seq<Event>, c: Change) returns (done: seq<Event>)
      requires text.Valid() && ValidChange(text.Text(), c) && Guarded(events) && hist.generation > 0
      ensures text.Same() && Guarded(StartEvent(text.Text(), sel, events, c, hist.generation))
      ensures done == Trim(StartEvent(text.Text(), sel, events, c, hist.generation), hist.undoDepth)
    {
      hide LineDoc.Valid, LineDoc.Text, LineDoc.Repr, LinesOf, NodesOf;
      done := events;
      if |done| == 0 || done[|done| - 1].ChangeEvent? {
        done := PushSelection(sel, done);
      }
      var inverse := HistoryChangeFromChange(c);
      done := done + [ChangeEvent([inverse], hist.generation)];
      StartEventGuarded(text.Text(), sel, events, c, hist.generation);
      text.ObjectsExist();
      if hist.undoDepth.Some? {
        done := DropOldest(done, hist.undoDepth.value);
      }
    }

    /** The part of addChangeToHistory that finds or starts the event of a change. */
    method RecordChange(c: Change, origin: Option<string>, opId: Option<nat>, time: int) returns (done: seq<Event>)
      requires Valid() && ValidChange(text.Text(), c)
      ensures text.Same() && Valid() && done == Recorded(settings, State(), c, origin, opId, time)
    {
      hide LineDoc.Valid, LineDoc.Text, LineDoc.Repr, LinesOf, NodesOf, Trim, StartEvent, Extend, LastChangeEvent;
      text.ObjectsExist();
      var mayMerge := SameOp(hist.lastOp, opId) ||
        (hist.lastOrigin == origin &&
         ((OriginStarts(origin, '+') && settings.editor && hist.lastModTime > time - settings.historyEventDelay)
          || OriginStarts(origin, '*')));
      var found := false;
      done := hist.done;
      if mayMerge {
        done, found := FindLastChangeEvent(done, SameOp(hist.lastOp, opId));
      }
      assert (done, found) == Mergeable(settings, hist, origin, opId, time);
      if found {
        var merged := JoinEvent(done[|done| - 1], c);
        done := done[..|done| - 1] + [merged];
      } else {
        done := StartNewEvent(done, c);
      }
    }

    method AddChangeToHistory(c: Change, origin: Option<string>, selAfter: Selection, opId: Option<nat>, time: int)
      requires Valid() && ValidChange(text.Text(), c)
      modifies this`hist
      ensures text.Same() && hist == AddChange(settings, old(State()), c, origin, selAfter, opId, time)
    {
      hide LineDoc.Valid, LineDoc.Text, LineDoc.Repr, LinesOf, NodesOf, Recorded;
      text.ObjectsExist();
      var done := RecordChange(c, origin, opId, time);
      var generation := hist.maxGeneration + 1;
      hist := History(done + [SelectionEvent(selAfter)], [], hist.undoDepth,
                      time, time, opId, opId, origin, origin, generation, generation);
    }

    /** makeChangeInner, for one unlinked document. */
    method MakeChangeInner(c: Change, origin: Option<string>, selAfter: Selection, opId: Option<nat>, time: int,
                           wholeLineOption: bool)
      requires Valid() && ValidChange(text.Text(), c)
      modifies this, text.Repr()
      ensures Valid() && OwnsOldOrNew()
      ensures State() == MakeChange(settings, old(State()), c, origin, selAfter, opId, time)
    {
      hide LineDoc.Valid, LineDoc.Text, LineDoc.Repr, LineDoc.LineHeights, LineDoc.Renewed, LinesOf, NodesOf, Splice,
           AddChange;
      if |c.text| == 1 && c.text[0] == "" && c.from == c.to {
        return;
      }
      ghost var s := State();
      MakeChangeKeepsWf(settings, s, c, origin, selAfter, opId, time);
      AddChangeToHistory(c, origin, selAfter, opId, time);
      ApartFromText();
      text.UpdateDoc(c, false, wholeLineOption);
      text.ObjectsExist();
      sel := selAfter;
    }

    method ReplaceRange(a: Pos, b: Pos, inserted: Lines, origin: Option<string>, selAfter: Selection,
                        opId: Option<nat>, time: int, wholeLineOption: bool)
      requires Valid()
      modifies this, text.Repr()
      ensures Valid() && OwnsOldOrNew()
      ensures Some(State()) == Step(settings, old(State()), Edit(a, b, inserted, origin, selAfter, opId, time))
    {
      hide LineDoc.Valid, LineDoc.Text, LineDoc.Repr, LinesOf, NodesOf;
      var from := text.ClipPos(a);
      var to := text.ClipPos(b);
      if Cmp(to, from) < 0 {
        from, to := to, from;
      }
      MakeChangeInner(Change(from, to, inserted), origin, selAfter, opId, time, wholeLineOption);
    }

    // ----- selections -----

    /** setSelection, with addSelectionToHistory. */
    method SetSelection(selection: Selection, opId: Option<nat>, origin: Option<string>, clearRedo: bool, time: int)
      requires Valid()
      modifies this
      ensures Valid()
      ensures Some(State()) == Step(settings, old(State()), Select(selection, opId, origin, clearRedo, time))
    {
      hide LineDoc.Valid, LineDoc.Text, LineDoc.Repr, LinesOf, NodesOf;
      text.ObjectsExist();
      SelectKeepsWf(settings, hist, selection, opId, origin, clearRedo, time);
      var overwrite := SameOp(hist.lastSelOp, opId);
      if !overwrite && origin.Some? && origin.value != "" && hist.lastSelOrigin == origin {
        overwrite := hist.lastModTime == hist.lastSelTime && hist.lastOrigin == origin;
        if !overwrite {
          overwrite := SelectionMayJoin(selection, origin, time);
        }
      }
      var done, undone := hist.done, hist.undone;
      if overwrite {
        done := done[|done| - 1 := SelectionEvent(selection)];
        assert done == Init(hist.done) + [SelectionEvent(selection)];
      } else {
        done := PushSelection(selection, done);
      }
      if clearRedo {
        undone := ClearSelectionEvents(undone);
      }
      sel := selection;
      hist := hist.(done := done, undone := undone, lastSelTime := time, lastSelOrigin := origin, lastSelOp := opId);
    }

    /** selectionEventCanBeMerged. */
    method SelectionMayJoin(selection: Selection, origin: Option<string>, time: int) returns (r: bool)
      requires hist.done != [] && Last(hist.done).SelectionEvent?
      ensures r == SelectionCanBeMerged(settings, hist, origin, selection, time)
    {
      var prev := hist.done[|hist.done| - 1].sel;
      r := OriginStarts(origin, '*')
        || (OriginStarts(origin, '+')
            && |prev.ranges| == |selection.ranges|
            && prev.SomethingSelected() == selection.SomethingSelected()
            && time - hist.lastSelTime <= if settings.editor then settings.historyEventDelay else 500);
    }

    // ----- undo and redo -----

    /** Looks for an event that can be used. */
    static method FindUsable(source: seq<Event>) returns (found: bool)
      ensures found == HasChange(source)
    {
      var i := 0;
      while i < |source| && source[i].SelectionEvent?
        invariant 0 <= i <= |source|
        invariant forall k :: 0 <= k < i ==> source[k].SelectionEvent?
      {
        i := i + 1;
      }
      HasChangeMeans(source);
      found := i < |source|;
    }

    /** Moves the selections above the top change event to the other stack. */
    static method PopToChange(from: seq<Event>, to: seq<Event>, sel: Selection)
      returns (source: seq<Event>, dest: seq<Event>, selAfter: Selection)
      requires HasChange(from)
      ensures (source, dest, selAfter) == PopSelections(from, to, sel)
    {
      source, dest, selAfter := from, to, sel;
      while source[|source| - 1].SelectionEvent?
        invariant HasChange(source)
        invariant PopSelections(source, dest, selAfter) == PopSelections(from, to, sel)
        decreases |source|
      {
        selAfter := source[|source| - 1].sel;
        source := source[..|source| - 1];
        dest := PushSelection(selAfter, dest);
      }
    }

    method Undo(computed: Selection, wholeLineOption: bool)
      requires Valid() && CanApply(State(), true)
      modifies this, text.Repr()
      ensures Valid() && OwnsOldOrNew()
      ensures Some(State()) == Step(settings, old(State()), Action.Undo(computed))
    {
      hide LineDoc.Valid, LineDoc.Text, LineDoc.Repr, LinesOf, NodesOf, FromHistory, CanApply;
      FromHistoryKeepsWf(State(), true, computed);
      MakeChangeFromHistory(true, computed, wholeLineOption);
    }

    method Redo(computed: Selection, wholeLineOption: bool)
      requires Valid() && CanApply(State(), false)
      modifies this, text.Repr()
      ensures Valid() && OwnsOldOrNew()
      ensures Some(State()) == Step(settings, old(State()), Action.Redo(computed))
    {
      hide LineDoc.Valid, LineDoc.Text, LineDoc.Repr, LinesOf, NodesOf, FromHistory, CanApply;
      FromHistoryKeepsWf(State(), false, computed);
      MakeChangeFromHistory(false, computed, wholeLineOption);
    }

    method MakeChangeFromHistory(undo: bool, computed: Selection, wholeLineOption: bool)
      requires text.Valid() && CanApply(State(), undo)
      modifies this, text.Repr()
      ensures text.Valid() && OwnsOldOrNew()
      ensures State() == FromHistory(old(State()), undo, computed)
    {
      hide LineDoc.Valid, LineDoc.Text, LineDoc.Repr, LinesOf, NodesOf;
      hide ApplyTop, PopSelections, StripSelections, Revertible;
      text.ObjectsExist();
      var source, dest := if undo then hist.done else hist.undone, if undo then hist.undone else hist.done;
      var usable := FindUsable(source);
      if !usable {
        return;
      }
      var selAfter;
      source, dest, selAfter := PopToChange(source, dest, sel);
      ApplyTopEvent(undo, source, dest, selAfter, computed, wholeLineOption);
    }

    /** The part of makeChangeFromHistory after the selections have been popped. */
    method ApplyTopEvent(undo: bool, from: seq<Event>, to: seq<Event>, selAfter: Selection, computed: Selection,
                         wholeLineOption: bool)
      requires text.Valid()
      requires from != [] && Last(from).ChangeEvent? && Revertible(CUT, text.Text(), Last(from).changes)
      modifies this, text.Repr()
      ensures text.Valid() && OwnsOldOrNew()
      ensures State() == ApplyTop(old(State()), undo, from, to, selAfter, computed)
    {
      hide LineDoc.Valid, LineDoc.Text, LineDoc.Repr, LinesOf, NodesOf, Revert, Anti, Revertible, PushSelection;
      ghost var s := State();
      var event := from[|from| - 1];
      var source := from[..|from| - 1];
      ApartFromText();
      FittingApplies(text.Text(), event.changes);
      var antiChanges := ApplyBackwards(event.changes, wholeLineOption);
      text.ObjectsExist();
      assert text.Text() == Revert(TEXT, s.lines, event.changes) && antiChanges == Anti(TEXT, s.lines, event.changes);
      assert event == Last(from) && source == Init(from);
      var dest := PushSelection(selAfter, to) + [ChangeEvent(antiChanges, hist.generation)];
      hist := hist.(done := if undo then source else dest, undone := if undo then dest else source,
                    lastOrigin := None, lastSelOrigin := None, generation := event.generation);
      sel := if |source| > 0 && source[|source| - 1].SelectionEvent? then source[|source| - 1].sel else computed;
    }

    /** The loop over an event's entries, the last one first. */
    method ApplyBackwards(changes: seq<Change>, wholeLineOption: bool) returns (antiChanges: seq<Change>)
      requires text.Valid() && Revertible(CUT, text.Text(), changes)
      modifies text.Repr()
      ensures text.Valid() && OwnsOldOrNew()
      ensures text.Text() == Revert(CUT, old(text.Text()), changes)
      ensures antiChanges == Anti(CUT, old(text.Text()), changes)
    {
      hide LineDoc.Valid, LineDoc.Text, LineDoc.Repr, LinesOf, NodesOf;
      antiChanges := [];
      ghost var lines := text.Text();
      var i := |changes| - 1;
      UnderwayStarts(CUT, lines, changes);
      while i >= 0
        invariant -1 <= i < |changes|
        invariant text.Valid() && OwnsOldOrNew()
        invariant Underway(CUT, lines, changes, text.Text(), antiChanges, i + 1)
        decreases i
      {
        UnderwayStep(CUT, lines, changes, text.Text(), antiChanges, i);
        var inverse := ApplyEntry(changes[i], wholeLineOption);
        antiChanges := antiChanges + [inverse];
        i := i - 1;
      }
      UnderwayEnds(CUT, lines, changes, text.Text(), antiChanges);
    }

    /** One entry, with makeChangeSingleDoc, which cuts it to the size of the document. */
    method ApplyEntry(c: Change, wholeLineOption: bool) returns (inverse: Change)
      requires text.Valid() && Applies(text.Text(), c)
      modifies text.Repr()
      ensures text.Valid() && OwnsOldOrNew()
      ensures text.Text() == ApplyChange(old(text.Text()), c)
      ensures inverse == InvertChange(old(text.Text()), c)
    {
      hide LineDoc.Valid, LineDoc.Text, LineDoc.Repr, LineDoc.LineHeights, LineDoc.Renewed, LinesOf, NodesOf;
      inverse := HistoryChangeFromChange(c);
      var change := c;
      text.SizeIsCached();
      if c.to.line >= text.tree.root.size {
        var end := text.ClipPos(c.to);
        change := Change(c.from, end, [c.text[0]]);
      }
      text.UpdateDoc(change, false, wholeLineOption);
    }

    // ----- clean marks -----

    method ChangeGeneration(forceSplit: bool) returns (g: nat)
      modifies this`hist
      ensures g == old(hist).generation
      ensures hist == if forceSplit then old(hist).(lastOp := None, lastSelOp := None, lastOrigin := None)
                      else old(hist)
    {
      if forceSplit {
        hist := hist.(lastOp := None, lastSelOp := None, lastOrigin := None);
      }
      g := hist.generation;
    }

    method MarkAsClean()
      requires Valid()
      modifies this
      ensures Valid()
      ensures Some(State()) == Step(settings, old(State()), Mark)
    {
      hide LineDoc.Valid, LineDoc.Text, LineDoc.Repr, LinesOf, NodesOf;
      text.ObjectsExist();
      cleanGeneration := ChangeGeneration(true);
    }

    method RestartHistory()
      requires Valid()
      modifies this
      ensures Valid()
      ensures Some(State()) == Step(settings, old(State()), Clear)
    {
      hide LineDoc.Valid, LineDoc.Text, LineDoc.Repr, LinesOf, NodesOf;
      text.ObjectsExist();
      hist := NewHistory(hist.maxGeneration);
    }
  }

  // ----- the loop of ApplyBackwards -----

  /** The first n edits are still to be taken back, the others have been. */
  ghost predicate Underway<D, C>(l: Language<D, C>, start: D, edits: seq<C>, d: D, collected: seq<C>, n: nat)
    requires n <= |edits|
  {
    && Revertible(l, d, edits[..n])
    && Revert(l, d, edits[..n]) == Revert(l, start, edits)
    && collected + Anti(l, d, edits[..n]) == Anti(l, start, edits)
  }

  lemma UnderwayStarts<D, C>(l: Language<D, C>, d: D, edits: seq<C>)
    requires Revertible(l, d, edits)
    ensures Underway(l, d, edits, d, [], |edits|)
  {
    assert edits[..|edits|] == edits;
  }

  lemma UnderwayStep<D, C>(l: Language<D, C>, start: D, edits: seq<C>, d: D, collected: seq<C>, i: nat)
    requires i < |edits| && Underway(l, start, edits, d, collected, i + 1)
    ensures l.valid(d, edits[i])
    ensures Underway(l, start, edits, l.apply(d, edits[i]), collected + [l.inverse(d, edits[i])], i)
  {
    var init, c := edits[..i], edits[i];
    assert edits[..i + 1] == init + [c];
    Snoc(l, d, init, c);
    ConcatAssociates(collected, [l.inverse(d, c)], Anti(l, l.apply(d, c), init));
  }

  lemma UnderwayEnds<D, C>(l: Language<D, C>, start: D, edits: seq<C>, d: D, collected: seq<C>)
    requires Underway(l, start, edits, d, collected, 0)
    ensures d == Revert(l, start, edits) && collected == Anti(l, start, edits)
  {
    assert edits[..0] == [];
  }

  lemma MakeChangeKeepsWf(settings: Settings, s: DocState, c: Change, origin: Option<string>,
                          selAfter: Selection, opId: Option<nat>, time: int)
    requires ValidChange(s.lines, c) && Wf(s.hist)
    ensures Wf(MakeChange(settings, s, c, origin, selAfter, opId, time).hist)
  {
    RecordedGuarded(settings, s, c, origin, opId, time);
  }
}
