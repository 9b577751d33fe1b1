/** Single steps of the history, said without its functions: which edits share an event,
    which selections replace one another, what an edit does to the text, when a document is
    clean, and which selection an undo or a redo goes back to (codemirror.js). */
module CmHistoryLaws {
  import opened Wrappers
  import opened CmText
  import opened CmReverting
  import opened CmHistory
  import opened CmHistoryInvariant
  import opened CmHistoryRuns
  import opened CmHistoryReach

  // ----- edits -----

  predicate ChangesText(s: DocState, edit: Action)
    requires edit.Edit?
  {
    var c := Clipped(s.lines, edit.a, edit.b, edit.text);
    !(c.text == [""] && c.from == c.to)
  }

  /** Two edits of one operation, or of one origin: with a "*" in front at any time, with a
      "+" if the second comes in an editor within the delay. */
  predicate BelongTogether(settings: Settings, first: Action, second: Action)
    requires first.Edit? && second.Edit?
  {
    || (first.opId == second.opId && first.opId.Some?)
    || (&& first.origin == second.origin && first.origin.Some? && first.origin.value != ""
        && (|| first.origin.value[0] == '*'
            || (&& first.origin.value[0] == '+' && settings.editor
                && second.time - first.time < settings.historyEventDelay)))
  }

  /** After an edit, the next one joins its event if and only if the two belong together,
      and the event has been kept. */
  lemma NextEditJoinsIff(settings: Settings, s: DocState, first: Action, second: Action)
    requires Wf(s.hist) && first.Edit? && second.Edit? && ChangesText(s, first)
    ensures Merges(settings, Step(settings, s, first).value, second.origin, second.opId, second.time)
       <==> HasChange(Step(settings, s, first).value.hist.done) && BelongTogether(settings, first, second)
  {
    hide AddChange, HasChange, BelongTogether, LastChangeEvent, Mergeable, Wf, Recorded;
    TopIsSelection(settings, s, first);
    EditIsRemembered(settings, s, first);
    var s1 := Step(settings, s, first).value;
    JoinsWhenFound(settings, s1.hist, first, second);
    UnderOneSelection(s1.hist.done, s1.hist.done, first.selAfter, SameOp(first.opId, second.opId));
  }

  lemma TopIsSelection(settings: Settings, s: DocState, edit: Action)
    requires Wf(s.hist) && edit.Edit? && ChangesText(s, edit)
    ensures var done := Step(settings, s, edit).value.hist.done;
            && done != [] && Last(done) == SelectionEvent(edit.selAfter)
            && (|done| > 1 ==> done[|done| - 2].ChangeEvent?)
  {
    var c := Clipped(s.lines, edit.a, edit.b, edit.text);
    var recorded := Recorded(settings, s, c, edit.origin, edit.opId, edit.time);
    DoneAfterEdit(settings, s, edit);
    if recorded != [] && !Merges(settings, s, edit.origin, edit.opId, edit.time) {
      StartedTop(settings, s, c, edit.origin, edit.opId, edit.time);
    }
  }

  lemma StripWhenOne(done: seq<Event>)
    requires done != [] && Last(done).SelectionEvent? && (|done| > 1 ==> done[|done| - 2].ChangeEvent?)
    ensures StripSelections(done) == Init(done) && (HasChange(done) <==> |done| > 1)
  {
    assert |done| > 1 ==> Last(Init(done)) == done[|done| - 2];
  }

  /** An edit that joins an event changes only that one and takes the selections off it. */
  lemma JoiningLeavesRest(settings: Settings, s: DocState, edit: Action)
    requires Wf(s.hist) && edit.Edit? && ChangesText(s, edit)
    requires Merges(settings, s, edit.origin, edit.opId, edit.time)
    ensures var done, done' := s.hist.done, Step(settings, s, edit).value.hist.done;
            var n := |StripSelections(done)|;
            n > 0 && |done'| == n + 1 && done'[..n - 1] == done[..n - 1] && done'[n - 1].ChangeEvent?
  {
    hide StripSelections, LastChangeEvent;
    DoneAfterEdit(settings, s, edit);
    StripOfRest(s.hist.done, SameOp(s.hist.lastOp, edit.opId));
  }

  /** An edit that starts an event touches nothing on the stack, as far as there is room. */
  lemma StartingLeavesRest(settings: Settings, s: DocState, edit: Action)
    requires Wf(s.hist) && edit.Edit? && StartsEvent(settings, s, edit) && HasChange(s.hist.done)
    requires s.hist.undoDepth.None? || |s.hist.done| + 2 <= s.hist.undoDepth.value
    ensures var done, done' := s.hist.done, Step(settings, s, edit).value.hist.done;
            |done| + 2 <= |done'| <= |done| + 3 && done'[..|done|] == done
  {
    hide Trim, StripSelections, Step, Recorded;
    var c := Clipped(s.lines, edit.a, edit.b, edit.text);
    DoneAfterEdit(settings, s, edit);
    RecordedWhenStarted(settings, s, c, edit.origin, edit.opId, edit.time);
    TrimNothing(StartEvent(s.lines, s.sel, s.hist.done, c, s.hist.generation), s.hist.undoDepth);
  }

  lemma TrimNothing(done: seq<Event>, undoDepth: Option<nat>)
    requires Guarded(done) && (done == [] || Last(done).ChangeEvent?)
    requires undoDepth.None? || |done| <= undoDepth.value
    ensures Trim(done, undoDepth) == done
  {
  }

  /** An insertion where the last change of its event ended lengthens that entry, any other
      change adds one; either way the next insertion can go on where it ended. */
  lemma InsertionLengthensEntry(lines: Lines, event: Event, c: Change)
    requires ValidChange(lines, c) && event.ChangeEvent? && event.changes != []
    ensures var changes := Extend(lines, event, c).changes;
            && Last(changes).to == ChangeEnd(c)
            && |changes| == |event.changes| + if c.from == c.to == Last(event.changes).to then 0 else 1
  {
  }

  /** A clean mark and a restart end every event. */
  lemma MarkAndClearSplit(settings: Settings, s: DocState, action: Action, edit: Action)
    requires Wf(s.hist) && (action.Mark? || action.Clear?) && edit.Edit?
    ensures !Merges(settings, Step(settings, s, action).value, edit.origin, edit.opId, edit.time)
  {
  }

  /** After an undo or a redo that did something, an edit joins an event only if it is of
      the same operation as the last edit. */
  lemma UndoAndRedoSplit(settings: Settings, s: DocState, undo: bool, computed: Selection, edit: Action)
    requires Wf(s.hist) && CanApply(s, undo) && edit.Edit?
    requires HasChange(if undo then s.hist.done else s.hist.undone)
    ensures Merges(settings, FromHistory(s, undo, computed), edit.origin, edit.opId, edit.time)
       <==> HasChange(FromHistory(s, undo, computed).hist.done) && edit.opId.Some? && s.hist.lastOp == edit.opId
  {
  }

  /** A selection between two edits keeps them apart, unless it replaces the one on top or
      all is one operation. */
  lemma SelectionSplitsIff(settings: Settings, s: DocState, first: Action, select: Action, second: Action)
    requires Wf(s.hist) && first.Edit? && select.Select? && second.Edit? && ChangesText(s, first)
    ensures Wf(Step(settings, s, first).value.hist)
    ensures var s1 := Step(settings, s, first).value;
            var s2 := Step(settings, s1, select).value;
            var joins := && HasChange(s1.hist.done) && BelongTogether(settings, first, second)
                         && ((first.opId == second.opId && first.opId.Some?) || |s2.hist.done| == |s1.hist.done|);
            Merges(settings, s2, second.origin, second.opId, second.time) <==> joins
  {
    hide AddChange, AddSelection, HasChange, BelongTogether, LastChangeEvent, Mergeable, Wf, Recorded;
    StepKeepsWf(settings, s, first);
    TopIsSelection(settings, s, first);
    var s1 := Step(settings, s, first).value;
    var s2 := Step(settings, s1, select).value;
    EditIsRemembered(settings, s, first);
    SelectionLeavesEdit(settings, s1, select);
    JoinsWhenFound(settings, s2.hist, first, second);
    UnderOneSelection(s1.hist.done, s2.hist.done, select.sel, SameOp(first.opId, second.opId));
  }

  /** The history remembers this edit as the last one. */
  predicate IsLast(h: History, edit: Action)
    requires edit.Edit?
  {
    h.lastOp == edit.opId && h.lastOrigin == edit.origin && h.lastModTime == edit.time
  }

  lemma EditIsRemembered(settings: Settings, s: DocState, edit: Action)
    requires Wf(s.hist) && edit.Edit? && ChangesText(s, edit)
    ensures IsLast(Step(settings, s, edit).value.hist, edit)
  {
  }

  lemma SelectionLeavesEdit(settings: Settings, s: DocState, select: Action)
    requires Wf(s.hist) && s.hist.done != [] && select.Select?
    ensures var h, h' := s.hist, Step(settings, s, select).value.hist;
            && h'.lastOp == h.lastOp && h'.lastOrigin == h.lastOrigin && h'.lastModTime == h.lastModTime
            && h'.done in {h.done, Init(h.done) + [SelectionEvent(select.sel)], h.done + [SelectionEvent(select.sel)]}
  {
  }

  lemma JoinsWhenFound(settings: Settings, h: History, first: Action, second: Action)
    requires first.Edit? && second.Edit? && IsLast(h, first)
    ensures Mergeable(settings, h, second.origin, second.opId, second.time).1
       <==> BelongTogether(settings, first, second) && LastChangeEvent(h.done, SameOp(first.opId, second.opId)).1
  {
  }

  /** What can be merged with when there was one selection on top, and another came. */
  lemma UnderOneSelection(done: seq<Event>, done': seq<Event>, sel: Selection, force: bool)
    requires done != [] && Last(done).SelectionEvent? && (|done| > 1 ==> done[|done| - 2].ChangeEvent?)
    requires done' in {done, Init(done) + [SelectionEvent(sel)], done + [SelectionEvent(sel)]}
    ensures HasChange(done) <==> |done| > 1
    ensures LastChangeEvent(done', force).1 <==> |done| > 1 && (force || |done'| == |done|)
  {
    StripWhenOne(done);
    if |done'| == |done| {
      StripWhenOne(done');
    } else {
      assert Init(done') == done;
      assert StripSelections(done') == StripSelections(done);
    }
  }

  // ----- selections -----

  /** Some range goes from one place to another. */
  predicate HasText(sel: Selection) {
    exists r :: r in sel.ranges && r.anchor != r.head
  }

  lemma SomethingIsText(sel: Selection)
    ensures sel.SomethingSelected() <==> HasText(sel)
  {
    if sel.SomethingSelected() {
      var i :| 0 <= i < |sel.ranges| && !sel.ranges[i].Empty();
      assert sel.ranges[i] in sel.ranges;
    }
  }

  /** A selection takes the place of the top, or goes above it unless it is the same. */
  predicate Puts(done: seq<Event>, sel: Selection, instead: bool, done': seq<Event>) {
    && (instead ==> done != [])
    && done' == if instead then Init(done) + [SelectionEvent(sel)]
                else if done != [] && Last(done) == SelectionEvent(sel) then done else done + [SelectionEvent(sel)]
  }

  /** After an edit, a selection of its operation or of its origin replaces the one that
      the edit left. */
  lemma SelectionAfterEdit(settings: Settings, s: DocState, first: Action, second: Action)
    requires Wf(s.hist) && first.Edit? && second.Select? && ChangesText(s, first)
    ensures Wf(Step(settings, s, first).value.hist)
    ensures var s1 := Step(settings, s, first).value;
            var same := first.opId == second.opId && first.opId.Some?;
            var alike := first.origin == second.selOrigin && first.origin.Some? && first.origin.value != "";
            Puts(s1.hist.done, second.sel, same || alike, Step(settings, s1, second).value.hist.done)
  {
    StepKeepsWf(settings, s, first);
    TopIsSelection(settings, s, first);
  }

  /** After a selection, the next one replaces it if it is of the same operation, or of the
      same origin, and that is also the origin of an edit at the time of the first, begins
      with a "*", or begins with a "+" and the two are alike and close in time. */
  lemma SelectionAfterSelection(settings: Settings, s: DocState, first: Action, second: Action)
    requires Wf(s.hist) && first.Select? && second.Select?
    ensures Wf(Step(settings, s, first).value.hist)
    ensures var s1 := Step(settings, s, first).value;
            var delay := if settings.editor then settings.historyEventDelay else 500;
            var close := |first.sel.ranges| == |second.sel.ranges|
                         && (HasText(first.sel) <==> HasText(second.sel))
                         && second.time - first.time <= delay;
            var instead :=
              || (first.opId == second.opId && first.opId.Some?)
              || (&& first.selOrigin == second.selOrigin && first.selOrigin.Some? && first.selOrigin.value != ""
                  && (|| (s.hist.lastModTime == first.time && s.hist.lastOrigin == first.selOrigin)
                      || first.selOrigin.value[0] == '*'
                      || (first.selOrigin.value[0] == '+' && close)));
            Puts(s1.hist.done, second.sel, instead, Step(settings, s1, second).value.hist.done)
  {
    SomethingIsText(first.sel);
    SomethingIsText(second.sel);
    StepKeepsWf(settings, s, first);
    assert Last(Step(settings, s, first).value.hist.done) == SelectionEvent(first.sel);
  }

  /** After an undo or a redo that did something, only one of the operation of the last
      selection or edit replaces what is on top. */
  lemma SelectionAfterUndo(settings: Settings, s: DocState, undo: bool, computed: Selection, action: Action)
    requires Wf(s.hist) && CanApply(s, undo) && action.Select?
    requires HasChange(if undo then s.hist.done else s.hist.undone)
    ensures Wf(FromHistory(s, undo, computed).hist)
    ensures var u := FromHistory(s, undo, computed);
            var same := action.opId.Some? && s.hist.lastSelOp == action.opId;
            Puts(u.hist.done, action.sel, same, Step(settings, u, action).value.hist.done)
  {
    FromHistoryKeepsWf(s, undo, computed);
  }

  /** After a clean mark, only one of the same origin, if that begins with a "*", or with a
      "+" and the two are alike and close in time. */
  lemma SelectionAfterMark(settings: Settings, s: DocState, action: Action)
    requires Wf(s.hist) && action.Select?
    ensures var delay := if settings.editor then settings.historyEventDelay else 500;
            var instead :=
              && action.selOrigin.Some? && action.selOrigin.value != "" && s.hist.lastSelOrigin == action.selOrigin
              && (|| action.selOrigin.value[0] == '*'
                  || (&& action.selOrigin.value[0] == '+' && action.time - s.hist.lastSelTime <= delay
                      && |Last(s.hist.done).sel.ranges| == |action.sel.ranges|
                      && (HasText(Last(s.hist.done).sel) <==> HasText(action.sel))));
            Puts(s.hist.done, action.sel, instead, Step(settings, MarkClean(s), action).value.hist.done)
  {
    SomethingIsText(action.sel);
    if s.hist.lastSelOrigin.Some? {
      SomethingIsText(Last(s.hist.done).sel);
    }
  }

  /** Apart from that, a selection only takes the selections off the top of what can be
      redone, if it is asked to. */
  lemma SelectionLeavesRest(settings: Settings, s: DocState, action: Action)
    requires Wf(s.hist) && action.Select?
    ensures var s' := Step(settings, s, action).value;
            && s'.lines == s.lines && s'.sel == action.sel && s'.hist.generation == s.hist.generation
            && (!action.clearRedo ==> s'.hist.undone == s.hist.undone)
            && (action.clearRedo ==>
                  && |s'.hist.undone| <= |s.hist.undone| && s'.hist.undone == s.hist.undone[..|s'.hist.undone|]
                  && (s'.hist.undone == [] || Last(s'.hist.undone).ChangeEvent?)
                  && forall i :: |s'.hist.undone| <= i < |s.hist.undone| ==> s.hist.undone[i].SelectionEvent?)
  {
    StrippedAreSelections(s.hist.undone);
  }

  lemma {:induction false} StrippedAreSelections(events: seq<Event>)
    ensures forall i :: |StripSelections(events)| <= i < |events| ==> events[i].SelectionEvent?
    decreases |events|
  {
    if events != [] && Last(events).SelectionEvent? {
      StrippedAreSelections(Init(events));
      forall i | |StripSelections(events)| <= i < |events|
        ensures events[i].SelectionEvent?
      {
        assert i < |events| - 1 ==> events[i] == Init(events)[i];
      }
    }
  }

  // ----- the text, and whether it is clean -----

  /** An edit clips and orders its positions and splices its text in between them. */
  lemma EditIsSplice(settings: Settings, s: DocState, edit: Action)
    requires Wf(s.hist) && edit.Edit?
    ensures Step(settings, s, edit).Some?
    ensures Step(settings, s, edit).value.lines == Splice(s.lines, Clipped(s.lines, edit.a, edit.b, edit.text))
    ensures ChangesText(s, edit) ==> Step(settings, s, edit).value.sel == edit.selAfter
    ensures !ChangesText(s, edit) ==> Step(settings, s, edit).value == s
  {
    if !ChangesText(s, edit) {
      NothingSpliced(s.lines, Clipped(s.lines, edit.a, edit.b, edit.text));
    }
  }

  lemma NothingSpliced(lines: Lines, c: Change)
    requires ValidChange(lines, c) && c.text == [""] && c.from == c.to
    ensures Splice(lines, c) == lines
  {
    var l := c.from.line;
    assert Left(lines, c.from) + "" + Right(lines, c.to) == lines[l];
    assert lines[..l] + [lines[l]] + lines[l + 1..] == lines;
  }

  predicate CleanIsKnown(s: DocState) {
    s.cleanGeneration <= s.hist.maxGeneration && s.hist.generation <= s.hist.maxGeneration
  }

  lemma StepKeepsCleanKnown(settings: Settings, s: DocState, action: Action)
    requires Wf(s.hist) && CleanIsKnown(s) && Step(settings, s, action).Some?
    requires var h := Step(settings, s, action).value.hist; h.generation <= h.maxGeneration
    ensures CleanIsKnown(Step(settings, s, action).value)
  {
    hide Recorded, CanApply, Overwrites;
  }

  lemma {:induction false} RunKeepsCleanKnown(settings: Settings, lines: Lines, sel: Selection, actions: seq<Action>)
    requires SoundRun(settings, NewDoc(settings, lines, sel), actions)
    ensures Run(settings, NewDoc(settings, lines, sel), actions).Some?
    ensures CleanIsKnown(Run(settings, NewDoc(settings, lines, sel), actions).value)
    decreases |actions|
  {
    hide Step, Undoable;
    RunIsTruthful(settings, lines, sel, actions);
    if actions != [] {
      RunKeepsCleanKnown(settings, lines, sel, Init(actions));
      StepKeepsCleanKnown(settings, Run(settings, NewDoc(settings, lines, sel), Init(actions)).value, Last(actions));
    }
  }

  /** A document is clean when it is new and when it has just been marked, and not after an
      edit, until an undo takes the edit's event back. */
  lemma CleanWhen(settings: Settings, lines: Lines, sel: Selection, actions: seq<Action>, edit: Action)
    requires SoundRun(settings, NewDoc(settings, lines, sel), actions) && edit.Edit?
    ensures IsClean(NewDoc(settings, lines, sel))
    ensures Run(settings, NewDoc(settings, lines, sel), actions).Some?
    ensures var s := Run(settings, NewDoc(settings, lines, sel), actions).value;
            && IsClean(MarkClean(s))
            && (ChangesText(s, edit) ==> !IsClean(Step(settings, s, edit).value))
  {
    RunKeepsCleanKnown(settings, lines, sel, actions);
  }

  // ----- the selections that undo and redo go back to -----

  /** The events above the kept ones are selections that are all in what the other stack got
      on top, which is nothing else, and the lowest of them is the one gone back to. */
  ghost predicate GoneOver(source: seq<Event>, dest: seq<Event>, sel: Selection, kept: nat, more: seq<Event>,
                           back: Selection)
  {
    && kept <= |source| && |dest| <= |more| && more[..|dest|] == dest
    && (forall i :: |dest| <= i < |more| ==> more[i].SelectionEvent?)
    && (forall i :: kept <= i < |source| ==> source[i].SelectionEvent? && source[i] in more)
    && if kept == |source| then back == sel && more == dest
       else SelectionEvent(back) == source[kept] == Last(more)
  }

  /** The selections above the top change event go to the other stack. */
  lemma {:induction false} PoppedGoOver(source: seq<Event>, dest: seq<Event>, sel: Selection)
    requires HasChange(source)
    ensures var r := PopSelections(source, dest, sel);
            GoneOver(source, dest, sel, |StripSelections(source)|, r.1, r.2) && r.0 == StripSelections(source)
    decreases |source|
  {
    hide GoneOver;
    if Last(source).SelectionEvent? {
      var top := Last(source).sel;
      var r := PopSelections(source, dest, sel);
      PoppedGoOver(Init(source), PushSelection(top, dest), top);
      OneGoesOver(source, dest, sel, top, |r.0|, r.1, r.2);
    } else {
      NoneGoesOver(source, dest, sel);
    }
  }

  lemma NoneGoesOver(source: seq<Event>, dest: seq<Event>, sel: Selection)
    ensures GoneOver(source, dest, sel, |source|, dest, sel)
  {
  }

  lemma OneGoesOver(source: seq<Event>, dest: seq<Event>, sel: Selection, top: Selection, kept: nat,
                    more: seq<Event>, back: Selection)
    requires source != [] && Last(source) == SelectionEvent(top) && kept < |source|
    requires GoneOver(Init(source), PushSelection(top, dest), top, kept, more, back)
    ensures GoneOver(source, dest, sel, kept, more, back)
  {
    var dest' := PushSelection(top, dest);
    assert dest' == dest || dest' == dest + [SelectionEvent(top)];
    assert more[|dest'| - 1] == more[..|dest'|][|dest'| - 1] == SelectionEvent(top);
    assert more[..|dest|] == more[..|dest'|][..|dest|] == dest;
    assert forall i :: kept <= i < |source| - 1 ==> source[i] == Init(source)[i];
    assert source[|source| - 1] == SelectionEvent(top);
  }

  /** A selection on top of the done stack is the current one. */
  predicate TopIsCurrent(s: DocState) {
    s.hist.done != [] && Last(s.hist.done).SelectionEvent? ==> Last(s.hist.done).sel == s.sel
  }

  lemma StepKeepsTopCurrent(settings: Settings, s: DocState, action: Action)
    requires Wf(s.hist) && TopIsCurrent(s) && Step(settings, s, action).Some?
    ensures TopIsCurrent(Step(settings, s, action).value)
  {
    if action.Edit? && ChangesText(s, action) {
      TopIsSelection(settings, s, action);
    }
  }

  lemma {:induction false} RunKeepsTopCurrent(settings: Settings, lines: Lines, sel: Selection, actions: seq<Action>)
    requires Run(settings, NewDoc(settings, lines, sel), actions).Some?
    ensures TopIsCurrent(Run(settings, NewDoc(settings, lines, sel), actions).value)
    decreases |actions|
  {
    if actions != [] {
      RunKeepsTopCurrent(settings, lines, sel, Init(actions));
      StepKeepsTopCurrent(settings, Run(settings, NewDoc(settings, lines, sel), Init(actions)).value, Last(actions));
    }
  }

  /** After any sound run: an edit that starts an event, and its undo, give back the
      selection from before the edit; a redo after that gives the selection, the text and
      the generation from after it. */
  lemma SelectionsComeBack(settings: Settings, lines: Lines, sel: Selection, actions: seq<Action>, edit: Action,
                           computed: Selection)
    requires SoundRun(settings, NewDoc(settings, lines, sel), actions) && edit.Edit?
    ensures Run(settings, NewDoc(settings, lines, sel), actions).Some?
    ensures var s := Run(settings, NewDoc(settings, lines, sel), actions).value;
            var s1 := Step(settings, s, edit).value;
            StartsEvent(settings, s, edit) && (s.hist.undoDepth.None? || s.hist.undoDepth.value >= 2) ==>
              && CanApply(s1, true)
              && var u := FromHistory(s1, true, computed);
                 && u.sel == s.sel && u.lines == s.lines && u.hist.generation == s.hist.generation
                 && CanApply(u, false)
                 && var r := FromHistory(u, false, computed);
                    r.sel == edit.selAfter && r.lines == s1.lines && r.hist.generation == s1.hist.generation
  {
    RunIsTruthful(settings, lines, sel, actions);
    RunKeepsTopCurrent(settings, lines, sel, actions);
    var s := Run(settings, NewDoc(settings, lines, sel), actions).value;
    if StartsEvent(settings, s, edit) && (s.hist.undoDepth.None? || s.hist.undoDepth.value >= 2) {
      EditUndoRedo(settings, s, edit, computed, Ledger(settings, NewDoc(settings, lines, sel), actions));
    }
  }

  /** An edit's event above the current selection, and the edit's selection above it. */
  lemma EditOnTop(settings: Settings, s: DocState, edit: Action) returns (below: seq<Event>, event: Event)
    requires Wf(s.hist) && TopIsCurrent(s) && edit.Edit? && StartsEvent(settings, s, edit)
    requires s.hist.undoDepth.None? || s.hist.undoDepth.value >= 2
    ensures Step(settings, s, edit).value.hist.done == below + [event] + [SelectionEvent(edit.selAfter)]
    ensures below != [] && Last(below) == SelectionEvent(s.sel)
    ensures event.ChangeEvent? && event.generation == s.hist.generation
  {
    hide Trim, StartEvent, Mergeable, Guarded, Step, Recorded, TopIsCurrent, Revertible, Revert, ApplyChange;
    var c := Clipped(s.lines, edit.a, edit.b, edit.text);
    DoneAfterEdit(settings, s, edit);
    RecordedWhenStarted(settings, s, c, edit.origin, edit.opId, edit.time);
    var recorded := Recorded(settings, s, c, edit.origin, edit.opId, edit.time);
    var rest := Mergeable(settings, s.hist, edit.origin, edit.opId, edit.time).0;
    var started := StartEvent(s.lines, s.sel, rest, c, s.hist.generation);
    StartedTop(settings, s, c, edit.origin, edit.opId, edit.time);
    StartedAboveCurrent(settings, s, c, edit.origin, edit.opId, edit.time);
    TrimKeepsGuarded(started, s.hist.undoDepth);
    BelowTop(started, recorded);
    below, event := Init(recorded), Last(recorded);
  }

  lemma DoneAfterEdit(settings: Settings, s: DocState, edit: Action)
    requires Wf(s.hist) && edit.Edit? && ChangesText(s, edit)
    ensures Step(settings, s, edit).Some?
    ensures var c := Clipped(s.lines, edit.a, edit.b, edit.text);
            Step(settings, s, edit).value.hist.done
            == Recorded(settings, s, c, edit.origin, edit.opId, edit.time) + [SelectionEvent(edit.selAfter)]
  {
  }

  lemma RecordedWhenStarted(settings: Settings, s: DocState, c: Change, origin: Option<string>, opId: Option<nat>,
                            time: int)
    requires Wf(s.hist) && ValidChange(s.lines, c) && !Mergeable(settings, s.hist, origin, opId, time).1
    ensures var rest := Mergeable(settings, s.hist, origin, opId, time).0;
            && Guarded(rest) && Guarded(StartEvent(s.lines, s.sel, rest, c, s.hist.generation))
            && Recorded(settings, s, c, origin, opId, time)
               == Trim(StartEvent(s.lines, s.sel, rest, c, s.hist.generation), s.hist.undoDepth)
            && Guarded(Recorded(settings, s, c, origin, opId, time))
  {
    RecordedGuarded(settings, s, c, origin, opId, time);
    StartEventGuarded(s.lines, s.sel, Mergeable(settings, s.hist, origin, opId, time).0, c, s.hist.generation);
  }

  lemma StartedAboveCurrent(settings: Settings, s: DocState, c: Change, origin: Option<string>, opId: Option<nat>,
                            time: int)
    requires TopIsCurrent(s) && ValidChange(s.lines, c) && !Mergeable(settings, s.hist, origin, opId, time).1
    ensures var rest := Mergeable(settings, s.hist, origin, opId, time).0;
            var started := StartEvent(s.lines, s.sel, rest, c, s.hist.generation);
            && |started| > 1 && Last(started).ChangeEvent?
            && started[|started| - 2] == SelectionEvent(s.sel)
  {
    hide StripSelections;
    var rest := Mergeable(settings, s.hist, origin, opId, time).0;
    assert rest != [] ==> rest == s.hist.done;
  }

  lemma BelowTop(events: seq<Event>, kept: seq<Event>)
    requires Guarded(kept) && kept != [] && Last(kept).ChangeEvent?
    requires |kept| <= |events| && kept == events[|events| - |kept|..]
    ensures |kept| > 1 && Last(Init(kept)) == events[|events| - 2]
  {
  }

  lemma GenerationIsNew(settings: Settings, s: DocState, edit: Action, book: Book)
    requires Truthful(s, book) && edit.Edit? && ChangesText(s, edit)
    ensures Step(settings, s, edit).value.hist.generation !in book
  {
  }

  lemma UndoOne(s: DocState, below: seq<Event>, event: Event, top: Selection, computed: Selection)
    returns (anti: seq<Change>)
    requires s.hist.done == below + [event] + [SelectionEvent(top)] && s.hist.undone == [] && CanApply(s, true)
    requires below != [] && Last(below).SelectionEvent? && event.ChangeEvent?
    ensures var u := FromHistory(s, true, computed);
            && u.sel == Last(below).sel && u.hist.generation == event.generation
            && u.hist.undone == [SelectionEvent(top)] + [ChangeEvent(anti, s.hist.generation)]
  {
    anti := Anti(TEXT, s.lines, event.changes);
    var source := below + [event];
    assert Init(s.hist.done) == source && Init(source) == below && Last(source) == event;
    assert PushSelection(top, []) == [SelectionEvent(top)] == PushSelection(top, [SelectionEvent(top)]);
    assert PopSelections(source, [SelectionEvent(top)], top) == (source, [SelectionEvent(top)], top);
  }

  lemma RedoOne(u: DocState, top: Selection, anti: seq<Change>, generation: nat, computed: Selection)
    requires u.hist.undone == [SelectionEvent(top)] + [ChangeEvent(anti, generation)] && CanApply(u, false)
    ensures var r := FromHistory(u, false, computed); r.sel == top && r.hist.generation == generation
  {
    var source := u.hist.undone;
    assert Init(source) == [SelectionEvent(top)] && Last(source) == ChangeEvent(anti, generation);
  }

  lemma EditUndoRedo(settings: Settings, s: DocState, edit: Action, computed: Selection, book: Book)
    requires Truthful(s, book) && TopIsCurrent(s) && edit.Edit? && StartsEvent(settings, s, edit)
    requires s.hist.undoDepth.None? || s.hist.undoDepth.value >= 2
    ensures var s1 := Step(settings, s, edit).value;
            && CanApply(s1, true)
            && var u := FromHistory(s1, true, computed);
               && u.sel == s.sel && u.lines == s.lines && u.hist.generation == s.hist.generation
               && CanApply(u, false)
               && var r := FromHistory(u, false, computed);
                  r.sel == edit.selAfter && r.lines == s1.lines && r.hist.generation == s1.hist.generation
  {
    hide Truthful, CanApply, FromHistory, TopIsCurrent;
    WfOfTruthful(s, book);
    var s1 := Step(settings, s, edit).value;
    StepTruthfulIff(settings, s, edit, book);
    var book' := Enter(book, s1);
    var below, event := EditOnTop(settings, s, edit);
    FromHistoryTruthful(s1, true, computed, book');
    var u := FromHistory(s1, true, computed);
    var anti := UndoOne(s1, below, event, edit.selAfter, computed);
    FromHistoryTruthful(u, false, computed, book');
    RedoOne(u, edit.selAfter, anti, s1.hist.generation, computed);
    var r := FromHistory(u, false, computed);
    assert book'[s.hist.generation] == s.lines by { WfOfTruthful(s, book); GenerationIsNew(settings, s, edit, book); }
    WfOfTruthful(u, book');
    WfOfTruthful(r, book');
  }
}
