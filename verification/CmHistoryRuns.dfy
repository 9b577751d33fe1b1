/** What the history promises over whole runs of edits, selections, undos, redos,
    clean marks and restarts. */
module CmHistoryRuns {
  import opened Wrappers
  import opened CmText
  import opened CmReverting
  import opened CmUndoCore
  import opened CmHistory
  import opened CmHistoryInvariant

  /** The state after a run, or None once a step does not apply. */
  function Run(settings: Settings, s: DocState, actions: seq<Action>): (r: Option<DocState>)
    requires Wf(s.hist)
    ensures r.Some? ==> Wf(r.value.hist)
    decreases |actions|
  {
    if actions == [] then Some(s)
    else
      match Run(settings, s, Init(actions))
      case None => None
      case Some(s') =>
        StepKeepsWf(settings, s', Last(actions));
        Step(settings, s', Last(actions))
  }

  /** Everything a run has entered: the text of each generation it reached. */
  ghost function Ledger(settings: Settings, s: DocState, actions: seq<Action>): Book
    requires Wf(s.hist)
    decreases |actions|
  {
    if actions == [] then map[s.hist.generation := s.lines]
    else
      var book := Ledger(settings, s, Init(actions));
      match Run(settings, s, actions) case None => book case Some(s') => Enter(book, s')
  }

  /** Every step of the run is sound, as far as the generations reached before tell. */
  ghost predicate SoundRun(settings: Settings, s: DocState, actions: seq<Action>)
    requires Wf(s.hist)
    decreases |actions|
  {
    actions == [] ||
    (&& SoundRun(settings, s, Init(actions))
     && (Run(settings, s, Init(actions)).Some? ==>
           Sound(settings, Run(settings, s, Init(actions)).value, Last(actions), Ledger(settings, s, Init(actions)))))
  }

  lemma {:induction false} RunIsTruthful(settings: Settings, lines: Lines, sel: Selection, actions: seq<Action>)
    requires SoundRun(settings, NewDoc(settings, lines, sel), actions)
    ensures Run(settings, NewDoc(settings, lines, sel), actions).Some?
    ensures Truthful(Run(settings, NewDoc(settings, lines, sel), actions).value,
                     Ledger(settings, NewDoc(settings, lines, sel), actions))
    decreases |actions|
  {
    var s0 := NewDoc(settings, lines, sel);
    if actions != [] {
      RunIsTruthful(settings, lines, sel, Init(actions));
      var s := Run(settings, s0, Init(actions)).value;
      StepTruthfulIff(settings, s, Last(actions), Ledger(settings, s0, Init(actions)));
    }
  }

  lemma {:induction false} LedgerGrows(settings: Settings, lines: Lines, sel: Selection, actions: seq<Action>, k: nat)
    requires SoundRun(settings, NewDoc(settings, lines, sel), actions) && k <= |actions|
    ensures SoundRun(settings, NewDoc(settings, lines, sel), actions[..k])
    ensures Extends(Ledger(settings, NewDoc(settings, lines, sel), actions[..k]),
                    Ledger(settings, NewDoc(settings, lines, sel), actions))
    decreases |actions|
  {
    var s0 := NewDoc(settings, lines, sel);
    if k == |actions| {
      assert actions[..k] == actions;
    } else {
      assert actions[..k] == Init(actions)[..k];
      LedgerGrows(settings, lines, sel, Init(actions), k);
      RunIsTruthful(settings, lines, sel, Init(actions));
      var s := Run(settings, s0, Init(actions)).value;
      StepTruthfulIff(settings, s, Last(actions), Ledger(settings, s0, Init(actions)));
    }
  }

  // ----- main results -----

  /** A sound run never meets an undo or redo entry that does not fit the text, and
      two states it reaches with the same generation have the same text. */
  lemma SameGenerationSameText(settings: Settings, lines: Lines, sel: Selection, actions: seq<Action>, i: nat, j: nat)
    requires SoundRun(settings, NewDoc(settings, lines, sel), actions) && i <= j <= |actions|
    ensures Run(settings, NewDoc(settings, lines, sel), actions[..i]).Some?
    ensures Run(settings, NewDoc(settings, lines, sel), actions[..j]).Some?
    ensures var si, sj := Run(settings, NewDoc(settings, lines, sel), actions[..i]).value,
                          Run(settings, NewDoc(settings, lines, sel), actions[..j]).value;
            si.hist.generation == sj.hist.generation ==> si.lines == sj.lines
  {
    LedgerGrows(settings, lines, sel, actions, j);
    assert actions[..j][..i] == actions[..i];
    LedgerGrows(settings, lines, sel, actions[..j], i);
    RunIsTruthful(settings, lines, sel, actions[..i]);
    RunIsTruthful(settings, lines, sel, actions[..j]);
  }

  lemma {:induction false} CleanMarkStays(settings: Settings, s: DocState, actions: seq<Action>, k: nat)
    requires Wf(s.hist) && k <= |actions| && Run(settings, s, actions).Some?
    requires forall m :: k <= m < |actions| ==> !actions[m].Mark?
    ensures Run(settings, s, actions[..k]).Some?
    ensures Run(settings, s, actions).value.cleanGeneration == Run(settings, s, actions[..k]).value.cleanGeneration
    decreases |actions|
  {
    if k == |actions| {
      assert actions[..k] == actions;
    } else {
      assert actions[..k] == Init(actions)[..k];
      CleanMarkStays(settings, s, Init(actions), k);
    }
  }

  /** Where the current clean mark was set: before the last markClean, or at the start. */
  function CleanPoint(actions: seq<Action>): (i: nat)
    ensures i <= |actions|
    ensures (i < |actions| && actions[i].Mark?) || (i == 0 && forall m :: 0 <= m < |actions| ==> !actions[m].Mark?)
    ensures forall m :: i < m < |actions| ==> !actions[m].Mark?
  {
    if actions == [] then 0
    else if Last(actions).Mark? then |actions| - 1
    else CleanPoint(Init(actions))
  }

  /** isClean is sound: when it answers true at the end of a sound run, the text is
      the text at the last markClean, or the first one when nothing was marked. */
  lemma IsCleanIsSound(settings: Settings, lines: Lines, sel: Selection, actions: seq<Action>)
    requires SoundRun(settings, NewDoc(settings, lines, sel), actions)
    ensures var s0, i := NewDoc(settings, lines, sel), CleanPoint(actions);
            && Run(settings, s0, actions).Some? && Run(settings, s0, actions[..i]).Some?
            && (IsClean(Run(settings, s0, actions).value) ==>
                  Run(settings, s0, actions).value.lines == Run(settings, s0, actions[..i]).value.lines)
  {
    var s0, i := NewDoc(settings, lines, sel), CleanPoint(actions);
    assert actions[..|actions|] == actions;
    SameGenerationSameText(settings, lines, sel, actions, i, |actions|);
    if i < |actions| && actions[i].Mark? {
      MarkRemembers(settings, s0, actions, i);
    } else {
      CleanMarkStays(settings, s0, actions, 0);
    }
  }

  lemma MarkRemembers(settings: Settings, s: DocState, actions: seq<Action>, i: nat)
    requires Wf(s.hist) && i < |actions| && actions[i] == Mark && Run(settings, s, actions).Some?
    requires forall m :: i < m < |actions| ==> !actions[m].Mark?
    ensures Run(settings, s, actions[..i]).Some?
    ensures Run(settings, s, actions).value.cleanGeneration == Run(settings, s, actions[..i]).value.hist.generation
  {
    CleanMarkStays(settings, s, actions, i + 1);
    assert Init(actions[..i + 1]) == actions[..i] && Last(actions[..i + 1]) == Mark;
  }

  /** The run had this text and this generation after its first i actions. */
  ghost predicate HadText(settings: Settings, s0: DocState, actions: seq<Action>, i: nat, lines: Lines, generation: nat)
    requires Wf(s0.hist)
  {
    && i <= |actions| && Run(settings, s0, actions[..i]).Some?
    && var si := Run(settings, s0, actions[..i]).value;
       si.lines == lines && si.hist.generation == generation
  }

  /** Every generation in the ledger was reached by a part of the run. */
  lemma {:induction false} LedgerWasReached(settings: Settings, lines: Lines, sel: Selection, actions: seq<Action>,
                                            generation: nat) returns (i: nat)
    requires SoundRun(settings, NewDoc(settings, lines, sel), actions)
    requires generation in Ledger(settings, NewDoc(settings, lines, sel), actions)
    ensures HadText(settings, NewDoc(settings, lines, sel), actions, i,
                    Ledger(settings, NewDoc(settings, lines, sel), actions)[generation], generation)
    decreases |actions|
  {
    var s0 := NewDoc(settings, lines, sel);
    RunIsTruthful(settings, lines, sel, actions);
    if Run(settings, s0, actions).value.hist.generation == generation {
      i := |actions|;
      assert actions[..i] == actions;
    } else {
      i := LedgerWasReached(settings, lines, sel, Init(actions), generation);
      assert Init(actions)[..i] == actions[..i];
    }
  }

  /** Undo returns to the start of the top event: whenever there is something to undo
      after a sound run, the run had the text and the generation that undo gives. */
  lemma UndoRestoresEventStart(settings: Settings, lines: Lines, sel: Selection, actions: seq<Action>,
                               computed: Selection)
    requires SoundRun(settings, NewDoc(settings, lines, sel), actions)
    ensures var s0 := NewDoc(settings, lines, sel);
            && Run(settings, s0, actions).Some?
            && var s := Run(settings, s0, actions).value;
               && CanApply(s, true)
               && (HasChange(s.hist.done) ==>
                     var u := FromHistory(s, true, computed);
                     && u.hist.generation == Last(StripSelections(s.hist.done)).generation
                     && exists i :: HadText(settings, s0, actions, i, u.lines, u.hist.generation))
  {
    var s0 := NewDoc(settings, lines, sel);
    RunIsTruthful(settings, lines, sel, actions);
    var s, book := Run(settings, s0, actions).value, Ledger(settings, s0, actions);
    FromHistoryTruthful(s, true, computed, book);
    UndoableStrip(s.lines, s.hist.done, book);
    if HasChange(s.hist.done) {
      var i := LedgerWasReached(settings, lines, sel, actions, Last(StripSelections(s.hist.done)).generation);
    }
  }

  /** An edit joins the event on top of the history. */
  predicate Merges(settings: Settings, s: DocState, origin: Option<string>, opId: Option<nat>, time: int) {
    Mergeable(settings, s.hist, origin, opId, time).1
  }

  /** What an undo gives. */
  function UndoneTo(s: DocState, computed: Selection): (Lines, nat)
    requires CanApply(s, true)
  {
    var u := FromHistory(s, true, computed);
    (u.lines, u.hist.generation)
  }

  /** Undoing right after an edit gives back the text before it, or, when the edit
      was merged, the text that undoing before it would have given. It does so for every
      undoDepth that leaves room for an event and its selection; with less, an edit that
      is not merged cannot be undone. */
  lemma UndoAfterEdit(settings: Settings, s: DocState, c: Change, origin: Option<string>, selAfter: Selection,
                      opId: Option<nat>, time: int, computed: Selection, book: Book)
    requires Truthful(s, book) && ValidChange(s.lines, c) && !(c.text == [""] && c.from == c.to)
    ensures var s' := MakeChange(settings, s, c, origin, selAfter, opId, time);
            var merged, depth := Merges(settings, s, origin, opId, time), s.hist.undoDepth;
            && CanApply(s', true) && CanApply(s, true)
            && (HasChange(s'.hist.done) <==> merged || depth.None? || depth.value >= 2)
            && (HasChange(s'.hist.done) ==>
                  UndoneTo(s', computed) == if merged then UndoneTo(s, computed) else (s.lines, s.hist.generation))
  {
    hide ApplyChange, InvertChange;
    var recorded := Recorded(settings, s, c, origin, opId, time);
    var s' := MakeChange(settings, s, c, origin, selAfter, opId, time);
    FromHistoryTruthful(s, true, computed, book);
    if Merges(settings, s, origin, opId, time) {
      MergedTop(settings, s, c, origin, opId, time, book);
      UndoReverts(s, computed);
    } else {
      StartedTop(settings, s, c, origin, opId, time);
    }
    StripAbove(recorded, selAfter);
    if HasChange(s'.hist.done) {
      FittingApplies(s'.lines, Last(recorded).changes);
      UndoReverts(s', computed);
    }
  }

  lemma StripAbove(events: seq<Event>, sel: Selection)
    requires events == [] || Last(events).ChangeEvent?
    ensures StripSelections(events + [SelectionEvent(sel)]) == events
  {
    assert Init(events + [SelectionEvent(sel)]) == events;
  }

  lemma UndoReverts(s: DocState, computed: Selection)
    requires HasChange(s.hist.done) && CanApply(s, true)
    ensures var top := Last(StripSelections(s.hist.done));
            UndoneTo(s, computed) == (Revert(TEXT, s.lines, top.changes), top.generation)
  {
  }

  /** The event that an edit starts leads back to the text before it, if it is kept. */
  lemma StartedTop(settings: Settings, s: DocState, c: Change, origin: Option<string>, opId: Option<nat>, time: int)
    requires Wf(s.hist) && ValidChange(s.lines, c) && !Merges(settings, s, origin, opId, time)
    ensures var recorded := Recorded(settings, s, c, origin, opId, time);
            && (recorded != [] <==> s.hist.undoDepth.None? || s.hist.undoDepth.value >= 2)
            && (recorded != [] ==>
                  var top, d := Last(recorded), Splice(s.lines, c);
                  && top.ChangeEvent? && top.generation == s.hist.generation
                  && Revertible(TEXT, d, top.changes) && Revert(TEXT, d, top.changes) == s.lines)
  {
    var rest := Mergeable(settings, s.hist, origin, opId, time).0;
    var event := ChangeEvent([Inverse(s.lines, c)], s.hist.generation);
    StartEventGuarded(s.lines, s.sel, rest, c, s.hist.generation);
    TrimKeepsTop(StartEvent(s.lines, s.sel, rest, c, s.hist.generation), s.hist.undoDepth);
    assert Last(StartEvent(s.lines, s.sel, rest, c, s.hist.generation)) == event;
    InverseUndoes(s.lines, c);
    One(TEXT, Splice(s.lines, c), Inverse(s.lines, c));
  }

  lemma MergedTop(settings: Settings, s: DocState, c: Change, origin: Option<string>,
                  opId: Option<nat>, time: int, book: Book)
    requires Truthful(s, book) && ValidChange(s.lines, c)
    requires Merges(settings, s, origin, opId, time)
    ensures HasChange(s.hist.done) && Recorded(settings, s, c, origin, opId, time) != []
    ensures var top, last := Last(Recorded(settings, s, c, origin, opId, time)), Last(StripSelections(s.hist.done));
            && top.ChangeEvent? && top.generation == last.generation
            && Revertible(TEXT, Splice(s.lines, c), top.changes)
            && Revert(TEXT, Splice(s.lines, c), top.changes) == Revert(TEXT, s.lines, last.changes)
  {
    var rest := Mergeable(settings, s.hist, origin, opId, time).0;
    var force := SameOp(s.hist.lastOp, opId);
    StripOfRest(s.hist.done, force);
    RestUndoable(s.lines, s.hist.done, force, book);
    ExtendReverts(s.lines, Last(rest), c);
  }

  lemma StripOfRest(done: seq<Event>, force: bool)
    requires LastChangeEvent(done, force).1
    ensures LastChangeEvent(done, force).0 == StripSelections(done)
  {
    if !force && done != [] && Last(done).SelectionEvent? {
      assert Last(Init(done)).ChangeEvent?;
      assert StripSelections(done) == StripSelections(Init(done)) == Init(done);
    }
  }

  // ----- undo and redo are inverse -----

  /** The change events of a stack. */
  function Entries(events: seq<Event>): seq<Entry<Change>>
    decreases |events|
  {
    if events == [] then []
    else
      var top := Last(events);
      Entries(Init(events)) + (if top.ChangeEvent? then [Entry(top.changes, top.generation)] else [])
  }

  /** A document's text, generation and change events, without its selections. */
  function CoreOf(s: DocState): Core<Lines, Change> {
    Core(s.lines, Entries(s.hist.done), Entries(s.hist.undone), s.hist.generation)
  }

  lemma {:induction false} EntriesOfStrip(events: seq<Event>)
    ensures HasChange(events) <==> Entries(events) != []
    ensures HasChange(events) ==>
              var top := StripSelections(events);
              && Last(Entries(events)) == Entry(Last(top).changes, Last(top).generation)
              && Init(Entries(events)) == Entries(Init(top))
    decreases |events|
  {
    if events != [] && Last(events).SelectionEvent? {
      EntriesOfStrip(Init(events));
    }
  }

  lemma EntriesOfPush(sel: Selection, events: seq<Event>)
    ensures Entries(PushSelection(sel, events)) == Entries(events)
  {
    assert Init(events + [SelectionEvent(sel)]) == events;
  }

  lemma {:induction false} EntriesOfPop(source: seq<Event>, dest: seq<Event>, sel: Selection)
    requires HasChange(source)
    ensures Entries(PopSelections(source, dest, sel).1) == Entries(dest)
    decreases |source|
  {
    if Last(source).SelectionEvent? {
      var top := Last(source).sel;
      EntriesOfPush(top, dest);
      EntriesOfPop(Init(source), PushSelection(top, dest), top);
    }
  }

  lemma EntriesOfEvent(events: seq<Event>, changes: seq<Change>, generation: nat)
    ensures Entries(events + [ChangeEvent(changes, generation)]) == Entries(events) + [Entry(changes, generation)]
  {
    assert Init(events + [ChangeEvent(changes, generation)]) == events;
  }

  /** Undo and redo act on the core alone, whatever the selections are. */
  lemma FromHistoryMoves(s: DocState, undo: bool, computed: Selection)
    requires CanApply(s, undo)
    ensures CoreOf(FromHistory(s, undo, computed)) == Move(TEXT, CoreOf(s), undo)
  {
    var h := s.hist;
    var source, dest := if undo then h.done else h.undone, if undo then h.undone else h.done;
    EntriesOfStrip(source);
    if HasChange(source) {
      var r := PopSelections(source, dest, s.sel);
      EntriesOfPop(source, dest, s.sel);
      EntriesOfPush(r.2, r.1);
      EntriesOfEvent(PushSelection(r.2, r.1), Anti(TEXT, s.lines, Last(r.0).changes), h.generation);
    }
  }

  lemma {:induction false} UndoableIsApplicable(lines: Lines, events: seq<Event>, book: Book)
    requires Undoable(lines, events, book)
    ensures Applicable(TEXT, lines, Entries(events))
    decreases |events|
  {
    if events != [] {
      match Last(events)
      case SelectionEvent(_) =>
        UndoableIsApplicable(lines, Init(events), book);
        assert Entries(events) == Entries(Init(events));
      case ChangeEvent(changes, generation) =>
        UndoableIsApplicable(Revert(TEXT, lines, changes), Init(events), book);
        var below := Entries(Init(events));
        assert Init(below + [Entry(changes, generation)]) == below;
    }
  }

  function Times(action: Action, n: nat): (r: seq<Action>)
    ensures |r| == n && forall i :: 0 <= i < n ==> r[i] == action
  {
    seq(n, _ => action)
  }

  function HistoryAction(undo: bool, computed: Selection): Action {
    if undo then Undo(computed) else Redo(computed)
  }

  /** A sound run from a fresh document that ends with this core. */
  ghost predicate Reaches(settings: Settings, s0: DocState, actions: seq<Action>, core: Core<Lines, Change>)
    requires Wf(s0.hist)
  {
    && SoundRun(settings, s0, actions)
    && Run(settings, s0, actions).Some?
    && CoreOf(Run(settings, s0, actions).value) == core
  }

  lemma RunMovesOnce(settings: Settings, lines: Lines, sel: Selection, actions: seq<Action>,
                     core: Core<Lines, Change>, undo: bool, computed: Selection)
    requires Reaches(settings, NewDoc(settings, lines, sel), actions, core)
    ensures Reaches(settings, NewDoc(settings, lines, sel), actions + [HistoryAction(undo, computed)],
                    Move(TEXT, core, undo))
  {
    var action := HistoryAction(undo, computed);
    assert Init(actions + [action]) == actions && Last(actions + [action]) == action;
    RunIsTruthful(settings, lines, sel, actions);
    var s := Run(settings, NewDoc(settings, lines, sel), actions).value;
    FromHistoryTruthful(s, undo, computed, Ledger(settings, NewDoc(settings, lines, sel), actions));
    FromHistoryMoves(s, undo, computed);
  }

  /** A series of undos, or of redos, moves the core so many times. */
  lemma {:induction false} RunMoves(settings: Settings, lines: Lines, sel: Selection, actions: seq<Action>,
                                    core: Core<Lines, Change>, undo: bool, computed: Selection, n: nat)
    requires Reaches(settings, NewDoc(settings, lines, sel), actions, core)
    ensures Reaches(settings, NewDoc(settings, lines, sel), actions + Times(HistoryAction(undo, computed), n),
                    Moves(TEXT, core, undo, n))
    decreases n
  {
    var action := HistoryAction(undo, computed);
    if n == 0 {
      assert actions + Times(action, 0) == actions;
    } else {
      var most := actions + Times(action, n - 1);
      RunMoves(settings, lines, sel, actions, core, undo, computed, n - 1);
      RunMovesOnce(settings, lines, sel, most, Moves(TEXT, core, undo, n - 1), undo, computed);
      assert actions + Times(action, n) == most + [action];
    }
  }

  /** In every sound run, n undos followed by n redos give back the text, the
      generation, and every undo and redo event, entry for entry. */
  lemma UndosThenRedosInRun(settings: Settings, lines: Lines, sel: Selection, actions: seq<Action>, n: nat,
                            computed: Selection)
    requires SoundRun(settings, NewDoc(settings, lines, sel), actions)
    ensures var all := actions + Times(Undo(computed), n) + Times(Redo(computed), n);
            && Run(settings, NewDoc(settings, lines, sel), actions).Some?
            && Run(settings, NewDoc(settings, lines, sel), all).Some?
            && var c := CoreOf(Run(settings, NewDoc(settings, lines, sel), actions).value);
               n <= |c.done| ==> CoreOf(Run(settings, NewDoc(settings, lines, sel), all).value) == c
  {
    RunIsTruthful(settings, lines, sel, actions);
    var s := Run(settings, NewDoc(settings, lines, sel), actions).value;
    var c := CoreOf(s);
    RunMoves(settings, lines, sel, actions, c, true, computed, n);
    RunMoves(settings, lines, sel, actions + Times(Undo(computed), n), Moves(TEXT, c, true, n), false, computed, n);
    UndoableIsApplicable(s.lines, s.hist.done, Ledger(settings, NewDoc(settings, lines, sel), actions));
    TextIsInvertible();
    if n <= |c.done| {
      UndosThenRedos(TEXT, c, n);
    }
  }
}
