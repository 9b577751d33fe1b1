/** The undo history as a state machine: what each operation on a document makes
    of its text, its selection and its two event stacks (codemirror.js). */
module CmHistory {
  import opened Wrappers
  import opened CmText
  import opened CmReverting

  // Both stacks hold selections between the change events; the top is at the end.
  datatype Event =
    | SelectionEvent(sel: Selection)
    | ChangeEvent(changes: seq<Change>, generation: nat)

  // An undoDepth of None is unlimited. An operation number is None without an editor (NaN
  // in the source, which no number equals) and after a forced split (null).
  datatype History = History(
    done: seq<Event>,
    undone: seq<Event>,
    undoDepth: Option<nat>,
    lastModTime: int,
    lastSelTime: int,
    lastOp: Option<nat>,
    lastSelOp: Option<nat>,
    lastOrigin: Option<string>,
    lastSelOrigin: Option<string>,
    generation: nat,
    maxGeneration: nat)

  // The undoDepth is the one that the editor gives to the history it starts with.
  datatype Settings = Settings(editor: bool, historyEventDelay: int, undoDepth: Option<nat>)

  datatype DocState = DocState(lines: Lines, sel: Selection, hist: History, cleanGeneration: nat)

  function NewHistory(startGeneration: nat): History {
    var g := if startGeneration == 0 then 1 else startGeneration;
    History([], [], None, 0, 0, None, None, None, None, g, g)
  }

  function NewDoc(settings: Settings, lines: Lines, sel: Selection): DocState {
    DocState(lines, sel, NewHistory(0).(undoDepth := settings.undoDepth), 1)
  }

  predicate SameOp(last: Option<nat>, opId: Option<nat>) {
    opId.Some? && last == opId
  }

  predicate OriginStarts(origin: Option<string>, c: char) {
    origin.Some? && origin.value != "" && origin.value[0] == c
  }

  // ----- well-formed histories -----

  /** Every change event is directly above a selection event. */
  predicate Guarded(events: seq<Event>) {
    forall i :: 0 <= i < |events| && events[i].ChangeEvent? ==>
      i > 0 && events[i - 1].SelectionEvent? && events[i].changes != [] && events[i].generation > 0
  }

  predicate Wf(h: History) {
    && Guarded(h.done)
    && Guarded(h.undone)
    && h.generation > 0
    && h.maxGeneration > 0
    && (h.lastSelOp.Some? ==> h.done != [])
    && (h.lastSelOrigin.Some? ==> h.done != [] && Last(h.done).SelectionEvent?)
  }

  // ----- stacks -----

  /** clearSelectionEvents. */
  function StripSelections(events: seq<Event>): (r: seq<Event>)
    ensures |r| <= |events| && r == events[..|r|]
    ensures r == [] || Last(r).ChangeEvent?
  {
    if events == [] || Last(events).ChangeEvent? then events else StripSelections(Init(events))
  }

  /** pushSelectionToHistory. */
  function PushSelection(sel: Selection, events: seq<Event>): (r: seq<Event>)
    ensures r != [] && Last(r) == SelectionEvent(sel)
  {
    if events != [] && Last(events) == SelectionEvent(sel) then events else events + [SelectionEvent(sel)]
  }

  /** lastChangeEvent: the remaining stack, and whether a change event is on top. */
  function LastChangeEvent(done: seq<Event>, force: bool): (r: (seq<Event>, bool))
    ensures |r.0| <= |done| && r.0 == done[..|r.0|]
    ensures r.1 ==> r.0 != [] && Last(r.0).ChangeEvent?
  {
    if force then (StripSelections(done), StripSelections(done) != [])
    else if done != [] && Last(done).ChangeEvent? then (done, true)
    else if |done| > 1 && done[|done| - 2].ChangeEvent? then (Init(done), true)
    else (done, false)
  }

  /** Drops the oldest events while there are more than undoDepth. */
  function Trim(done: seq<Event>, undoDepth: Option<nat>): seq<Event>
    requires Guarded(done) && (done == [] || Last(done).ChangeEvent?)
    decreases |done|
  {
    if undoDepth.None? || |done| <= undoDepth.value then done
    else
      assert done[1..] != [] by {
        assert Last(done) == done[|done| - 1];
      }
      if done[1].ChangeEvent? then Trim(done[2..], undoDepth) else Trim(done[1..], undoDepth)
  }

  // ----- recording a change -----

  predicate MayMerge(settings: Settings, h: History, origin: Option<string>, opId: Option<nat>, time: int) {
    || SameOp(h.lastOp, opId)
    || (h.lastOrigin == origin
        && (|| (OriginStarts(origin, '+') && settings.editor && h.lastModTime > time - settings.historyEventDelay)
            || OriginStarts(origin, '*')))
  }

  /** Merges a change into an event: adjacent insertions share the last entry. */
  function Extend(lines: Lines, event: Event, c: Change): (r: Event)
    requires ValidChange(lines, c)
    requires event.ChangeEvent? && event.changes != []
    ensures r.ChangeEvent? && r.changes != [] && r.generation == event.generation
  {
    var last := Last(event.changes);
    if c.from == c.to == last.to
    then event.(changes := Init(event.changes) + [last.(to := ChangeEnd(c))])
    else event.(changes := event.changes + [Inverse(lines, c)])
  }

  /** The stack with a fresh event for the change on top, before trimming. */
  function StartEvent(lines: Lines, sel: Selection, done: seq<Event>, c: Change, generation: nat): seq<Event>
    requires ValidChange(lines, c)
  {
    var guarded := if done == [] || Last(done).ChangeEvent? then PushSelection(sel, done) else done;
    guarded + [ChangeEvent([Inverse(lines, c)], generation)]
  }

  lemma StartEventGuarded(lines: Lines, sel: Selection, done: seq<Event>, c: Change, generation: nat)
    requires ValidChange(lines, c) && Guarded(done) && generation > 0
    ensures Guarded(StartEvent(lines, sel, done, c, generation))
  {
  }

  lemma PrefixGuarded(events: seq<Event>, n: nat)
    requires n <= |events| && Guarded(events)
    ensures Guarded(events[..n])
  {
  }

  /** The stack a change is recorded on, and whether it joins the event on top. */
  function Mergeable(settings: Settings, h: History, origin: Option<string>, opId: Option<nat>, time: int)
    : (r: (seq<Event>, bool))
    ensures |r.0| <= |h.done| && r.0 == h.done[..|r.0|]
    ensures Guarded(h.done) ==> Guarded(r.0)
    ensures r.1 ==> r.0 != [] && Last(r.0).ChangeEvent?
  {
    if MayMerge(settings, h, origin, opId, time) then LastChangeEvent(h.done, SameOp(h.lastOp, opId))
    else (h.done, false)
  }

  /** The done stack after a change has been merged or started an event. */
  function Recorded(settings: Settings, s: DocState, c: Change, origin: Option<string>, opId: Option<nat>, time: int)
    : (done: seq<Event>)
    requires ValidChange(s.lines, c) && Wf(s.hist)
  {
    var (rest, found) := Mergeable(settings, s.hist, origin, opId, time);
    if found then Init(rest) + [Extend(s.lines, Last(rest), c)]
    else
      StartEventGuarded(s.lines, s.sel, rest, c, s.hist.generation);
      Trim(StartEvent(s.lines, s.sel, rest, c, s.hist.generation), s.hist.undoDepth)
  }

  /** addChangeToHistory. */
  function AddChange(settings: Settings, s: DocState, c: Change, origin: Option<string>,
                     selAfter: Selection, opId: Option<nat>, time: int): History
    requires ValidChange(s.lines, c) && Wf(s.hist)
  {
    History(Recorded(settings, s, c, origin, opId, time) + [SelectionEvent(selAfter)], [], s.hist.undoDepth,
            time, time, opId, opId, origin, origin,
            s.hist.maxGeneration + 1, s.hist.maxGeneration + 1)
  }

  /** makeChangeInner: an empty replacement of nothing is not a change. */
  function MakeChange(settings: Settings, s: DocState, c: Change, origin: Option<string>,
                      selAfter: Selection, opId: Option<nat>, time: int): DocState
    requires ValidChange(s.lines, c) && Wf(s.hist)
  {
    if c.text == [""] && c.from == c.to then s
    else
      DocState(Splice(s.lines, c), selAfter, AddChange(settings, s, c, origin, selAfter, opId, time), s.cleanGeneration)
  }

  // ----- recording a selection -----

  predicate SelectionCanBeMerged(settings: Settings, h: History, origin: Option<string>, sel: Selection, time: int)
    requires h.done != [] && Last(h.done).SelectionEvent?
  {
    var prev := Last(h.done).sel;
    || OriginStarts(origin, '*')
    || (&& OriginStarts(origin, '+')
        && |prev.ranges| == |sel.ranges|
        && prev.SomethingSelected() == sel.SomethingSelected()
        && time - h.lastSelTime <= if settings.editor then settings.historyEventDelay else 500)
  }

  /** Whether a new selection overwrites the top of the done stack. */
  predicate Overwrites(settings: Settings, h: History, sel: Selection, opId: Option<nat>, origin: Option<string>,
                       time: int)
    requires Wf(h)
  {
    || SameOp(h.lastSelOp, opId)
    || (&& origin.Some? && origin.value != "" && h.lastSelOrigin == origin
        && (|| (h.lastModTime == h.lastSelTime && h.lastOrigin == origin)
            || SelectionCanBeMerged(settings, h, origin, sel, time)))
  }

  /** addSelectionToHistory. */
  function AddSelection(settings: Settings, h: History, sel: Selection, opId: Option<nat>,
                        origin: Option<string>, clearRedo: bool, time: int): History
    requires Wf(h)
  {
    var done :=
      if Overwrites(settings, h, sel, opId, origin, time) then Init(h.done) + [SelectionEvent(sel)]
      else PushSelection(sel, h.done);
    h.(done := done,
       undone := if clearRedo then StripSelections(h.undone) else h.undone,
       lastSelTime := time, lastSelOrigin := origin, lastSelOp := opId)
  }

  // ----- undo and redo -----

  predicate Applies(lines: Lines, c: Change) {
    Starts(lines, c.from, c.to)
  }

  /** makeChangeSingleDoc, which cuts a change to the size of the document. */
  function ApplyChange(lines: Lines, c: Change): (r: Lines)
    ensures ValidChange(lines, c) ==> r == Splice(lines, c)
  {
    if Applies(lines, c) then Splice(lines, Fitted(lines, c)) else lines
  }

  /** historyChangeFromChange, with the positions as they are. */
  function InvertChange(lines: Lines, c: Change): (r: Change)
    ensures ValidChange(lines, c) ==> r == Inverse(lines, c)
  {
    if Applies(lines, c)
    then Change(c.from, ChangeEnd(c), Between(lines, Clip(lines, c.from), Clip(lines, c.to)))
    else c
  }

  // The edit language of the history: its changes, as far as they fit the text, and as far
  // as they start on a line of it.
  const TEXT: Language<Lines, Change> := Language(ValidChange, ApplyChange, InvertChange)
  const CUT: Language<Lines, Change> := Language(Applies, ApplyChange, InvertChange)

  lemma FittingApplies(lines: Lines, changes: seq<Change>)
    ensures Revertible(TEXT, lines, changes) ==> Revertible(CUT, lines, changes)
    ensures Revert(TEXT, lines, changes) == Revert(CUT, lines, changes)
    ensures Anti(TEXT, lines, changes) == Anti(CUT, lines, changes)
  {
    SameReverting(TEXT, CUT, lines, changes);
  }

  predicate HasChange(events: seq<Event>) {
    StripSelections(events) != []
  }

  lemma {:induction false} HasChangeMeans(events: seq<Event>)
    ensures HasChange(events) <==> exists i :: 0 <= i < |events| && events[i].ChangeEvent?
    decreases |events|
  {
    if events != [] && Last(events).SelectionEvent? {
      HasChangeMeans(Init(events));
      if i :| 0 <= i < |events| && events[i].ChangeEvent? {
        assert Init(events)[i].ChangeEvent?;
      }
      if i :| 0 <= i < |Init(events)| && Init(events)[i].ChangeEvent? {
        assert events[i].ChangeEvent?;
      }
    } else if events != [] {
      assert events[|events| - 1].ChangeEvent?;
    }
  }

  /** Moves the selections above the top change event over to the other stack. */
  function PopSelections(source: seq<Event>, dest: seq<Event>, sel: Selection): (r: (seq<Event>, seq<Event>, Selection))
    requires HasChange(source)
    ensures r.0 == StripSelections(source)
    decreases |source|
  {
    if Last(source).ChangeEvent? then (source, dest, sel)
    else
      var top := Last(source).sel;
      PopSelections(Init(source), PushSelection(top, dest), top)
  }

  predicate CanApply(s: DocState, undo: bool) {
    var source := if undo then s.hist.done else s.hist.undone;
    HasChange(source) ==> Revertible(CUT, s.lines, Last(StripSelections(source)).changes)
  }

  /** Applies the change event on top of the source and leaves its reverse on the
      destination. `computed` is the selection used when the source holds none to go
      back to. A generation in the history is never zero, so the fallback for a
      missing one does not arise. */
  function ApplyTop(s: DocState, undo: bool, source: seq<Event>, dest: seq<Event>, selAfter: Selection,
                    computed: Selection): DocState
    requires source != [] && Last(source).ChangeEvent?
  {
    var event, rest := Last(source), Init(source);
    var dest' := PushSelection(selAfter, dest) + [ChangeEvent(Anti(TEXT, s.lines, event.changes), s.hist.generation)];
    DocState(
      Revert(TEXT, s.lines, event.changes),
      if rest != [] && Last(rest).SelectionEvent? then Last(rest).sel else computed,
      s.hist.(done := if undo then rest else dest', undone := if undo then dest' else rest,
              lastOrigin := None, lastSelOrigin := None, generation := event.generation),
      s.cleanGeneration)
  }

  /** makeChangeFromHistory, for undo and for redo. */
  function FromHistory(s: DocState, undo: bool, computed: Selection): DocState
    requires CanApply(s, undo)
  {
    var source, dest := if undo then s.hist.done else s.hist.undone, if undo then s.hist.undone else s.hist.done;
    if !HasChange(source) then s
    else
      var popped := PopSelections(source, dest, s.sel);
      ApplyTop(s, undo, popped.0, popped.1, popped.2, computed)
  }

  // ----- clean marks -----

  /** markClean, by way of changeGeneration(true). */
  function MarkClean(s: DocState): DocState {
    s.(hist := s.hist.(lastOp := None, lastSelOp := None, lastOrigin := None),
       cleanGeneration := s.hist.generation)
  }

  predicate IsClean(s: DocState) {
    s.hist.generation == s.cleanGeneration
  }

  /** clearHistory starts over from the newest generation, current or not, and forgets
      the undoDepth. */
  function ClearHistory(s: DocState): DocState {
    s.(hist := NewHistory(s.hist.maxGeneration))
  }

  // ----- runs -----

  datatype Action =
    | Edit(a: Pos, b: Pos, text: Lines, origin: Option<string>, selAfter: Selection, opId: Option<nat>, time: int)
    | Select(sel: Selection, opId: Option<nat>, selOrigin: Option<string>, clearRedo: bool, time: int)
    | Undo(computed: Selection)
    | Redo(computed: Selection)
    | Mark
    | Clear

  /** One call from outside. None would be an undo or redo entry that starts beyond the
      last line. */
  function Step(settings: Settings, s: DocState, action: Action): Option<DocState>
    requires Wf(s.hist)
  {
    match action
    case Edit(a, b, text, origin, selAfter, opId, time) =>
      Some(MakeChange(settings, s, Clipped(s.lines, a, b, text), origin, selAfter, opId, time))
    case Select(sel, opId, origin, clearRedo, time) =>
      Some(s.(sel := sel, hist := AddSelection(settings, s.hist, sel, opId, origin, clearRedo, time)))
    case Undo(computed) => if CanApply(s, true) then Some(FromHistory(s, true, computed)) else None
    case Redo(computed) => if CanApply(s, false) then Some(FromHistory(s, false, computed)) else None
    case Mark => Some(MarkClean(s))
    case Clear => Some(ClearHistory(s))
  }

  // ----- every operation keeps histories well-formed -----

  lemma PushKeepsGuarded(sel: Selection, events: seq<Event>)
    requires Guarded(events)
    ensures Guarded(PushSelection(sel, events))
  {
  }

  lemma {:induction false} PopKeepsGuarded(source: seq<Event>, dest: seq<Event>, sel: Selection)
    requires HasChange(source) && Guarded(source) && Guarded(dest)
    ensures var r := PopSelections(source, dest, sel); Guarded(r.0) && Guarded(r.1)
    decreases |source|
  {
    if Last(source).SelectionEvent? {
      var top := Last(source).sel;
      PrefixGuarded(source, |source| - 1);
      PushKeepsGuarded(top, dest);
      PopKeepsGuarded(Init(source), PushSelection(top, dest), top);
    }
  }

  lemma {:induction false} TrimKeepsGuarded(done: seq<Event>, undoDepth: Option<nat>)
    requires Guarded(done) && (done == [] || Last(done).ChangeEvent?)
    ensures Guarded(Trim(done, undoDepth))
    ensures |Trim(done, undoDepth)| <= |done|
    ensures Trim(done, undoDepth) == done[|done| - |Trim(done, undoDepth)|..]
    ensures undoDepth.Some? ==> |Trim(done, undoDepth)| <= undoDepth.value
    decreases |done|
  {
    if undoDepth.Some? && |done| > undoDepth.value {
      if done[1].ChangeEvent? {
        TrimKeepsGuarded(done[2..], undoDepth);
      } else {
        TrimKeepsGuarded(done[1..], undoDepth);
      }
    }
  }

  /** No more is dropped than has to be: what is kept of a longer stack is the longest part
      of at most undoDepth entries that does not begin with a change event, so all but
      one of undoDepth entries at least. */
  lemma {:induction false} TrimKeepsMost(done: seq<Event>, d: nat)
    requires Guarded(done) && (done == [] || Last(done).ChangeEvent?)
    ensures var kept := Trim(done, Some(d));
            && |kept| <= |done| && kept == done[|done| - |kept|..]
            && (|done| <= d ==> kept == done)
            && (|done| > d ==>
                  && |kept| <= d <= |kept| + 1
                  && (kept != [] ==> kept[0].SelectionEvent?)
                  && (forall k :: |done| - d <= k < |done| && done[k].SelectionEvent? ==> |done| - k <= |kept|))
    decreases |done|
  {
    TrimKeepsGuarded(done, Some(d));
    if |done| > d {
      var n := if done[1].ChangeEvent? then 2 else 1;
      TrimKeepsMost(done[n..], d);
      forall k | |done| - d <= k < |done| && done[k].SelectionEvent?
        ensures |done| - k <= |Trim(done, Some(d))|
      {
        assert k >= n ==> done[n..][k - n] == done[k];
      }
    }
  }

  /** Dropping the oldest events spares the newest one if at least two entries may stay:
      it and the selection below it. */
  lemma {:induction false} TrimKeepsTop(done: seq<Event>, undoDepth: Option<nat>)
    requires Guarded(done) && done != [] && Last(done).ChangeEvent?
    ensures Trim(done, undoDepth) != [] <==> undoDepth.None? || undoDepth.value >= 2
    ensures Trim(done, undoDepth) != [] ==> Last(Trim(done, undoDepth)) == Last(done)
    decreases |done|
  {
    TrimKeepsGuarded(done, undoDepth);
    if undoDepth.Some? && 2 <= undoDepth.value < |done| {
      TrimKeepsTop(if done[1].ChangeEvent? then done[2..] else done[1..], undoDepth);
    }
  }

  lemma ReplaceTopGuarded(events: seq<Event>, event: Event)
    requires Guarded(events) && events != [] && Last(events).ChangeEvent?
    requires event.ChangeEvent? && event.changes != [] && event.generation > 0
    ensures Guarded(Init(events) + [event])
  {
  }

  lemma RecordedGuarded(settings: Settings, s: DocState, c: Change, origin: Option<string>, opId: Option<nat>,
                        time: int)
    requires ValidChange(s.lines, c) && Wf(s.hist)
    ensures Guarded(Recorded(settings, s, c, origin, opId, time))
  {
    var (rest, found) := Mergeable(settings, s.hist, origin, opId, time);
    if found {
      ReplaceTopGuarded(rest, Extend(s.lines, Last(rest), c));
    } else {
      StartEventGuarded(s.lines, s.sel, rest, c, s.hist.generation);
      TrimKeepsGuarded(StartEvent(s.lines, s.sel, rest, c, s.hist.generation), s.hist.undoDepth);
    }
  }

  /** Whatever the run does, every change event keeps a selection below it, and the
      selection that undo goes back to is there. */
  lemma StepKeepsWf(settings: Settings, s: DocState, action: Action)
    requires Wf(s.hist)
    ensures Step(settings, s, action).Some? ==> Wf(Step(settings, s, action).value.hist)
  {
    match action
    case Edit(a, b, text, origin, selAfter, opId, time) =>
      var c := Clipped(s.lines, a, b, text);
      RecordedGuarded(settings, s, c, origin, opId, time);
      PushKeepsGuarded(selAfter, Recorded(settings, s, c, origin, opId, time));
    case Select(sel, opId, origin, clearRedo, time) =>
      SelectKeepsWf(settings, s.hist, sel, opId, origin, clearRedo, time);
    case Undo(computed) =>
      if CanApply(s, true) {
        FromHistoryKeepsWf(s, true, computed);
      }
    case Redo(computed) =>
      if CanApply(s, false) {
        FromHistoryKeepsWf(s, false, computed);
      }
    case Mark =>
    case Clear =>
  }

  lemma SelectKeepsWf(settings: Settings, h: History, sel: Selection, opId: Option<nat>,
                      origin: Option<string>, clearRedo: bool, time: int)
    requires Wf(h)
    ensures Wf(AddSelection(settings, h, sel, opId, origin, clearRedo, time))
  {
    hide StripSelections, PushSelection;
    PushKeepsGuarded(sel, h.done);
    PrefixGuarded(h.undone, |StripSelections(h.undone)|);
  }

  lemma FromHistoryKeepsWf(s: DocState, undo: bool, computed: Selection)
    requires Wf(s.hist) && CanApply(s, undo)
    ensures Wf(FromHistory(s, undo, computed).hist)
  {
    var h := s.hist;
    var source, dest := if undo then h.done else h.undone, if undo then h.undone else h.done;
    if HasChange(source) {
      PopKeepsGuarded(source, dest, s.sel);
      var r := PopSelections(source, dest, s.sel);
      PrefixGuarded(r.0, |r.0| - 1);
      PushKeepsGuarded(r.2, r.1);
      var event := Last(r.0);
      PushEventGuarded(r.2, r.1, Anti(TEXT, s.lines, event.changes), h.generation);
      assert r.0 == source[..|r.0|];
      assert Last(r.0) == source[|r.0| - 1];
    }
  }

  lemma PushEventGuarded(sel: Selection, events: seq<Event>, changes: seq<Change>, generation: nat)
    requires Guarded(events) && changes != [] && generation > 0
    ensures Guarded(PushSelection(sel, events) + [ChangeEvent(changes, generation)])
  {
    PushKeepsGuarded(sel, events);
  }
}
