/** Why undo works: every event, entered from the text above it, leads back to the
    text its generation stands for. */
module CmHistoryInvariant {
  import opened Wrappers
  import opened CmText
  import opened CmReverting
  import opened CmHistory

  // The text each generation stood for when it was reached.
  type Book = map<nat, Lines>

  /** From this text down the stack, every event can be applied and arrives at the
      text of its generation, from where the next one applies. */
  ghost predicate Undoable(lines: Lines, events: seq<Event>, book: Book)
    decreases |events|
  {
    events == [] ||
    match Last(events)
    case SelectionEvent(_) => Undoable(lines, Init(events), book)
    case ChangeEvent(changes, generation) =>
      && generation in book
      && Revertible(TEXT, lines, changes)
      && Revert(TEXT, lines, changes) == book[generation]
      && Undoable(Revert(TEXT, lines, changes), Init(events), book)
  }

  ghost predicate Truthful(s: DocState, book: Book) {
    && Wf(s.hist)
    && Undoable(s.lines, s.hist.done, book)
    && Undoable(s.lines, s.hist.undone, book)
    && s.hist.generation in book && book[s.hist.generation] == s.lines
    && s.hist.maxGeneration in book
    && forall g :: g in book ==> g <= s.hist.maxGeneration
  }

  /** The book after a state has been reached. */
  ghost function Enter(book: Book, s: DocState): Book {
    book[s.hist.generation := s.lines]
  }

  ghost predicate Extends(book: Book, book': Book) {
    forall g :: g in book ==> g in book' && book'[g] == book[g]
  }

  // ----- the stacks -----

  lemma {:induction false} UndoableInLargerBook(lines: Lines, events: seq<Event>, book: Book, book': Book)
    requires Undoable(lines, events, book) && Extends(book, book')
    ensures Undoable(lines, events, book')
    decreases |events|
  {
    if events != [] {
      match Last(events)
      case SelectionEvent(_) => UndoableInLargerBook(lines, Init(events), book, book');
      case ChangeEvent(changes, _) => UndoableInLargerBook(Revert(TEXT, lines, changes), Init(events), book, book');
    }
  }

  lemma UndoablePush(lines: Lines, sel: Selection, events: seq<Event>, book: Book)
    requires Undoable(lines, events, book)
    ensures Undoable(lines, PushSelection(sel, events), book)
  {
    assert Init(events + [SelectionEvent(sel)]) == events;
  }

  lemma {:induction false} UndoableStrip(lines: Lines, events: seq<Event>, book: Book)
    requires Undoable(lines, events, book)
    ensures Undoable(lines, StripSelections(events), book)
    decreases |events|
  {
    if events != [] && Last(events).SelectionEvent? {
      UndoableStrip(lines, Init(events), book);
    }
  }

  lemma {:induction false} UndoablePop(lines: Lines, source: seq<Event>, dest: seq<Event>, sel: Selection, book: Book)
    requires HasChange(source) && Undoable(lines, source, book) && Undoable(lines, dest, book)
    ensures var r := PopSelections(source, dest, sel); Undoable(lines, r.0, book) && Undoable(lines, r.1, book)
    decreases |source|
  {
    if Last(source).SelectionEvent? {
      var top := Last(source).sel;
      UndoablePush(lines, top, dest, book);
      UndoablePop(lines, Init(source), PushSelection(top, dest), top, book);
    }
  }

  /** Forgetting the oldest events leaves the others in order. */
  lemma {:induction false} UndoableSuffix(lines: Lines, events: seq<Event>, k: nat, book: Book)
    requires k <= |events| && Undoable(lines, events, book)
    ensures Undoable(lines, events[k..], book)
    decreases |events|
  {
    if k < |events| {
      assert Init(events[k..]) == Init(events)[k..];
      assert Last(events[k..]) == Last(events);
      match Last(events)
      case SelectionEvent(_) => UndoableSuffix(lines, Init(events), k, book);
      case ChangeEvent(changes, _) => UndoableSuffix(Revert(TEXT, lines, changes), Init(events), k, book);
    } else {
      assert events[k..] == [];
    }
  }

  lemma TextIsInvertible()
    ensures Invertible(TEXT)
  {
    forall d, c | TEXT.valid(d, c) ensures InverseWorks(TEXT, d, c) {
      InverseUndoes(d, c);
    }
  }

  // ----- recording -----

  /** A merged event still leads back to the text before its first change. */
  lemma ExtendReverts(lines: Lines, event: Event, c: Change)
    requires ValidChange(lines, c)
    requires event.ChangeEvent? && event.changes != [] && Revertible(TEXT, lines, event.changes)
    ensures var d, e := Splice(lines, c), Extend(lines, event, c);
            && Revertible(TEXT, d, e.changes)
            && Revert(TEXT, d, e.changes) == Revert(TEXT, lines, event.changes)
  {
    hide ApplyChange, InvertChange;
    if c.from == c.to == Last(event.changes).to {
      StretchReverts(lines, Init(event.changes), Last(event.changes), c);
      assert event.changes == Init(event.changes) + [Last(event.changes)];
    } else {
      AppendReverts(lines, event.changes, c);
    }
  }

  lemma AppendReverts(lines: Lines, changes: seq<Change>, c: Change)
    requires ValidChange(lines, c) && Revertible(TEXT, lines, changes)
    ensures var d, longer := Splice(lines, c), changes + [Inverse(lines, c)];
            && Revertible(TEXT, d, longer)
            && Revert(TEXT, d, longer) == Revert(TEXT, lines, changes)
  {
    InverseUndoes(lines, c);
    Snoc(TEXT, Splice(lines, c), changes, Inverse(lines, c));
    assert TEXT.apply(Splice(lines, c), Inverse(lines, c)) == lines;
  }

  lemma StretchReverts(lines: Lines, init: seq<Change>, last: Change, c: Change)
    requires ValidChange(lines, c) && c.from == c.to == last.to
    requires Revertible(TEXT, lines, init + [last])
    ensures var d, stretched := Splice(lines, c), last.(to := ChangeEnd(c));
            && Revertible(TEXT, d, init + [stretched])
            && Revert(TEXT, d, init + [stretched]) == Revert(TEXT, lines, init + [last])
  {
    var d, stretched := Splice(lines, c), last.(to := ChangeEnd(c));
    Snoc(TEXT, lines, init, last);
    StretchedEntryUndoesBoth(lines, last, c);
    assert TEXT.apply(d, stretched) == TEXT.apply(lines, last);
    Snoc(TEXT, d, init, stretched);
  }

  lemma RecordedUndoable(settings: Settings, s: DocState, c: Change, origin: Option<string>,
                         opId: Option<nat>, time: int, book: Book)
    requires Truthful(s, book) && ValidChange(s.lines, c)
    ensures Undoable(Splice(s.lines, c), Recorded(settings, s, c, origin, opId, time), book)
  {
    var (rest, found) := Mergeable(settings, s.hist, origin, opId, time);
    RestUndoable(s.lines, s.hist.done, SameOp(s.hist.lastOp, opId), book);
    if found {
      MergedUndoable(s.lines, rest, c, book);
    } else {
      StartedUndoable(s, rest, c, book);
      TrimUndoable(Splice(s.lines, c), StartEvent(s.lines, s.sel, rest, c, s.hist.generation), s.hist.undoDepth, book);
    }
  }

  lemma TrimUndoable(lines: Lines, done: seq<Event>, undoDepth: Option<nat>, book: Book)
    requires Guarded(done) && (done == [] || Last(done).ChangeEvent?) && Undoable(lines, done, book)
    ensures Undoable(lines, Trim(done, undoDepth), book)
  {
    var kept := Trim(done, undoDepth);
    TrimKeepsGuarded(done, undoDepth);
    var k := |done| - |kept|;
    UndoableSuffix(lines, done, k, book);
    assert kept == done[k..];
  }

  lemma RestUndoable(lines: Lines, done: seq<Event>, force: bool, book: Book)
    requires Undoable(lines, done, book) && Guarded(done)
    ensures Undoable(lines, LastChangeEvent(done, force).0, book)
  {
    UndoableStrip(lines, done, book);
    if done != [] && Last(done).ChangeEvent? {
    } else if |done| > 1 && done[|done| - 2].ChangeEvent? {
      assert Last(done).SelectionEvent?;
    }
  }

  lemma MergedUndoable(lines: Lines, rest: seq<Event>, c: Change, book: Book)
    requires ValidChange(lines, c) && Guarded(rest) && rest != [] && Last(rest).ChangeEvent?
    requires Last(rest).changes != []
    requires Undoable(lines, rest, book)
    ensures Undoable(Splice(lines, c), Init(rest) + [Extend(lines, Last(rest), c)], book)
  {
    ExtendReverts(lines, Last(rest), c);
    var merged := Init(rest) + [Extend(lines, Last(rest), c)];
    assert Init(merged) == Init(rest) && Last(merged) == Extend(lines, Last(rest), c);
  }

  lemma StartedUndoable(s: DocState, rest: seq<Event>, c: Change, book: Book)
    requires Truthful(s, book) && ValidChange(s.lines, c) && Undoable(s.lines, rest, book) && Guarded(rest)
    ensures Guarded(StartEvent(s.lines, s.sel, rest, c, s.hist.generation))
    ensures Undoable(Splice(s.lines, c), StartEvent(s.lines, s.sel, rest, c, s.hist.generation), book)
  {
    StartEventGuarded(s.lines, s.sel, rest, c, s.hist.generation);
    InverseUndoes(s.lines, c);
    One(TEXT, Splice(s.lines, c), Inverse(s.lines, c));
    UndoablePush(s.lines, s.sel, rest, book);
    var guarded := if rest == [] || Last(rest).ChangeEvent? then PushSelection(s.sel, rest) else rest;
    var event := ChangeEvent([Inverse(s.lines, c)], s.hist.generation);
    assert Init(guarded + [event]) == guarded && Last(guarded + [event]) == event;
  }

  // ----- every step -----

  lemma MakeChangeTruthful(settings: Settings, s: DocState, c: Change, origin: Option<string>,
                           selAfter: Selection, opId: Option<nat>, time: int, book: Book)
    requires Truthful(s, book) && ValidChange(s.lines, c)
    requires Wf(MakeChange(settings, s, c, origin, selAfter, opId, time).hist)
    ensures var s' := MakeChange(settings, s, c, origin, selAfter, opId, time);
            Truthful(s', Enter(book, s')) && Extends(book, Enter(book, s'))
  {
    var s' := MakeChange(settings, s, c, origin, selAfter, opId, time);
    if s' == s {
      assert Enter(book, s) == book;
    } else {
      var recorded := Recorded(settings, s, c, origin, opId, time);
      RecordedUndoable(settings, s, c, origin, opId, time, book);
      UndoableInLargerBook(s'.lines, recorded, book, Enter(book, s'));
      UndoableBelow(s'.lines, recorded, selAfter, Enter(book, s'));
    }
  }

  lemma UndoableBelow(lines: Lines, events: seq<Event>, sel: Selection, book: Book)
    requires Undoable(lines, events, book)
    ensures Undoable(lines, events + [SelectionEvent(sel)], book)
  {
    assert Init(events + [SelectionEvent(sel)]) == events;
  }

  lemma FromHistoryTruthful(s: DocState, undo: bool, computed: Selection, book: Book)
    requires Truthful(s, book)
    ensures CanApply(s, undo)
    ensures Truthful(FromHistory(s, undo, computed), book)
  {
    var source, dest := if undo then s.hist.done else s.hist.undone, if undo then s.hist.undone else s.hist.done;
    hide ApplyChange, InvertChange;
    UndoableStrip(s.lines, source, book);
    if HasChange(source) {
      FittingApplies(s.lines, Last(StripSelections(source)).changes);
      FromHistoryKeepsWf(s, undo, computed);
      UndoablePop(s.lines, source, dest, s.sel, book);
      var r := PopSelections(source, dest, s.sel);
      ApplyTopUndoable(s, undo, r.0, r.1, r.2, computed, book);
    }
  }

  lemma ApplyTopUndoable(s: DocState, undo: bool, source: seq<Event>, dest: seq<Event>, selAfter: Selection,
                         computed: Selection, book: Book)
    requires source != [] && Last(source).ChangeEvent?
    requires Undoable(s.lines, source, book) && Undoable(s.lines, dest, book)
    requires s.hist.generation in book && book[s.hist.generation] == s.lines
    ensures var s' := ApplyTop(s, undo, source, dest, selAfter, computed);
            && Undoable(s'.lines, s'.hist.done, book)
            && Undoable(s'.lines, s'.hist.undone, book)
            && s'.hist.generation in book && book[s'.hist.generation] == s'.lines
  {
    hide ApplyChange, InvertChange, Revertible, Revert, Anti;
    var event := Last(source);
    TextIsInvertible();
    AntiReverts(TEXT, s.lines, event.changes);
    UndoablePush(s.lines, selAfter, dest, book);
    UndoableAbove(Revert(TEXT, s.lines, event.changes), PushSelection(selAfter, dest),
                  Anti(TEXT, s.lines, event.changes), s.hist.generation, s.lines, book);
  }

  lemma UndoableAbove(lines: Lines, events: seq<Event>, changes: seq<Change>, generation: nat, below: Lines, book: Book)
    requires Revertible(TEXT, lines, changes) && Revert(TEXT, lines, changes) == below
    requires generation in book && book[generation] == below && Undoable(below, events, book)
    ensures Undoable(lines, events + [ChangeEvent(changes, generation)], book)
  {
    var event := ChangeEvent(changes, generation);
    assert Init(events + [event]) == events && Last(events + [event]) == event;
  }

  /** A selection that would overwrite a change event. */
  predicate Clobbers(settings: Settings, s: DocState, action: Action)
    requires Wf(s.hist)
  {
    && action.Select?
    && s.hist.done != [] && Last(s.hist.done).ChangeEvent?
    && Overwrites(settings, s.hist, action.sel, action.opId, action.selOrigin, action.time)
  }

  /** A history restart while a newer generation than the current one exists. */
  predicate Relabels(s: DocState, action: Action) {
    action.Clear? && s.hist.generation != s.hist.maxGeneration
  }

  /** Whether undo would work without the event on top: there is no other change event, or
      the next one fits the present text and leads to the text of its generation. */
  ghost predicate NextLeadsBack(s: DocState, book: Book)
    requires s.hist.done != []
  {
    var below := StripSelections(Init(s.hist.done));
    below == [] ||
    (&& Last(below).generation in book
     && Revertible(TEXT, s.lines, Last(below).changes)
     && Revert(TEXT, s.lines, Last(below).changes) == book[Last(below).generation])
  }

  /** A step that overwrites no change event but one that undo can do without, and gives
      the current text no newer generation but one that has this text. */
  ghost predicate Sound(settings: Settings, s: DocState, action: Action, book: Book)
    requires Wf(s.hist)
  {
    && (Clobbers(settings, s, action) ==> NextLeadsBack(s, book))
    && (Relabels(s, action) ==> s.hist.maxGeneration in book && book[s.hist.maxGeneration] == s.lines)
  }

  /** Only the operation number can make a selection overwrite a change event: it
      takes a redo after another selection or edit of the same operation. */
  lemma ClobberGuard(settings: Settings, s: DocState, action: Action)
    requires Wf(s.hist) && action.Select?
    ensures Clobbers(settings, s, action)
       <==> s.hist.done != [] && Last(s.hist.done).ChangeEvent? && SameOp(s.hist.lastSelOp, action.opId)
  {
  }

  lemma SelectTruthful(settings: Settings, s: DocState, action: Action, book: Book)
    requires Truthful(s, book) && action.Select? && !Clobbers(settings, s, action)
    ensures Truthful(Step(settings, s, action).value, book)
  {
    StepKeepsWf(settings, s, action);
    UndoableStrip(s.lines, s.hist.undone, book);
    UndoablePush(s.lines, action.sel, s.hist.done, book);
    if Overwrites(settings, s.hist, action.sel, action.opId, action.selOrigin, action.time) {
      var replaced := Init(s.hist.done) + [SelectionEvent(action.sel)];
      assert Init(replaced) == Init(s.hist.done);
    }
  }

  /** A stack that undoes one text undoes another if and only if its top change event
      leads back from there. */
  lemma {:induction false} UndoableElsewhereIff(lines: Lines, other: Lines, events: seq<Event>, book: Book)
    requires Undoable(lines, events, book)
    ensures var rest := StripSelections(events);
            Undoable(other, events, book)
            <==> rest == [] || (&& Last(rest).generation in book
                                && Revertible(TEXT, other, Last(rest).changes)
                                && Revert(TEXT, other, Last(rest).changes) == book[Last(rest).generation])
    decreases |events|
  {
    if events != [] && Last(events).SelectionEvent? {
      UndoableElsewhereIff(lines, other, Init(events), book);
    }
  }

  /** A selection keeps the promise that undo and redo lead to the text of each generation
      if and only if it overwrites no change event, or only one that undo can do without. */
  lemma SelectIsTruthfulIff(settings: Settings, s: DocState, action: Action, book: Book)
    requires Truthful(s, book) && action.Select?
    ensures Truthful(Step(settings, s, action).value, book)
       <==> !Clobbers(settings, s, action) || NextLeadsBack(s, book)
  {
    if Clobbers(settings, s, action) {
      StepKeepsWf(settings, s, action);
      UndoableStrip(s.lines, s.hist.undone, book);
      var event, below := Last(s.hist.done), Init(s.hist.done);
      var replaced := below + [SelectionEvent(action.sel)];
      assert Init(replaced) == below;
      assert Undoable(Revert(TEXT, s.lines, event.changes), below, book);
      UndoableElsewhereIff(Revert(TEXT, s.lines, event.changes), s.lines, below, book);
    } else {
      SelectTruthful(settings, s, action, book);
    }
  }

  /** A restart keeps every generation's text if and only if nothing newer than the
      current text exists, or the newest text is the current one again. */
  lemma ClearIsTruthfulIff(s: DocState, book: Book)
    requires Truthful(s, book)
    ensures Truthful(ClearHistory(s), book)
       <==> s.hist.generation == s.hist.maxGeneration || book[s.hist.maxGeneration] == s.lines
  {
  }

  /** The stacks are truthful, and the generation a step arrived at has a text that no
      earlier use of that generation contradicts. */
  ghost predicate StaysTruthful(s: DocState, book: Book) {
    Truthful(s, Enter(book, s)) && Extends(book, Enter(book, s))
  }

  /** Every step is possible, and it stays truthful if and only if it is sound. */
  lemma StepTruthfulIff(settings: Settings, s: DocState, action: Action, book: Book)
    requires Truthful(s, book)
    ensures Step(settings, s, action).Some?
    ensures StaysTruthful(Step(settings, s, action).value, book) <==> Sound(settings, s, action, book)
  {
    hide Truthful, StaysTruthful, MakeChange, FromHistory, ClearHistory, MarkClean, CanApply, NextLeadsBack, Overwrites;
    WfOfTruthful(s, book);
    match action
    case Edit(a, b, text, origin, selAfter, opId, time) =>
      StepKeepsWf(settings, s, action);
      MakeChangeTruthful(settings, s, Clipped(s.lines, a, b, text), origin, selAfter, opId, time, book);
      EditStays(Step(settings, s, action).value, book);
    case Select(_, _, _, _, _) =>
      SelectIsTruthfulIff(settings, s, action, book);
      SameTextStays(s, Step(settings, s, action).value, book);
    case Undo(computed) =>
      FromHistoryTruthful(s, true, computed, book);
      KnownTextStays(FromHistory(s, true, computed), book);
    case Redo(computed) =>
      FromHistoryTruthful(s, false, computed, book);
      KnownTextStays(FromHistory(s, false, computed), book);
    case Mark =>
      MarkStays(s, book);
    case Clear =>
      ClearIsTruthfulIff(s, book);
      RestartStays(s, book);
  }

  lemma WfOfTruthful(s: DocState, book: Book)
    requires Truthful(s, book)
    ensures Wf(s.hist) && s.hist.generation in book && s.hist.maxGeneration in book
    ensures book[s.hist.generation] == s.lines
  {
  }

  lemma EditStays(s: DocState, book: Book)
    requires Truthful(s, Enter(book, s)) && Extends(book, Enter(book, s))
    ensures StaysTruthful(s, book)
  {
  }

  lemma KnownTextStays(s: DocState, book: Book)
    requires Truthful(s, book)
    ensures Enter(book, s) == book && StaysTruthful(s, book)
  {
  }

  lemma SameTextStays(s: DocState, s': DocState, book: Book)
    requires Truthful(s, book) && s'.lines == s.lines && s'.hist.generation == s.hist.generation
    ensures StaysTruthful(s', book) <==> Truthful(s', book)
  {
    assert Enter(book, s') == book;
  }

  lemma MarkStays(s: DocState, book: Book)
    requires Truthful(s, book)
    ensures StaysTruthful(MarkClean(s), book)
  {
    KnownTextStays(MarkClean(s), book);
  }

  lemma RestartStays(s: DocState, book: Book)
    requires Truthful(s, book)
    ensures StaysTruthful(ClearHistory(s), book) <==> Truthful(ClearHistory(s), book)
  {
    var s' := ClearHistory(s);
    if Truthful(s', book) {
      KnownTextStays(s', book);
    }
    assert s'.hist.generation == s.hist.maxGeneration && Enter(book, s')[s.hist.maxGeneration] == s.lines;
  }
}
