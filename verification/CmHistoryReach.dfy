/** How far back undo reaches: over every run of edits, to the start of as many events as
    half the undoDepth, and no further. */
module CmHistoryReach {
  import opened Wrappers
  import opened CmText
  import opened CmReverting
  import opened CmUndoCore
  import opened CmHistory
  import opened CmHistoryInvariant
  import opened CmHistoryRuns

  // ----- a series of undos -----

  /** A text and the generation it has. */
  datatype Past = Past(lines: Lines, generation: nat)

  function Now(s: DocState): Past {
    Past(s.lines, s.hist.generation)
  }

  /** The state after j undos. */
  function UndoneTimes(settings: Settings, s: DocState, computed: Selection, j: nat): Option<DocState>
    requires Wf(s.hist)
  {
    Run(settings, s, Times(Undo(computed), j))
  }

  /** The texts that a stack leads back to, the oldest first. */
  ghost function Pasts(events: seq<Event>, book: Book): seq<Past>
    decreases |events|
  {
    if events == [] then [] else Pasts(Init(events), book) + PastOf(Last(events), book)
  }

  ghost function PastOf(event: Event, book: Book): seq<Past> {
    if event.SelectionEvent? then []
    else [Past(if event.generation in book then book[event.generation] else [""], event.generation)]
  }

  /** The state u is where so many undos lead to from s. */
  ghost predicate IsBack(s: DocState, book: Book, u: DocState, back: nat) {
    var pasts := Pasts(s.hist.done, book);
    && back <= |pasts| && Truthful(u, book)
    && Pasts(u.hist.done, book) == pasts[..|pasts| - back]
    && Now(u) == if back == 0 then Now(s) else pasts[|pasts| - back]
  }

  function Least(a: nat, b: nat): nat {
    if a <= b then a else b
  }

  /** Undos go back through the texts of the stack one by one, as long as there are any. */
  lemma {:induction false} UndosGoBack(settings: Settings, s: DocState, book: Book, computed: Selection, j: nat)
    requires Truthful(s, book)
    ensures UndoneTimes(settings, s, computed, j).Some?
    ensures IsBack(s, book, UndoneTimes(settings, s, computed, j).value, Least(j, |Pasts(s.hist.done, book)|))
    decreases j
  {
    hide Pasts, FromHistory, CanApply;
    if j == 0 {
      assert Times(Undo(computed), 0) == [];
      assert Pasts(s.hist.done, book)[..|Pasts(s.hist.done, book)|] == Pasts(s.hist.done, book);
    } else {
      UndosGoBack(settings, s, book, computed, j - 1);
      assert Init(Times(Undo(computed), j)) == Times(Undo(computed), j - 1);
      UndoGoesBack(s, book, UndoneTimes(settings, s, computed, j - 1).value,
                   Least(j - 1, |Pasts(s.hist.done, book)|), computed);
    }
  }

  lemma UndoGoesBack(s: DocState, book: Book, u: DocState, back: nat, computed: Selection)
    requires IsBack(s, book, u, back)
    ensures CanApply(u, true)
    ensures IsBack(s, book, FromHistory(u, true, computed), Least(back + 1, |Pasts(s.hist.done, book)|))
  {
    hide Pasts, FromHistory, CanApply, Truthful, Undoable;
    FromHistoryTruthful(u, true, computed, book);
    var pasts, left := Pasts(s.hist.done, book), Pasts(u.hist.done, book);
    assert left != [] ==> Init(left) == pasts[..|pasts| - back - 1];
    OneUndo(u, book, computed);
  }

  lemma OneUndo(s: DocState, book: Book, computed: Selection)
    requires Truthful(s, book) && CanApply(s, true) && Truthful(FromHistory(s, true, computed), book)
    ensures var pasts, u := Pasts(s.hist.done, book), FromHistory(s, true, computed);
            if pasts == [] then u == s
            else Pasts(u.hist.done, book) == Init(pasts) && Now(u) == Last(pasts)
  {
    PastsOfStrip(s.hist.done, book);
  }

  lemma {:induction false} PastsOfStrip(events: seq<Event>, book: Book)
    ensures var top := StripSelections(events);
            && Pasts(events, book) == Pasts(top, book)
            && (top == [] <==> Pasts(events, book) == [])
            && (top != [] ==> Pasts(events, book)
                              == Pasts(Init(top), book) + PastOf(Last(top), book))
    decreases |events|
  {
    if events != [] && Last(events).SelectionEvent? {
      PastsOfStrip(Init(events), book);
    }
  }

  // ----- pasts of stacks -----

  lemma PastsOnTop(events: seq<Event>, top: Event, book: Book)
    ensures Pasts(events + [top], book) == Pasts(events, book) + PastOf(top, book)
  {
    assert Init(events + [top]) == events;
  }

  lemma {:induction false} PastsConcat(a: seq<Event>, b: seq<Event>, book: Book)
    ensures Pasts(a + b, book) == Pasts(a, book) + Pasts(b, book)
    decreases |b|
  {
    if b == [] {
      assert a + b == a;
    } else {
      assert a + b == a + Init(b) + [Last(b)];
      PastsOnTop(a + Init(b), Last(b), book);
      PastsConcat(a, Init(b), book);
    }
  }

  lemma {:induction false} PastsInLargerBook(lines: Lines, events: seq<Event>, book: Book, book': Book)
    requires Undoable(lines, events, book) && Extends(book, book')
    ensures Pasts(events, book') == Pasts(events, book)
    decreases |events|
  {
    if events != [] {
      match Last(events)
      case SelectionEvent(_) => PastsInLargerBook(lines, Init(events), book, book');
      case ChangeEvent(changes, _) => PastsInLargerBook(Revert(TEXT, lines, changes), Init(events), book, book');
    }
  }

  /** Selections and changes take turns, beginning with a selection. */
  predicate Alternates(events: seq<Event>) {
    forall i :: 0 <= i < |events| ==> (events[i].ChangeEvent? <==> i % 2 == 1)
  }

  lemma {:induction false} PastsOfAlternating(events: seq<Event>, book: Book)
    requires Alternates(events)
    ensures |Pasts(events, book)| == |events| / 2
    decreases |events|
  {
    if events != [] {
      assert Alternates(Init(events));
      PastsOfAlternating(Init(events), book);
    }
  }

  lemma AlternatesOnTop(events: seq<Event>, top: Event)
    requires Alternates(events) && (top.ChangeEvent? <==> |events| % 2 == 1)
    ensures Alternates(events + [top])
  {
  }

  lemma AlternatesBelow(events: seq<Event>, n: nat)
    requires Alternates(events) && n <= |events|
    ensures Alternates(events[..n])
    ensures n % 2 == 0 ==> Alternates(events[n..])
  {
  }

  lemma PastsAbove(events: seq<Event>, n: nat, book: Book)
    requires Alternates(events) && n <= |events| && n % 2 == 0
    ensures |Pasts(events, book)| == |events| / 2
    ensures Pasts(events[n..], book) == Pasts(events, book)[n / 2..]
  {
    hide Pasts;
    AlternatesBelow(events, n);
    assert events == events[..n] + events[n..];
    PastsConcat(events[..n], events[n..], book);
    PastsOfAlternating(events[..n], book);
    PastsOfAlternating(events, book);
  }

  /** Of an alternating stack, whole events go, and as few as possible. */
  lemma TrimAlternating(done: seq<Event>, undoDepth: Option<nat>, book: Book)
    requires Guarded(done) && Alternates(done) && |done| % 2 == 0
    ensures var kept, pasts := Trim(done, undoDepth), Pasts(done, book);
            && Alternates(kept) && |kept| % 2 == 0
            && Pasts(kept, book) == pasts[|pasts| - Reach(undoDepth, |pasts|)..]
  {
    hide Pasts, Guarded;
    var n := Dropped(done, undoDepth);
    AlternatesBelow(done, n);
    PastsAbove(done, n, book);
  }

  lemma Dropped(done: seq<Event>, undoDepth: Option<nat>) returns (n: nat)
    requires Guarded(done) && Alternates(done) && |done| % 2 == 0
    ensures n <= |done| && n % 2 == 0 && |done| - n == 2 * Reach(undoDepth, |done| / 2)
    ensures Trim(done, undoDepth) == done[n..]
  {
    n := 0;
    if undoDepth.Some? {
      var kept := KeptIsEven(done, undoDepth.value);
      n := |done| - |kept|;
    }
  }

  lemma KeptIsEven(done: seq<Event>, d: nat) returns (kept: seq<Event>)
    requires Guarded(done) && Alternates(done) && |done| % 2 == 0
    ensures kept == Trim(done, Some(d)) && |kept| <= |done| && kept == done[|done| - |kept|..]
    ensures |kept| == 2 * Least(|done| / 2, d / 2)
  {
    hide Trim, Guarded;
    KeptOrAll(done, d);
    kept := Trim(done, Some(d));
    var n := |done| - |kept|;
    assert n % 2 == 0 by {
      if n < |done| && |done| > d {
        assert done[n] == kept[0];
      }
    }
    if |done| > d {
      EvenBelow(|kept|, d);
    }
  }

  lemma KeptOrAll(done: seq<Event>, d: nat)
    requires Guarded(done) && (done == [] || Last(done).ChangeEvent?)
    ensures var kept := Trim(done, Some(d));
            && |kept| <= |done| && kept == done[|done| - |kept|..]
            && (|done| <= d ==> kept == done)
            && (|done| > d ==> |kept| <= d <= |kept| + 1 && (kept != [] ==> kept[0].SelectionEvent?))
  {
    TrimKeepsMost(done, d);
  }

  lemma EvenBelow(k: nat, d: nat)
    requires k % 2 == 0 && k <= d <= k + 1
    ensures k == 2 * (d / 2)
  {
  }

  /** How many of n events can be undone. */
  function Reach(undoDepth: Option<nat>, n: nat): nat {
    if undoDepth.None? then n else Least(n, undoDepth.value / 2)
  }

  // ----- runs of edits -----

  ghost predicate AllEdits(actions: seq<Action>) {
    forall i :: 0 <= i < |actions| ==> actions[i].Edit?
  }

  /** An edit that changes something and does not join the event on top. */
  predicate StartsEvent(settings: Settings, s: DocState, edit: Action)
    requires edit.Edit?
  {
    var c := Clipped(s.lines, edit.a, edit.b, edit.text);
    !(c.text == [""] && c.from == c.to) && !Merges(settings, s, edit.origin, edit.opId, edit.time)
  }

  /** The text and generation just before every edit of a run that starts an event. */
  ghost function Starts(settings: Settings, s0: DocState, edits: seq<Action>): seq<Past>
    requires Wf(s0.hist) && AllEdits(edits)
    decreases |edits|
  {
    if edits == [] then []
    else
      var before := Run(settings, s0, Init(edits));
      Starts(settings, s0, Init(edits))
      + if before.Some? && StartsEvent(settings, before.value, Last(edits)) then [Now(before.value)] else []
  }

  /** The stack leads back to the last starts, to as many as the undoDepth has room for. */
  ghost predicate Remembers(s: DocState, book: Book, starts: seq<Past>) {
    && Truthful(s, book)
    && Rests(s.hist.done)
    && Pasts(s.hist.done, book) == starts[|starts| - Reach(s.hist.undoDepth, |starts|)..]
  }

  /** The stack between two edits. */
  predicate Rests(done: seq<Event>) {
    Alternates(done) && (done == [] || |done| % 2 == 1)
  }

  lemma MergeRemembers(settings: Settings, s: DocState, c: Change, origin: Option<string>, opId: Option<nat>,
                       time: int, selAfter: Selection, book: Book)
    requires Wf(s.hist) && Rests(s.hist.done) && ValidChange(s.lines, c) && Merges(settings, s, origin, opId, time)
    ensures var done := Recorded(settings, s, c, origin, opId, time) + [SelectionEvent(selAfter)];
            Rests(done) && Pasts(done, book) == Pasts(s.hist.done, book)
  {
    hide Pasts, StripSelections, Alternates;
    var rest := Mergeable(settings, s.hist, origin, opId, time).0;
    StripOfRest(s.hist.done, SameOp(s.hist.lastOp, opId));
    StripOfResting(s.hist.done);
    TopReplaced(s.hist.done, Extend(s.lines, Last(rest), c), selAfter, book);
  }

  lemma StripOfResting(events: seq<Event>)
    requires Rests(events)
    ensures StripSelections(events) == if events == [] then [] else Init(events)
  {
    if events != [] {
      assert Last(events).SelectionEvent?;
      assert |events| > 1 ==> Last(Init(events)).ChangeEvent?;
      assert StripSelections(Init(events)) == Init(events);
    }
  }

  lemma TopReplaced(done: seq<Event>, top: Event, sel: Selection, book: Book)
    requires Rests(done) && |done| > 1 && Last(Init(done)).ChangeEvent?
    requires top.ChangeEvent? && top.generation == Last(Init(done)).generation
    ensures var done' := Init(Init(done)) + [top] + [SelectionEvent(sel)];
            Rests(done') && Pasts(done', book) == Pasts(done, book)
  {
    hide Pasts;
    var below := Init(Init(done));
    AlternatesBelow(done, |done| - 2);
    AlternatesOnTop(below, top);
    AlternatesOnTop(below + [top], SelectionEvent(sel));
    assert done == below + [Last(Init(done))] + [Last(done)];
    PastsOnTop(below, top, book);
    PastsOnTop(below, Last(Init(done)), book);
    PastsOnTop(below + [top], SelectionEvent(sel), book);
    PastsOnTop(below + [Last(Init(done))], Last(done), book);
  }

  lemma StartRemembers(settings: Settings, s: DocState, c: Change, origin: Option<string>, opId: Option<nat>,
                       time: int, selAfter: Selection, book: Book)
    requires Wf(s.hist) && Rests(s.hist.done) && ValidChange(s.lines, c) && !Merges(settings, s, origin, opId, time)
    requires s.hist.generation in book && book[s.hist.generation] == s.lines
    ensures var done := Recorded(settings, s, c, origin, opId, time) + [SelectionEvent(selAfter)];
            var pasts := Pasts(s.hist.done, book) + [Now(s)];
            && Rests(done) && Pasts(done, book) == pasts[|pasts| - Reach(s.hist.undoDepth, |pasts|)..]
  {
    hide Pasts, StripSelections, Alternates, Trim, Reach;
    StripOfResting(s.hist.done);
    var rest := Mergeable(settings, s.hist, origin, opId, time).0;
    var started := StartEvent(s.lines, s.sel, rest, c, s.hist.generation);
    StartEventGuarded(s.lines, s.sel, rest, c, s.hist.generation);
    RestOfResting(settings, s.hist, origin, opId, time, book);
    StartedRests(s, rest, c, book);
    TrimAlternating(started, s.hist.undoDepth, book);
    var kept := Trim(started, s.hist.undoDepth);
    AlternatesOnTop(kept, SelectionEvent(selAfter));
    PastsOnTop(kept, SelectionEvent(selAfter), book);
  }

  lemma RestOfResting(settings: Settings, h: History, origin: Option<string>, opId: Option<nat>, time: int, book: Book)
    requires Rests(h.done) && !Mergeable(settings, h, origin, opId, time).1
    ensures var rest := Mergeable(settings, h, origin, opId, time).0;
            Rests(rest) && Pasts(rest, book) == Pasts(h.done, book)
  {
    StripOfResting(h.done);
    PastsOfStrip(h.done, book);
  }

  lemma StartedRests(s: DocState, rest: seq<Event>, c: Change, book: Book)
    requires Rests(rest) && ValidChange(s.lines, c)
    requires s.hist.generation in book && book[s.hist.generation] == s.lines
    ensures var started := StartEvent(s.lines, s.sel, rest, c, s.hist.generation);
            Alternates(started) && |started| % 2 == 0 && Pasts(started, book) == Pasts(rest, book) + [Now(s)]
  {
    hide Pasts;
    var guarded := if rest == [] then [] + [SelectionEvent(s.sel)] else rest;
    var event := ChangeEvent([Inverse(s.lines, c)], s.hist.generation);
    PastsOnTop([], SelectionEvent(s.sel), book);
    AlternatesOnTop([], SelectionEvent(s.sel));
    assert rest != [] ==> Last(rest).SelectionEvent?;
    assert StartEvent(s.lines, s.sel, rest, c, s.hist.generation) == guarded + [event];
    AlternatesOnTop(guarded, event);
    PastsOnTop(guarded, event, book);
  }

  lemma EditRemembers(settings: Settings, s: DocState, edit: Action, book: Book, starts: seq<Past>)
    requires edit.Edit? && Remembers(s, book, starts)
    ensures var s' := Step(settings, s, edit).value;
            Remembers(s', Enter(book, s'), starts + if StartsEvent(settings, s, edit) then [Now(s)] else [])
  {
    hide Pasts, Alternates, Undoable, Recorded, Mergeable;
    var c := Clipped(s.lines, edit.a, edit.b, edit.text);
    StepKeepsWf(settings, s, edit);
    MakeChangeTruthful(settings, s, c, edit.origin, edit.selAfter, edit.opId, edit.time, book);
    var s' := Step(settings, s, edit).value;
    PastsInLargerBook(s.lines, s.hist.done, book, Enter(book, s'));
    if c.text == [""] && c.from == c.to {
      assert Enter(book, s') == book;
    } else if Merges(settings, s, edit.origin, edit.opId, edit.time) {
      MergeRemembers(settings, s, c, edit.origin, edit.opId, edit.time, edit.selAfter, Enter(book, s'));
    } else {
      StartRemembers(settings, s, c, edit.origin, edit.opId, edit.time, edit.selAfter, Enter(book, s'));
    }
  }

  lemma {:induction false} EditsRemember(settings: Settings, s0: DocState, edits: seq<Action>) returns (book: Book)
    requires Wf(s0.hist) && s0.hist.done == [] && s0.hist.undone == [] && s0.hist.generation == s0.hist.maxGeneration
    requires AllEdits(edits)
    ensures Run(settings, s0, edits).Some?
    ensures Run(settings, s0, edits).value.hist.undoDepth == s0.hist.undoDepth
    ensures Remembers(Run(settings, s0, edits).value, book, Starts(settings, s0, edits))
    decreases |edits|
  {
    if edits == [] {
      book := map[s0.hist.generation := s0.lines];
    } else {
      book := EditsRemember(settings, s0, Init(edits));
      var s := Run(settings, s0, Init(edits)).value;
      EditRemembers(settings, s, Last(edits), book, Starts(settings, s0, Init(edits)));
      book := Enter(book, Step(settings, s, Last(edits)).value);
    }
  }

  lemma {:induction false} RunOn(settings: Settings, s0: DocState, a: seq<Action>, b: seq<Action>)
    requires Wf(s0.hist) && Run(settings, s0, a).Some?
    ensures Run(settings, s0, a + b) == Run(settings, Run(settings, s0, a).value, b)
    decreases |b|
  {
    if b == [] {
      assert a + b == a;
    } else {
      assert Init(a + b) == a + Init(b) && Last(a + b) == Last(b);
      RunOn(settings, s0, a, Init(b));
    }
  }

  lemma ReachAfterEdits(settings: Settings, s0: DocState, edits: seq<Action>, computed: Selection, j: nat)
    requires Wf(s0.hist) && s0.hist.done == [] && s0.hist.undone == [] && s0.hist.generation == s0.hist.maxGeneration
    requires AllEdits(edits)
    ensures Run(settings, s0, edits).Some? && Run(settings, s0, edits + Times(Undo(computed), j)).Some?
    ensures var starts := Starts(settings, s0, edits);
            var back := Least(j, Reach(s0.hist.undoDepth, |starts|));
            Now(Run(settings, s0, edits + Times(Undo(computed), j)).value)
            == if back == 0 then Now(Run(settings, s0, edits).value) else starts[|starts| - back]
  {
    hide Truthful, Pasts, Rests, Run, Starts, Times, Wf;
    var book := EditsRemember(settings, s0, edits);
    RunOn(settings, s0, edits, Times(Undo(computed), j));
    UndosGoBack(settings, Run(settings, s0, edits).value, book, computed, j);
  }

  /** After any edits of a new document, undo goes back, one by one, through the texts from
      which the last events started, to half as many as the editor's undoDepth, and any
      further undo does nothing. */
  lemma EditsCanBeUndone(settings: Settings, lines: Lines, sel: Selection, edits: seq<Action>, computed: Selection,
                         j: nat)
    requires AllEdits(edits)
    ensures var s0 := NewDoc(settings, lines, sel);
            var starts, n := Starts(settings, s0, edits), |Starts(settings, s0, edits)|;
            var reach := if settings.undoDepth.None? || n <= settings.undoDepth.value / 2 then n
                         else settings.undoDepth.value / 2;
            var back := if j <= reach then j else reach;
            && Run(settings, s0, edits).Some? && Run(settings, s0, edits + Times(Undo(computed), j)).Some?
            && Now(Run(settings, s0, edits + Times(Undo(computed), j)).value)
               == if back == 0 then Now(Run(settings, s0, edits).value) else starts[n - back]
  {
    hide Run, Starts, Times;
    ReachAfterEdits(settings, NewDoc(settings, lines, sel), edits, computed, j);
  }

  /** After a restart of the history it goes back to all of them, whatever the editor's
      undoDepth, and never past the restart. */
  lemma EditsAfterClear(settings: Settings, s: DocState, edits: seq<Action>, computed: Selection, j: nat)
    requires Wf(s.hist) && AllEdits(edits)
    ensures var s0 := ClearHistory(s);
            var starts, n := Starts(settings, s0, edits), |Starts(settings, s0, edits)|;
            && Run(settings, s0, edits).Some? && Run(settings, s0, edits + Times(Undo(computed), j)).Some?
            && Now(Run(settings, s0, edits + Times(Undo(computed), j)).value)
               == if j == 0 || n == 0 then Now(Run(settings, s0, edits).value)
                  else starts[if j <= n then n - j else 0]
  {
    hide Run, Starts, Times;
    ReachAfterEdits(settings, ClearHistory(s), edits, computed, j);
  }
}
