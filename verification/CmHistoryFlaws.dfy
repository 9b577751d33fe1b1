/** Two steps with which the history's promise fails, each with a run that shows it, and
    what a restart means for the run before it. */
module CmHistoryFlaws {
  import opened Wrappers
  import opened CmText
  import opened CmReverting
  import opened CmUndoCore
  import opened CmHistory
  import opened CmHistoryInvariant
  import opened CmHistoryRuns

  // The editor's defaults.
  const EDITOR := Settings(true, 1250, Some(200))

  function Cursor(ch: nat): Selection {
    Selection([Range(Pos(0, ch), Pos(0, ch))], 0)
  }

  function At(ch: nat): Event {
    SelectionEvent(Cursor(ch))
  }

  function Typed(ch: nat, text: string, op: nat): Action {
    Edit(Pos(0, ch), Pos(0, ch), [text], None, Cursor(ch + |text|), Some(op), 0)
  }

  function Click(ch: nat, op: nat): Action {
    Select(Cursor(ch), Some(op), None, true, 0)
  }

  function Doc(text: string, cursor: nat, done: seq<Event>, undone: seq<Event>,
               op: Option<nat>, selOp: Option<nat>, generation: nat, max: nat, clean: nat): DocState
  {
    DocState([text], Cursor(cursor),
             History(done, undone, EDITOR.undoDepth, 0, 0, op, selOp, None, None, generation, max), clean)
  }

  /** One step of a run with the editor's settings. */
  ghost predicate Steps(s: DocState, action: Action, s': DocState) {
    Wf(s.hist) && Step(EDITOR, s, action) == Some(s')
  }

  lemma RunOneMore(s0: DocState, actions: seq<Action>, s: DocState, action: Action, s': DocState)
    requires Wf(s0.hist) && Run(EDITOR, s0, actions) == Some(s) && Steps(s, action, s')
    ensures Run(EDITOR, s0, actions + [action]) == Some(s')
  {
    assert Init(actions + [action]) == actions && Last(actions + [action]) == action;
  }

  // ----- typing on one line -----

  lemma TypeSplice(text: string, t: string)
    ensures Splice([text], Change(Pos(0, |text|), Pos(0, |text|), [t])) == [text + t]
    ensures Inverse([text], Change(Pos(0, |text|), Pos(0, |text|), [t]))
         == Change(Pos(0, |text|), Pos(0, |text| + |t|), [""])
  {
    var c := Change(Pos(0, |text|), Pos(0, |text|), [t]);
    assert Left([text], c.from) == text && Right([text], c.to) == "";
    assert text + t + "" == text + t;
    assert [text][..0] + [text + t] + [text][1..] == [text + t];
    assert Between([text], c.from, c.to) == [""];
  }

  lemma EraseSplice(text: string, from: nat, to: nat)
    requires from <= to <= |text|
    ensures Splice([text], Change(Pos(0, from), Pos(0, to), [""])) == [text[..from] + text[to..]]
    ensures Inverse([text], Change(Pos(0, from), Pos(0, to), [""]))
         == Change(Pos(0, from), Pos(0, from), [text[from..to]])
  {
    assert text[..from] + "" + text[to..] == text[..from] + text[to..];
    assert [text][..0] + [text[..from] + text[to..]] + [text][1..] == [text[..from] + text[to..]];
  }

  lemma TypeStep(text: string, t: string, cursor: nat, done: seq<Event>, op: nat, last: Option<nat>, g: nat, clean: nat)
    requires t != "" && g > 0 && last != Some(op) && Guarded(done) && (last == None <==> done == [])
    requires (done == [] || Last(done) == At(cursor)) && |done| < 100
    ensures var s := Doc(text, cursor, done, [], last, last, g, g, clean);
            var under := if done == [] then [At(cursor)] else done;
            var event := ChangeEvent([Change(Pos(0, |text|), Pos(0, |text| + |t|), [""])], g);
            Steps(s, Typed(|text|, t, op),
                  Doc(text + t, |text| + |t|, under + [event] + [At(|text| + |t|)], [],
                      Some(op), Some(op), g + 1, g + 1, clean))
  {
    TypeSplice(text, t);
    var s := Doc(text, cursor, done, [], last, last, g, g, clean);
    var c := Change(Pos(0, |text|), Pos(0, |text|), [t]);
    assert Clipped([text], c.from, c.to, [t]) == c;
    assert c.text[0] == t && c.text != [""];
    assert !MayMerge(EDITOR, s.hist, None, Some(op), 0);
    var under := if done == [] then [At(cursor)] else done;
    assert StartEvent([text], Cursor(cursor), done, c, g) == under + [ChangeEvent([Inverse([text], c)], g)];
    StartEventGuarded([text], Cursor(cursor), done, c, g);
    assert Recorded(EDITOR, s, c, None, Some(op), 0) == under + [ChangeEvent([Inverse([text], c)], g)];
  }

  /** Undo or redo of a single-entry event right below the selections on top. */
  lemma HistoryStep(s: DocState, undo: bool, computed: Selection, change: Change, generation: nat, rest: seq<Event>,
                    inv: Change)
    requires ValidChange(s.lines, change) && inv == Inverse(s.lines, change)
    requires StripSelections(if undo then s.hist.done else s.hist.undone) == rest + [ChangeEvent([change], generation)]
    requires rest != [] && Last(rest).SelectionEvent?
    ensures CanApply(s, undo)
    ensures var source := if undo then s.hist.done else s.hist.undone;
            var dest := if undo then s.hist.undone else s.hist.done;
            var r := PopSelections(source, dest, s.sel);
            var dest' := PushSelection(r.2, r.1) + [ChangeEvent([inv], s.hist.generation)];
            FromHistory(s, undo, computed)
            == DocState(Splice(s.lines, change), Last(rest).sel,
                        s.hist.(done := if undo then rest else dest', undone := if undo then dest' else rest,
                                lastOrigin := None, lastSelOrigin := None, generation := generation),
                        s.cleanGeneration)
  {
    One(TEXT, s.lines, change);
    var top := rest + [ChangeEvent([change], generation)];
    assert Last(top) == ChangeEvent([change], generation) && Init(top) == rest;
  }

  // ----- a selection that overwrites a change event -----

  // The entries that take back the typing of a and of b, and that type b again.
  function UnA(a: string): Event {
    ChangeEvent([Change(Pos(0, 0), Pos(0, |a|), [""])], 1)
  }

  function UnB(a: string, b: string): Event {
    ChangeEvent([Change(Pos(0, |a|), Pos(0, |a| + |b|), [""])], 2)
  }

  function ReB(a: string, b: string): Event {
    ChangeEvent([Change(Pos(0, |a|), Pos(0, |a|), [b])], 3)
  }

  /** Typing a and then b in an empty document, taking b back, and then, in one
      operation, moving the cursor, redoing b and moving the cursor again. */
  function ClobberingRun(a: string, b: string): seq<Action> {
    [Typed(0, a, 1), Typed(|a|, b, 2), Undo(Cursor(0)), Click(0, 3), Redo(Cursor(0)), Click(|a|, 3)]
  }

  function TypedA(a: string): DocState {
    Doc(a, |a|, [At(0), UnA(a), At(|a|)], [], Some(1), Some(1), 2, 2, 1)
  }

  function TypedAB(a: string, b: string): DocState {
    Doc(a + b, |a| + |b|, [At(0), UnA(a), At(|a|), UnB(a, b), At(|a| + |b|)], [], Some(2), Some(2), 3, 3, 1)
  }

  function UndoneB(a: string, b: string): DocState {
    Doc(a, |a|, [At(0), UnA(a), At(|a|)], [At(|a| + |b|), ReB(a, b)], Some(2), Some(2), 2, 3, 1)
  }

  function Clicked(a: string, b: string): DocState {
    Doc(a, 0, [At(0), UnA(a), At(|a|), At(0)], [At(|a| + |b|), ReB(a, b)], Some(2), Some(3), 2, 3, 1)
  }

  function RedoneB(a: string, b: string): DocState {
    Doc(a + b, |a| + |b|, [At(0), UnA(a), At(|a|), At(0), UnB(a, b)], [At(|a| + |b|)], Some(2), Some(3), 3, 3, 1)
  }

  function Clobbered(a: string, b: string): DocState {
    Doc(a + b, |a|, [At(0), UnA(a), At(|a|), At(0), At(|a|)], [], Some(2), Some(3), 3, 3, 1)
  }

  lemma TypesA(a: string)
    requires a != ""
    ensures Steps(NewDoc(EDITOR, [""], Cursor(0)), Typed(0, a, 1), TypedA(a))
  {
    TypeStep("", a, 0, [], 1, None, 1, 1);
    assert "" + a == a;
    assert [At(0)] + [UnA(a)] + [At(|a|)] == [At(0), UnA(a), At(|a|)];
  }

  lemma TypesB(a: string, b: string)
    requires a != "" && b != ""
    ensures Steps(TypedA(a), Typed(|a|, b, 2), TypedAB(a, b))
  {
    TypeStep(a, b, |a|, TypedA(a).hist.done, 2, Some(1), 2, 1);
    assert TypedA(a).hist.done + [UnB(a, b)] + [At(|a| + |b|)] == TypedAB(a, b).hist.done;
  }

  lemma PopOne(below: seq<Event>, ch: nat, dest: seq<Event>, sel: Selection)
    requires below != [] && Last(below).ChangeEvent?
    ensures HasChange(below + [At(ch)])
    ensures PopSelections(below + [At(ch)], dest, sel) == (below, PushSelection(Cursor(ch), dest), Cursor(ch))
    ensures StripSelections(below + [At(ch)]) == below
  {
    assert Init(below + [At(ch)]) == below;
  }

  /** Undo with one selection on top of the event and nothing to redo yet. */
  lemma UndoStep(s: DocState, rest: seq<Event>, top: nat, change: Change, g: nat, inv: Change, s': DocState)
    requires Wf(s.hist)
    requires s.hist.done == rest + [ChangeEvent([change], g)] + [At(top)] && s.hist.undone == []
    requires rest != [] && Last(rest).SelectionEvent?
    requires ValidChange(s.lines, change) && inv == Inverse(s.lines, change)
    requires s' == DocState(Splice(s.lines, change), Last(rest).sel,
                            s.hist.(done := rest, undone := [At(top)] + [ChangeEvent([inv], s.hist.generation)],
                                    lastOrigin := None, lastSelOrigin := None, generation := g),
                            s.cleanGeneration)
    ensures Steps(s, Undo(Cursor(0)), s')
  {
    PopOne(rest + [ChangeEvent([change], g)], top, [], s.sel);
    assert PushSelection(Cursor(top), []) == [At(top)];
    HistoryStep(s, true, Cursor(0), change, g, rest, inv);
  }

  lemma UndoesB(a: string, b: string)
    requires a != "" && b != ""
    ensures Steps(TypedAB(a, b), Undo(Cursor(0)), UndoneB(a, b))
  {
    var s := TypedAB(a, b);
    EraseSplice(a + b, |a|, |a| + |b|);
    assert (a + b)[..|a|] + (a + b)[|a| + |b|..] == a && (a + b)[|a|..|a| + |b|] == b;
    var rest := [At(0), UnA(a), At(|a|)];
    assert s.hist.done == rest + [UnB(a, b)] + [At(|a| + |b|)];
    assert UndoneB(a, b).hist.undone == [At(|a| + |b|)] + [ReB(a, b)];
    UndoStep(s, rest, |a| + |b|, UnB(a, b).changes[0], 2, ReB(a, b).changes[0], UndoneB(a, b));
  }

  lemma RedoesB(a: string, b: string)
    requires a != "" && b != ""
    ensures Steps(Clicked(a, b), Redo(Cursor(0)), RedoneB(a, b))
  {
    var s := Clicked(a, b);
    TypeSplice(a, b);
    assert [At(|a| + |b|)] + [ReB(a, b)] == s.hist.undone;
    HistoryStep(s, false, Cursor(0), ReB(a, b).changes[0], 3, [At(|a| + |b|)], UnB(a, b).changes[0]);
    assert s.hist.done + [UnB(a, b)] == RedoneB(a, b).hist.done;
  }

  lemma Clicks(a: string, b: string)
    requires a != "" && b != ""
    ensures Steps(UndoneB(a, b), Click(0, 3), Clicked(a, b))
  {
    assert StripSelections(UndoneB(a, b).hist.undone) == UndoneB(a, b).hist.undone;
    assert UndoneB(a, b).hist.done + [At(0)] == Clicked(a, b).hist.done;
  }

  lemma ClicksAgain(a: string, b: string)
    requires a != "" && b != ""
    ensures Steps(RedoneB(a, b), Click(|a|, 3), Clobbered(a, b))
    ensures Clobbers(EDITOR, RedoneB(a, b), Click(|a|, 3))
  {
    var top := At(|a| + |b|);
    assert Init(RedoneB(a, b).hist.done) + [At(|a|)] == Clobbered(a, b).hist.done;
    assert Init([top]) == [];
    assert StripSelections([top]) == [];
  }

  lemma RunTypesA(a: string, b: string)
    requires a != "" && b != ""
    ensures Run(EDITOR, NewDoc(EDITOR, [""], Cursor(0)), ClobberingRun(a, b)[..1]) == Some(TypedA(a))
  {
    var run := ClobberingRun(a, b);
    TypesA(a);
    RunOneMore(NewDoc(EDITOR, [""], Cursor(0)), run[..0], NewDoc(EDITOR, [""], Cursor(0)), run[0], TypedA(a));
    assert run[..1] == run[..0] + [run[0]];
  }

  lemma RunTypesB(a: string, b: string)
    requires a != "" && b != ""
    ensures Run(EDITOR, NewDoc(EDITOR, [""], Cursor(0)), ClobberingRun(a, b)[..2]) == Some(TypedAB(a, b))
  {
    hide Run, Step;
    var run := ClobberingRun(a, b);
    RunTypesA(a, b);
    TypesB(a, b);
    RunOneMore(NewDoc(EDITOR, [""], Cursor(0)), run[..1], TypedA(a), run[1], TypedAB(a, b));
    assert run[..2] == run[..1] + [run[1]];
  }

  lemma RunUndoesB(a: string, b: string)
    requires a != "" && b != ""
    ensures Run(EDITOR, NewDoc(EDITOR, [""], Cursor(0)), ClobberingRun(a, b)[..3]) == Some(UndoneB(a, b))
  {
    hide Run, Step;
    var run := ClobberingRun(a, b);
    RunTypesB(a, b);
    UndoesB(a, b);
    RunOneMore(NewDoc(EDITOR, [""], Cursor(0)), run[..2], TypedAB(a, b), run[2], UndoneB(a, b));
    assert run[..3] == run[..2] + [run[2]];
  }

  lemma RunClicks(a: string, b: string)
    requires a != "" && b != ""
    ensures Run(EDITOR, NewDoc(EDITOR, [""], Cursor(0)), ClobberingRun(a, b)[..4]) == Some(Clicked(a, b))
  {
    hide Run, Step;
    var run := ClobberingRun(a, b);
    RunUndoesB(a, b);
    Clicks(a, b);
    RunOneMore(NewDoc(EDITOR, [""], Cursor(0)), run[..3], UndoneB(a, b), run[3], Clicked(a, b));
    assert run[..4] == run[..3] + [run[3]];
  }

  lemma RunRedoesB(a: string, b: string)
    requires a != "" && b != ""
    ensures Run(EDITOR, NewDoc(EDITOR, [""], Cursor(0)), ClobberingRun(a, b)[..5]) == Some(RedoneB(a, b))
  {
    hide Run, Step;
    var run := ClobberingRun(a, b);
    RunClicks(a, b);
    RedoesB(a, b);
    RunOneMore(NewDoc(EDITOR, [""], Cursor(0)), run[..4], Clicked(a, b), run[4], RedoneB(a, b));
    assert run[..5] == run[..4] + [run[4]];
  }

  lemma ClobberingRunEnds(a: string, b: string)
    requires a != "" && b != ""
    ensures Run(EDITOR, NewDoc(EDITOR, [""], Cursor(0)), ClobberingRun(a, b)) == Some(Clobbered(a, b))
  {
    hide Run, Step;
    var run := ClobberingRun(a, b);
    RunRedoesB(a, b);
    ClicksAgain(a, b);
    RunOneMore(NewDoc(EDITOR, [""], Cursor(0)), run[..5], RedoneB(a, b), run[5], Clobbered(a, b));
    assert run == run[..5] + [run[5]];
  }

  lemma ClobberedStack(a: string, b: string)
    ensures StripSelections(Clobbered(a, b).hist.done) == [At(0)] + [UnA(a)]
  {
    var below := [At(0)] + [UnA(a)];
    var done := Clobbered(a, b).hist.done;
    assert done == below + [At(|a|)] + [At(0)] + [At(|a|)];
    assert Init(done) == below + [At(|a|)] + [At(0)];
    assert Init(below + [At(|a|)] + [At(0)]) == below + [At(|a|)];
    PopOne(below, |a|, [], Cursor(0));
    assert StripSelections(done) == StripSelections(Init(done)) == StripSelections(below + [At(|a|)]);
  }

  /** After that run, undo turns a + b into b, a text the document never had, at the
      generation of the empty document, which isClean takes for the clean one. */
  lemma ClobberedUndoIsWrong(a: string, b: string)
    requires a != "" && b != ""
    ensures Run(EDITOR, NewDoc(EDITOR, [""], Cursor(0)), ClobberingRun(a, b)) == Some(Clobbered(a, b))
    ensures CanApply(Clobbered(a, b), true)
    ensures var s0, u := NewDoc(EDITOR, [""], Cursor(0)), FromHistory(Clobbered(a, b), true, Cursor(0));
            && u.hist.generation == s0.hist.generation && IsClean(u) && IsClean(s0)
            && s0.lines == [""] && u.lines == [b]
  {
    ClobberingRunEnds(a, b);
    EraseSplice(a + b, 0, |a|);
    assert (a + b)[..0] + (a + b)[|a|..] == b;
    ClobberedStack(a, b);
    HistoryStep(Clobbered(a, b), true, Cursor(0), UnA(a).changes[0], 1, [At(0)], Inverse([a + b], UnA(a).changes[0]));
  }

  /** A selection leaves the lists of change events as they are if and only if it does
      not overwrite one. */
  lemma SelectKeepsEntriesIff(settings: Settings, s: DocState, action: Action)
    requires Wf(s.hist) && action.Select?
    ensures CoreOf(Step(settings, s, action).value) == CoreOf(s) <==> !Clobbers(settings, s, action)
  {
    var h := s.hist;
    EntriesOfPush(action.sel, h.done);
    EntriesOfStrip(h.undone);
    StripKeepsEntries(h.undone);
    if Overwrites(settings, h, action.sel, action.opId, action.selOrigin, action.time) {
      var below := Init(h.done);
      assert Init(below + [SelectionEvent(action.sel)]) == below;
      assert Entries(below + [SelectionEvent(action.sel)]) == Entries(below);
      if Last(h.done).ChangeEvent? {
        assert |Entries(h.done)| == |Entries(below)| + 1;
      } else {
        assert Entries(h.done) == Entries(below);
      }
    }
  }

  lemma {:induction false} StripKeepsEntries(events: seq<Event>)
    ensures Entries(StripSelections(events)) == Entries(events)
    decreases |events|
  {
    if events != [] && Last(events).SelectionEvent? {
      StripKeepsEntries(Init(events));
      assert Entries(events) == Entries(Init(events));
    }
  }

  // ----- a restart that relabels the text -----

  /** Typing a, marking it clean, taking it back, and restarting the history. */
  function RelabelingRun(a: string): seq<Action> {
    [Typed(0, a, 1), Mark, Undo(Cursor(0)), Clear]
  }

  function Marked(a: string): DocState {
    Doc(a, |a|, [At(0), UnA(a), At(|a|)], [], None, None, 2, 2, 2)
  }

  function Unmarked(a: string): DocState {
    Doc("", 0, [At(0)], [At(|a|), ChangeEvent([Change(Pos(0, 0), Pos(0, 0), [a])], 2)], None, None, 1, 2, 2)
  }

  function Cleared(): DocState {
    DocState([""], Cursor(0), NewHistory(2), 2)
  }

  lemma UndoesMarked(a: string)
    requires a != ""
    ensures Steps(Marked(a), Undo(Cursor(0)), Unmarked(a))
  {
    EraseSplice(a, 0, |a|);
    assert a[..0] + a[|a|..] == "" && a[0..|a|] == a;
    var inv := Change(Pos(0, 0), Pos(0, 0), [a]);
    assert Marked(a).hist.done == [At(0)] + [UnA(a)] + [At(|a|)];
    assert Unmarked(a).hist.undone == [At(|a|)] + [ChangeEvent([inv], 2)];
    UndoStep(Marked(a), [At(0)], |a|, UnA(a).changes[0], 1, inv, Unmarked(a));
  }

  /** After that run isClean answers true for the empty text, although a was marked. */
  lemma RelabeledIsClean(a: string)
    requires a != ""
    ensures var s0, run := NewDoc(EDITOR, [""], Cursor(0)), RelabelingRun(a);
            && run[1] == Mark && Run(EDITOR, s0, run[..2]) == Some(Marked(a)) && Marked(a).lines == [a]
            && Run(EDITOR, s0, run) == Some(Cleared()) && Cleared().lines == [""]
            && IsClean(Cleared()) && Cleared().cleanGeneration == Marked(a).cleanGeneration
  {
    RunToMark(a);
    RunToCleared(a);
  }

  lemma ClearsUnmarked(a: string)
    ensures Steps(Unmarked(a), Clear, Cleared())
  {
  }

  lemma RunToCleared(a: string)
    requires a != ""
    ensures Run(EDITOR, NewDoc(EDITOR, [""], Cursor(0)), RelabelingRun(a)) == Some(Cleared())
  {
    hide Run, Step;
    var s0, run := NewDoc(EDITOR, [""], Cursor(0)), RelabelingRun(a);
    RunToUnmarked(a);
    ClearsUnmarked(a);
    RunOneMore(s0, run[..3], Unmarked(a), run[3], Cleared());
    assert run == run[..3] + [run[3]];
  }

  lemma RunToUnmarked(a: string)
    requires a != ""
    ensures Run(EDITOR, NewDoc(EDITOR, [""], Cursor(0)), RelabelingRun(a)[..3]) == Some(Unmarked(a))
  {
    hide Run, Step;
    var s0, run := NewDoc(EDITOR, [""], Cursor(0)), RelabelingRun(a);
    RunToMark(a);
    UndoesMarked(a);
    RunOneMore(s0, run[..2], Marked(a), run[2], Unmarked(a));
    assert run[..3] == run[..2] + [run[2]];
  }

  lemma RunToMark(a: string)
    requires a != ""
    ensures Run(EDITOR, NewDoc(EDITOR, [""], Cursor(0)), RelabelingRun(a)[..2]) == Some(Marked(a))
  {
    var s0, run := NewDoc(EDITOR, [""], Cursor(0)), RelabelingRun(a);
    TypesA(a);
    RunOneMore(s0, [], s0, run[0], TypedA(a));
    assert run[..1] == [] + [run[0]];
    RunOneMore(s0, run[..1], TypedA(a), run[1], Marked(a));
    assert run[..2] == run[..1] + [run[1]];
  }

  /** Every part of the run with the generation of a state has its text. */
  ghost predicate TextIsKnownBy(settings: Settings, s0: DocState, actions: seq<Action>, s: DocState)
    requires Wf(s0.hist)
  {
    forall i, lines :: HadText(settings, s0, actions, i, lines, s.hist.generation) ==> lines == s.lines
  }

  /** A restart after a sound run keeps one text per generation if and only if the current
      text is the newest, or the run had it at the newest generation. */
  lemma ClearAfterRunIff(settings: Settings, lines: Lines, sel: Selection, actions: seq<Action>)
    requires SoundRun(settings, NewDoc(settings, lines, sel), actions)
    ensures var s0 := NewDoc(settings, lines, sel);
            && Run(settings, s0, actions).Some?
            && var s := Run(settings, s0, actions).value;
               TextIsKnownBy(settings, s0, actions, ClearHistory(s))
               <==> s.hist.generation == s.hist.maxGeneration
                    || exists i :: HadText(settings, s0, actions, i, s.lines, s.hist.maxGeneration)
  {
    var s0 := NewDoc(settings, lines, sel);
    RunIsTruthful(settings, lines, sel, actions);
    var s, newest := Run(settings, s0, actions).value, Run(settings, s0, actions).value.hist.maxGeneration;
    var k := LedgerWasReached(settings, lines, sel, actions, newest);
    var text := Ledger(settings, s0, actions)[newest];
    assert s.hist.generation == newest ==> text == s.lines;
    forall i, other | HadText(settings, s0, actions, i, other, newest)
      ensures other == text
    {
      if i <= k {
        SameGenerationSameText(settings, lines, sel, actions, i, k);
      } else {
        SameGenerationSameText(settings, lines, sel, actions, k, i);
      }
    }
  }
}
