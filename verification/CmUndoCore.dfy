/** Undo and redo without selections: two stacks of entries over an invertible edit
    language, and why a series of redos retraces a series of undos. */
module CmUndoCore {
  import opened Wrappers
  import opened CmReverting

  datatype Entry<C> = Entry(edits: seq<C>, generation: nat)

  datatype Core<D, C> = Core(text: D, done: seq<Entry<C>>, undone: seq<Entry<C>>, generation: nat)

  /** Takes the top entry of one stack, and leaves its reverse on the other. */
  function Move<D, C>(l: Language<D, C>, c: Core<D, C>, undo: bool): Core<D, C> {
    var source, dest := if undo then c.done else c.undone, if undo then c.undone else c.done;
    if source == [] then c
    else
      var entry := Last(source);
      var dest' := dest + [Entry(Anti(l, c.text, entry.edits), c.generation)];
      Core(Revert(l, c.text, entry.edits),
           if undo then Init(source) else dest',
           if undo then dest' else Init(source),
           entry.generation)
  }

  /** Every entry of a stack can be applied after the ones above it. */
  predicate Applicable<D, C>(l: Language<D, C>, text: D, stack: seq<Entry<C>>)
    decreases |stack|
  {
    stack == [] ||
    (&& Revertible(l, text, Last(stack).edits)
     && Applicable(l, Revert(l, text, Last(stack).edits), Init(stack)))
  }

  lemma UndoThenRedo<D(!new), C(!new)>(l: Language<D, C>, c: Core<D, C>)
    requires Invertible(l) && c.done != [] && Revertible(l, c.text, Last(c.done).edits)
    ensures Move(l, Move(l, c, true), false) == c
  {
    var u := Move(l, c, true);
    AntiReverts(l, c.text, Last(c.done).edits);
    assert Init(u.undone) == c.undone;
    assert Init(c.done) + [Last(c.done)] == c.done;
  }

  function Moves<D, C>(l: Language<D, C>, c: Core<D, C>, undo: bool, n: nat): Core<D, C>
    decreases n
  {
    if n == 0 then c else Move(l, Moves(l, c, undo, n - 1), undo)
  }

  lemma {:induction false} MovesFirst<D, C>(l: Language<D, C>, c: Core<D, C>, undo: bool, n: nat)
    requires n > 0
    ensures Moves(l, c, undo, n) == Moves(l, Move(l, c, undo), undo, n - 1)
    decreases n
  {
    if n > 1 {
      MovesFirst(l, c, undo, n - 1);
    } else {
      assert Moves(l, c, undo, 0) == c;
    }
  }

  /** n undos and then n redos give back the text, the generation, and both stacks,
      entry for entry. */
  lemma {:induction false} UndosThenRedos<D(!new), C(!new)>(l: Language<D, C>, c: Core<D, C>, n: nat)
    requires Invertible(l) && Applicable(l, c.text, c.done) && n <= |c.done|
    ensures Moves(l, Moves(l, c, true, n), false, n) == c
    decreases n
  {
    if n > 0 {
      MovesFirst(l, c, true, n);
      UndosThenRedos(l, Move(l, c, true), n - 1);
      UndoThenRedo(l, c);
    }
  }
}
