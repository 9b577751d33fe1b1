/** Taking back a list of edits, the last one first, in any edit language whose
    entries can be inverted. The history's proofs need no more than this. */
module CmReverting {
  import opened Wrappers

  datatype Language<!D, !C> = Language(valid: (D, C) -> bool, apply: (D, C) -> D, inverse: (D, C) -> C)

  /** The inverse of an edit undoes it, and is undone by the edit itself. */
  ghost predicate Invertible<D(!new), C(!new)>(l: Language<D, C>) {
    forall d, c :: l.valid(d, c) ==> InverseWorks(l, d, c)
  }

  ghost predicate InverseWorks<D, C>(l: Language<D, C>, d: D, c: C) {
    var d', inv := l.apply(d, c), l.inverse(d, c);
    l.valid(d', inv) && l.apply(d', inv) == d && l.inverse(d', inv) == c
  }

  /** Whether the edits can be applied, the last one first. */
  predicate Revertible<D, C>(l: Language<D, C>, d: D, edits: seq<C>)
    decreases |edits|
  {
    edits == [] || (l.valid(d, Last(edits)) && Revertible(l, l.apply(d, Last(edits)), Init(edits)))
  }

  function Revert<D, C>(l: Language<D, C>, d: D, edits: seq<C>): D
    decreases |edits|
  {
    if edits == [] then d else Revert(l, l.apply(d, Last(edits)), Init(edits))
  }

  /** The inverses, in the order they are collected while reverting. */
  function Anti<D, C>(l: Language<D, C>, d: D, edits: seq<C>): (r: seq<C>)
    ensures |r| == |edits|
    decreases |edits|
  {
    if edits == [] then [] else [l.inverse(d, Last(edits))] + Anti(l, l.apply(d, Last(edits)), Init(edits))
  }

  lemma Snoc<D, C>(l: Language<D, C>, d: D, init: seq<C>, c: C)
    ensures Revertible(l, d, init + [c]) <==> l.valid(d, c) && Revertible(l, l.apply(d, c), init)
    ensures Revert(l, d, init + [c]) == Revert(l, l.apply(d, c), init)
    ensures Anti(l, d, init + [c]) == [l.inverse(d, c)] + Anti(l, l.apply(d, c), init)
  {
    assert Last(init + [c]) == c && Init(init + [c]) == init;
  }

  lemma {:induction false} Concat<D, C>(l: Language<D, C>, d: D, a: seq<C>, b: seq<C>)
    ensures Revertible(l, d, a + b) <==> Revertible(l, d, b) && Revertible(l, Revert(l, d, b), a)
    ensures Revert(l, d, a + b) == Revert(l, Revert(l, d, b), a)
    ensures Anti(l, d, a + b) == Anti(l, d, b) + Anti(l, Revert(l, d, b), a)
    decreases |b|
  {
    if b == [] {
      assert a + b == a;
      assert Anti(l, d, b) + Anti(l, d, a) == Anti(l, d, a);
    } else {
      var init, c := Init(b), Last(b);
      assert b == init + [c];
      Concat(l, l.apply(d, c), a, init);
      Snoc(l, d, init, c);
      ConcatAssociates(a, init, [c]);
      Snoc(l, d, a + init, c);
      var d' := l.apply(d, c);
      ConcatAssociates([l.inverse(d, c)], Anti(l, d', init), Anti(l, Revert(l, d', init), a));
    }
  }

  /** Two languages with the same edits, the first with fewer places for them. */
  ghost predicate Within<D(!new), C(!new)>(l: Language<D, C>, m: Language<D, C>) {
    l.apply == m.apply && l.inverse == m.inverse && forall d, c :: l.valid(d, c) ==> m.valid(d, c)
  }

  lemma {:induction false} SameReverting<D(!new), C(!new)>(l: Language<D, C>, m: Language<D, C>, d: D, edits: seq<C>)
    requires Within(l, m)
    ensures Revertible(l, d, edits) ==> Revertible(m, d, edits)
    ensures Revert(l, d, edits) == Revert(m, d, edits) && Anti(l, d, edits) == Anti(m, d, edits)
    decreases |edits|
  {
    if edits != [] {
      SameReverting(l, m, l.apply(d, Last(edits)), Init(edits));
    }
  }

  lemma One<D, C>(l: Language<D, C>, d: D, c: C)
    ensures Revertible(l, d, [c]) <==> l.valid(d, c)
    ensures Revert(l, d, [c]) == l.apply(d, c)
    ensures Anti(l, d, [c]) == [l.inverse(d, c)]
  {
    Snoc(l, d, [], c);
    assert [] + [c] == [c];
  }

  /** The entries collected while reverting revert the reverting, and collecting
      once more gives the first entries again. */
  lemma {:induction false} AntiReverts<D(!new), C(!new)>(l: Language<D, C>, d: D, edits: seq<C>)
    requires Invertible(l) && Revertible(l, d, edits)
    ensures var before, anti := Revert(l, d, edits), Anti(l, d, edits);
            && Revertible(l, before, anti)
            && Revert(l, before, anti) == d
            && Anti(l, before, anti) == edits
    decreases |edits|
  {
    if edits != [] {
      var init, c := Init(edits), Last(edits);
      assert edits == init + [c];
      Snoc(l, d, init, c);
      var d', inv := l.apply(d, c), l.inverse(d, c);
      AntiReverts(l, d', init);
      assert InverseWorks(l, d, c);
      One(l, d', inv);
      Concat(l, Revert(l, d', init), [inv], Anti(l, d', init));
    }
  }
}
