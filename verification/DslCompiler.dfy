/** The two stages preserve meaning: every admissible spelling of a tree is
    translated to the tree's postorder, and running the postfix machine on it
    yields the tree's value, or fails exactly as the tree does. */
module DslCompiler {
  import opened Wrappers
  import opened DslTokens
  import opened DslShuntingYard
  import opened DslSyntax
  import opened DslEvaluator

  // ----- stage one: infix to postfix -----

  /** The operators a phrase leaves on the stack, bottom first. */
  function Waiting(p: Phrase): seq<Token> {
    match p
    case Atom(_) | Group(_) => []
    case Infix(op, l, r) => [Oper(op)] + Waiting(r)
  }

  /** What a phrase has sent to the output when its last token is read. */
  function Emitted(p: Phrase): seq<Token> {
    match p
    case Atom(leaf) => Postorder(leaf)
    case Group(inner) => Emitted(inner) + Reverse(Waiting(inner))
    case Infix(op, l, r) => Emitted(l) + Reverse(Waiting(l)) + Emitted(r)
  }

  lemma {:induction false} WaitingBindTightly(p: Phrase)
    requires WellFormed(p)
    ensures forall t :: t in Waiting(p) ==> t.Oper? && TokenPriority(t) >= Level(p)
  {
    PriorityIsTier();
    if p.Infix? {
      WaitingBindTightly(p.right);
    }
  }

  lemma {:induction false} EmittedThenWaiting(p: Phrase)
    ensures Emitted(p) + Reverse(Waiting(p)) == Postorder(Tree(p))
  {
    match p
    case Atom(leaf) =>
      assert Reverse(Waiting(p)) == [];
    case Group(inner) =>
      EmittedThenWaiting(inner);
      assert Reverse(Waiting(p)) == [];
    case Infix(op, l, r) =>
      EmittedThenWaiting(l);
      EmittedThenWaiting(r);
      ReverseConcat([Oper(op)], Waiting(r));
      assert Reverse([Oper(op)]) == [Oper(op)];
      assert Reverse(Waiting(p)) == Reverse(Waiting(r)) + [Oper(op)];
  }

  /** The operator-stack invariant: on top of a stack that binds more loosely than
      the phrase, reading the phrase adds exactly its waiting operators. */
  lemma {:induction false} ScanPhrase(p: Phrase, stack: seq<Token>, output: seq<Token>)
    requires WellFormed(p)
    requires stack == [] || TokenPriority(Last(stack)) < Level(p)
    ensures Scan(Yard(stack, output), Spell(p)) == Some(Yard(stack + Waiting(p), output + Emitted(p)))
    decreases p, 0
  {
    PriorityIsTier();
    match p
    case Atom(leaf) =>
      ScanAtom(leaf, stack, output);
    case Group(inner) =>
      ScanGroup(inner, stack, output);
      assert stack + Waiting(p) == stack;
    case Infix(op, l, r) =>
      ScanPhrase(l, stack, output);
      ScanPhrase(r, stack + [Oper(op)], output + Emitted(l) + Reverse(Waiting(l)));
      ScanInfix(op, l, r, stack, output);
  }

  lemma ScanAtom(leaf: Expr, stack: seq<Token>, output: seq<Token>)
    requires !leaf.Binary?
    ensures Scan(Yard(stack, output), Spell(Atom(leaf)))
         == Some(Yard(stack + Waiting(Atom(leaf)), output + Emitted(Atom(leaf))))
  {
    ScanOne(Yard(stack, output), Postorder(leaf)[0]);
    assert stack + [] == stack;
  }

  lemma ScanInfix(op: Operator, l: Phrase, r: Phrase, stack: seq<Token>, output: seq<Token>)
    requires WellFormed(Infix(op, l, r))
    requires stack == [] || TokenPriority(Last(stack)) < Priority(op)
    requires Scan(Yard(stack, output), Spell(l)) == Some(Yard(stack + Waiting(l), output + Emitted(l)))
    requires var out' := output + Emitted(l) + Reverse(Waiting(l));
             Scan(Yard(stack + [Oper(op)], out'), Spell(r))
             == Some(Yard(stack + [Oper(op)] + Waiting(r), out' + Emitted(r)))
    ensures Scan(Yard(stack, output), Spell(Infix(op, l, r)))
         == Some(Yard(stack + Waiting(Infix(op, l, r)), output + Emitted(Infix(op, l, r))))
  {
    ScanOperator(op, l, stack, output + Emitted(l));
    var out' := output + Emitted(l) + Reverse(Waiting(l));
    ScanThree(Yard(stack, output), Spell(l),
              Yard(stack + Waiting(l), output + Emitted(l)), [Oper(op)],
              Yard(stack + [Oper(op)], out'), Spell(r));
    ConcatAssociates(stack, [Oper(op)], Waiting(r));
    ConcatAssociates(output + Emitted(l), Reverse(Waiting(l)), Emitted(r));
    ConcatAssociates(output, Emitted(l), Reverse(Waiting(l)) + Emitted(r));
    ConcatAssociates(Emitted(l), Reverse(Waiting(l)), Emitted(r));
  }

  lemma ScanThree(y0: Yard, a: seq<Token>, y1: Yard, b: seq<Token>, y2: Yard, c: seq<Token>)
    requires Scan(y0, a) == Some(y1) && Scan(y1, b) == Some(y2)
    ensures Scan(y0, a + b + c) == Scan(y2, c)
  {
    ScanConcat(y0, a, b);
    ScanConcat(y0, a + b, c);
  }

  lemma ScanOne(y: Yard, tok: Token)
    ensures Scan(y, [tok]) == Shift(y, tok)
  {
    match Shift(y, tok)
    case None =>
    case Some(y') => assert Scan(y', []) == Some(y');
  }

  lemma ScanOperator(op: Operator, l: Phrase, stack: seq<Token>, output: seq<Token>)
    requires WellFormed(l) && Level(l) >= Priority(op)
    requires stack == [] || TokenPriority(Last(stack)) < Priority(op)
    ensures Scan(Yard(stack + Waiting(l), output), [Oper(op)])
         == Some(Yard(stack + [Oper(op)], output + Reverse(Waiting(l))))
  {
    WaitingBindTightly(l);
    PopOperatorsStops(stack, Waiting(l), output, Priority(op));
    ScanOne(Yard(stack + Waiting(l), output), Oper(op));
  }

  lemma {:induction false} ScanGroup(inner: Phrase, stack: seq<Token>, output: seq<Token>)
    requires WellFormed(inner)
    ensures Scan(Yard(stack, output), Spell(Group(inner)))
         == Some(Yard(stack, output + Emitted(Group(inner))))
    decreases inner, 1
  {
    var unfilled := Yard(stack + [LParen], output);
    var filled := Yard(stack + [LParen] + Waiting(inner), output + Emitted(inner));
    ScanOne(Yard(stack, output), LParen);
    ScanPhrase(inner, stack + [LParen], output);
    ScanRParen(stack, inner, output + Emitted(inner));
    ScanThree(Yard(stack, output), [LParen], unfilled, Spell(inner), filled, [RParen]);
    ConcatAssociates(output, Emitted(inner), Reverse(Waiting(inner)));
  }

  lemma ScanRParen(stack: seq<Token>, inner: Phrase, output: seq<Token>)
    requires WellFormed(inner)
    ensures Scan(Yard(stack + [LParen] + Waiting(inner), output), [RParen])
         == Some(Yard(stack, output + Reverse(Waiting(inner))))
  {
    WaitingBindTightly(inner);
    PopToParenFinds(stack, Waiting(inner), output);
    ScanOne(Yard(stack + [LParen] + Waiting(inner), output), RParen);
  }

  lemma {:induction false} ScanIgnoresOthers(y: Yard, tokens: seq<Token>)
    ensures Scan(y, tokens) == Scan(y, Significant(tokens))
    decreases |tokens|
  {
    if tokens != [] {
      var rest := Significant(tokens[1..]);
      match Shift(y, tokens[0]) {
        case None =>
        case Some(y') => ScanIgnoresOthers(y', tokens[1..]);
      }
      if tokens[0] == Other {
        assert Significant(tokens) == rest;
      } else {
        assert Significant(tokens) == [tokens[0]] + rest;
        assert Significant(tokens)[1..] == rest;
      }
    }
  }

  /** Every admissible spelling of a tree, with meaningless tokens anywhere in it,
      is translated to exactly the tree's postorder. */
  lemma TranslationIsPostorder(tokens: seq<Token>, p: Phrase)
    requires WellFormed(p) && Significant(tokens) == Spell(p)
    ensures Rpn(tokens) == Some(Postorder(Tree(p)))
  {
    ScanIgnoresOthers(EMPTY_YARD, tokens);
    ScanPhrase(p, [], []);
    EmittedThenWaiting(p);
    assert [] + Waiting(p) == Waiting(p) && [] + Emitted(p) == Emitted(p);
  }

  // ----- stage two: the postfix machine -----

  function MeaningStatus(m: Meaning): Status {
    match m
    case Val(_) => Finished
    case Unbound(n) => UnknownIdentifier(n)
    case DivideByZero => Panicked
  }

  lemma {:induction false} RunConcat(stack: seq<Int64>, a: seq<Token>, b: seq<Token>, env: map<string, Int64>)
    ensures Run(stack, a + b, env)
         == var m := Run(stack, a, env); if m.status.Finished? then Run(m.stack, b, env) else m
    decreases |a|
  {
    if a == [] {
      assert a + b == b;
    } else {
      assert (a + b)[1..] == a[1..] + b;
      var m := StepToken(stack, a[0], env);
      if m.status.Finished? {
        RunConcat(m.stack, a[1..], b, env);
      }
    }
  }

  lemma RunOne(stack: seq<Int64>, tok: Token, env: map<string, Int64>)
    ensures Run(stack, [tok], env) == StepToken(stack, tok, env)
  {
    var m := StepToken(stack, tok, env);
    assert Run(m.stack, [], env) == Machine(m.stack, Finished);
  }

  /** Running a tree's postorder pushes its value, or stops with its failure. */
  lemma {:induction false} RunPostorder(e: Expr, stack: seq<Int64>, env: map<string, Int64>)
    ensures var m := Run(stack, Postorder(e), env);
            && m.status == MeaningStatus(Mean(e, env))
            && (Mean(e, env).Val? ==> m.stack == stack + [Mean(e, env).value])
  {
    match e
    case Number(v) => RunOne(stack, Int(v), env);
    case Name(n) => RunOne(stack, Ident(n), env);
    case Binary(op, l, r) =>
      RunPostorder(l, stack, env);
      RunConcat(stack, Postorder(l), Postorder(r), env);
      RunConcat(stack, Postorder(l) + Postorder(r), [Oper(op)], env);
      if Mean(l, env).Val? {
        var stack1 := stack + [Mean(l, env).value];
        RunPostorder(r, stack1, env);
        if Mean(r, env).Val? {
          var stack2 := stack1 + [Mean(r, env).value];
          RunOne(stack2, Oper(op), env);
          assert stack2[..|stack2| - 2] == stack;
        }
      }
  }

  // ----- both stages -----

  /** The compiler preserves meaning, failures included: an expression is worth one
      value on the stack exactly when the tree has that value, and otherwise the
      run ends with the first failure of the tree. */
  lemma CompilerPreservesMeaning(tokens: seq<Token>, p: Phrase, env: map<string, Int64>)
    requires WellFormed(p) && Significant(tokens) == Spell(p)
    ensures Rpn(tokens).Some?
    ensures var m := Run([], Rpn(tokens).value, env);
            && m.status == MeaningStatus(Mean(Tree(p), env))
            && forall v :: m == Machine([v], Finished) <==> Mean(Tree(p), env) == Val(v)
  {
    TranslationIsPostorder(tokens, p);
    RunPostorder(Tree(p), [], env);
    var m := Run([], Rpn(tokens).value, env);
    forall v ensures m == Machine([v], Finished) <==> Mean(Tree(p), env) == Val(v) {
      if Mean(Tree(p), env).Val? {
        assert m.stack == [Mean(Tree(p), env).value];
        assert [v][0] == v;
      }
    }
  }

  /** The whole filter, as events_filter.go strings it together. */
  method EvaluateFilter(tokens: seq<Token>, env: map<string, Int64>, ghost p: Phrase)
    returns (result: Status, values: seq<Int64>)
    requires WellFormed(p) && Significant(tokens) == Spell(p)
    ensures result == MeaningStatus(Mean(Tree(p), env))
    ensures Mean(Tree(p), env).Val? ==> values == [Mean(Tree(p), env).value]
  {
    CompilerPreservesMeaning(tokens, p, env);
    TranslationIsPostorder(tokens, p);
    RunPostorder(Tree(p), [], env);
    var postfix := ToRPN(tokens);
    var stack, status := Evaluate(postfix.value, env);
    result, values := status, stack.stack;
  }
}
