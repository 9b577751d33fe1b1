/** Which token lists the postfix machine accepts, and with what result: exactly
    the postorders of forests, one stack entry for every tree. */
module DslForest {
  import opened Wrappers
  import opened DslTokens
  import opened DslSyntax
  import opened DslEvaluator
  import opened DslCompiler

  function PostorderAll(forest: seq<Expr>): seq<Token> {
    if forest == [] then [] else PostorderAll(forest[..|forest| - 1]) + Postorder(forest[|forest| - 1])
  }

  predicate AllDefined(forest: seq<Expr>, env: map<string, Int64>) {
    forall e :: e in forest ==> Mean(e, env).Val?
  }

  function Values(forest: seq<Expr>, env: map<string, Int64>): (vs: seq<Int64>)
    requires AllDefined(forest, env)
    ensures |vs| == |forest|
  {
    seq(|forest|, i requires 0 <= i < |forest| => Mean(forest[i], env).value)
  }

  function IsOperator(t: Token): bool {
    t.Oper?
  }

  function IsOperand(t: Token): bool {
    t.Int? || t.Ident?
  }

  function Operators(tokens: seq<Token>): seq<Token> {
    Filter(tokens, IsOperator)
  }

  function Operands(tokens: seq<Token>): seq<Token> {
    Filter(tokens, IsOperand)
  }

  // ----- the forest a token list denotes -----

  /** Reads one token onto a stack of trees; None when it cannot be read. */
  function Graft(forest: seq<Expr>, tok: Token): Option<seq<Expr>> {
    match tok
    case Int(v) => Some(forest + [Number(v)])
    case Ident(n) => Some(forest + [Name(n)])
    case Oper(op) =>
      if |forest| < 2 then None
      else
        var n := |forest|;
        Some(forest[..n - 2] + [Binary(op, forest[n - 2], forest[n - 1])])
    case LParen | RParen | Other => None
  }

  function Denotes(forest: seq<Expr>, expr: seq<Token>): Option<seq<Expr>>
    decreases |expr|
  {
    if expr == [] then Some(forest)
    else match Graft(forest, expr[0])
         case None => None
         case Some(forest') => Denotes(forest', expr[1..])
  }

  lemma GraftKeepsPostorder(forest: seq<Expr>, tok: Token)
    requires Graft(forest, tok).Some?
    ensures PostorderAll(Graft(forest, tok).value) == PostorderAll(forest) + [tok]
  {
    var after := Graft(forest, tok).value;
    var last := |after| - 1;
    if tok.Oper? {
      var n := |forest|;
      var init := forest[..n - 1];
      assert init[..n - 2] == forest[..n - 2] == after[..last];
      assert PostorderAll(init) == PostorderAll(forest[..n - 2]) + Postorder(forest[n - 2]);
      assert PostorderAll(forest)
          == PostorderAll(forest[..n - 2]) + Postorder(forest[n - 2]) + Postorder(forest[n - 1]);
    } else {
      assert after[..last] == forest;
    }
  }

  lemma {:induction false} DenotesSound(forest: seq<Expr>, expr: seq<Token>)
    requires Denotes(forest, expr).Some?
    ensures PostorderAll(Denotes(forest, expr).value) == PostorderAll(forest) + expr
    decreases |expr|
  {
    if expr == [] {
      assert PostorderAll(forest) + expr == PostorderAll(forest);
    } else {
      GraftKeepsPostorder(forest, expr[0]);
      var forest' := Graft(forest, expr[0]).value;
      DenotesSound(forest', expr[1..]);
      assert PostorderAll(forest) + [expr[0]] + expr[1..] == PostorderAll(forest) + expr;
    }
  }

  lemma {:induction false} DenotesConcat(forest: seq<Expr>, a: seq<Token>, b: seq<Token>)
    ensures Denotes(forest, a + b)
         == match Denotes(forest, a) { case None => None case Some(f) => Denotes(f, b) }
    decreases |a|
  {
    if a == [] {
      assert a + b == b;
    } else {
      assert (a + b)[1..] == a[1..] + b;
      match Graft(forest, a[0]) {
        case None =>
        case Some(f) => DenotesConcat(f, a[1..], b);
      }
    }
  }

  lemma {:induction false} DenotesTree(forest: seq<Expr>, e: Expr)
    ensures Denotes(forest, Postorder(e)) == Some(forest + [e])
    decreases e
  {
    match e
    case Number(v) => assert Denotes(forest + [e], []) == Some(forest + [e]);
    case Name(n) => assert Denotes(forest + [e], []) == Some(forest + [e]);
    case Binary(op, l, r) =>
      DenotesTree(forest, l);
      DenotesTree(forest + [l], r);
      DenotesConcat(forest, Postorder(l), Postorder(r));
      DenotesConcat(forest, Postorder(l) + Postorder(r), [Oper(op)]);
      var both := forest + [l] + [r];
      assert both[..|both| - 2] == forest;
      assert Denotes(forest + [e], []) == Some(forest + [e]);
  }

  lemma {:induction false} DenotesAll(forest: seq<Expr>)
    ensures Denotes([], PostorderAll(forest)) == Some(forest)
    decreases |forest|
  {
    if forest != [] {
      var init, last := forest[..|forest| - 1], forest[|forest| - 1];
      DenotesAll(init);
      DenotesConcat([], PostorderAll(init), Postorder(last));
      DenotesTree(init, last);
      assert init + [last] == forest;
    }
  }

  /** Reading is the inverse of writing: a list is the postorder of a forest
      exactly when reading it gives that forest, so no list has two forests. */
  lemma ForestIsUnique(expr: seq<Token>, forest: seq<Expr>)
    ensures expr == PostorderAll(forest) <==> Denotes([], expr) == Some(forest)
  {
    if expr == PostorderAll(forest) {
      DenotesAll(forest);
    }
    if Denotes([], expr) == Some(forest) {
      DenotesSound([], expr);
      assert PostorderAll([]) + expr == expr;
    }
  }

  /** An infix token list has one reading: two admissible spellings with the same
      tokens stand for the same tree. */
  lemma SpellingIsUnambiguous(p: Phrase, q: Phrase)
    requires WellFormed(p) && WellFormed(q)
    requires Spell(p) == Spell(q)
    ensures Tree(p) == Tree(q)
  {
    SpellingIsSignificant(p);
    TranslationIsPostorder(Spell(p), p);
    TranslationIsPostorder(Spell(q), q);
    DenotesTree([], Tree(p));
    DenotesTree([], Tree(q));
    assert ([] + [Tree(p)])[0] == ([] + [Tree(q)])[0];
  }

  lemma {:induction false} SpellingIsSignificant(p: Phrase)
    requires WellFormed(p)
    ensures Significant(Spell(p)) == Spell(p)
  {
    var keep := (t: Token) => t != Other;
    match p
    case Atom(leaf) =>
      FilterOne(Spell(p)[0], keep);
    case Group(inner) =>
      SpellingIsSignificant(inner);
      FilterOne(LParen, keep);
      FilterOne(RParen, keep);
      FilterConcat([LParen], Spell(inner), keep);
      FilterConcat([LParen] + Spell(inner), [RParen], keep);
    case Infix(op, l, r) =>
      SpellingIsSignificant(l);
      SpellingIsSignificant(r);
      FilterOne(Oper(op), keep);
      FilterConcat(Spell(l), [Oper(op)], keep);
      FilterConcat(Spell(l) + [Oper(op)], Spell(r), keep);
  }

  // ----- what the machine accepts -----

  lemma {:induction false} RunForest(forest: seq<Expr>, env: map<string, Int64>)
    requires AllDefined(forest, env)
    ensures Run([], PostorderAll(forest), env) == Machine(Values(forest, env), Finished)
    decreases |forest|
  {
    if forest == [] {
      assert Values(forest, env) == [];
    } else {
      var init, last := forest[..|forest| - 1], forest[|forest| - 1];
      RunForest(init, env);
      RunConcat([], PostorderAll(init), Postorder(last), env);
      RunPostorder(last, Values(init, env), env);
      assert Values(init, env) + [Mean(last, env).value] == Values(forest, env);
    }
  }

  /** While the machine goes on, its stack holds the values of the trees read. */
  lemma {:induction false} RunFollowsForest(forest: seq<Expr>, expr: seq<Token>, env: map<string, Int64>)
    requires AllDefined(forest, env)
    requires Run(Values(forest, env), expr, env).status.Finished?
    ensures Denotes(forest, expr).Some?
    ensures AllDefined(Denotes(forest, expr).value, env)
    ensures Run(Values(forest, env), expr, env).stack == Values(Denotes(forest, expr).value, env)
    decreases |expr|
  {
    if expr != [] {
      var m := StepToken(Values(forest, env), expr[0], env);
      StepFollowsGraft(forest, expr[0], env);
      RunFollowsForest(Graft(forest, expr[0]).value, expr[1..], env);
    }
  }

  lemma StepFollowsGraft(forest: seq<Expr>, tok: Token, env: map<string, Int64>)
    requires AllDefined(forest, env)
    requires StepToken(Values(forest, env), tok, env).status.Finished?
    ensures Graft(forest, tok).Some?
    ensures AllDefined(Graft(forest, tok).value, env)
    ensures StepToken(Values(forest, env), tok, env).stack == Values(Graft(forest, tok).value, env)
  {
    if tok.Oper? {
      var n := |forest|;
      var l, r := forest[n - 2], forest[n - 1];
      assert l in forest && r in forest;
      assert Values(forest, env)[n - 2] == Mean(l, env).value;
      assert Values(forest, env)[n - 1] == Mean(r, env).value;
      ValuesOfPrefix(forest, n - 2, env);
      ValuesOfPush(forest[..n - 2], Binary(tok.op, l, r), env);
    } else {
      ValuesOfPush(forest, if tok.Int? then Number(tok.value) else Name(tok.name), env);
    }
  }

  lemma ValuesOfPrefix(forest: seq<Expr>, n: nat, env: map<string, Int64>)
    requires n <= |forest| && AllDefined(forest, env)
    ensures AllDefined(forest[..n], env) && Values(forest[..n], env) == Values(forest, env)[..n]
  {
  }

  lemma ValuesOfPush(forest: seq<Expr>, e: Expr, env: map<string, Int64>)
    requires AllDefined(forest, env) && Mean(e, env).Val?
    ensures AllDefined(forest + [e], env)
    ensures Values(forest + [e], env) == Values(forest, env) + [Mean(e, env).value]
  {
  }

  /** `evaluate` succeeds exactly on the postorders of forests whose trees all have
      a value, and leaves these values on the stack, in order. */
  lemma EvaluateAcceptsForests(expr: seq<Token>, env: map<string, Int64>, values: seq<Int64>)
    ensures Run([], expr, env) == Machine(values, Finished)
       <==> exists forest :: expr == PostorderAll(forest) && AllDefined(forest, env) && values == Values(forest, env)
  {
    if Run([], expr, env) == Machine(values, Finished) {
      assert Values([], env) == [];
      RunFollowsForest([], expr, env);
      var forest := Denotes([], expr).value;
      ForestIsUnique(expr, forest);
    }
    if forest :| expr == PostorderAll(forest) && AllDefined(forest, env) && values == Values(forest, env) {
      RunForest(forest, env);
    }
  }

  lemma {:induction false} TreeBalance(e: Expr)
    ensures |Operands(Postorder(e))| == |Operators(Postorder(e))| + 1
  {
    FilterOne(Postorder(e)[|Postorder(e)| - 1], IsOperand);
    FilterOne(Postorder(e)[|Postorder(e)| - 1], IsOperator);
    if e.Binary? {
      var a, b, c := Postorder(e.left), Postorder(e.right), [Oper(e.op)];
      TreeBalance(e.left);
      TreeBalance(e.right);
      FilterConcat(a, b, IsOperator);
      FilterConcat(a, b, IsOperand);
      FilterConcat(a + b, c, IsOperator);
      FilterConcat(a + b, c, IsOperand);
    }
  }

  lemma {:induction false} ForestBalance(forest: seq<Expr>)
    ensures |Operands(PostorderAll(forest))| == |Operators(PostorderAll(forest))| + |forest|
    decreases |forest|
  {
    if forest != [] {
      var init, last := forest[..|forest| - 1], forest[|forest| - 1];
      ForestBalance(init);
      TreeBalance(last);
      FilterConcat(PostorderAll(init), Postorder(last), IsOperator);
      FilterConcat(PostorderAll(init), Postorder(last), IsOperand);
    }
  }

  /** A successful run leaves one entry per surplus operand. */
  lemma FinalStackHeight(expr: seq<Token>, env: map<string, Int64>)
    requires Run([], expr, env).status.Finished?
    ensures |Run([], expr, env).stack| == |Operands(expr)| - |Operators(expr)|
  {
    var values := Run([], expr, env).stack;
    EvaluateAcceptsForests(expr, env, values);
    var forest :| expr == PostorderAll(forest) && AllDefined(forest, env) && values == Values(forest, env);
    ForestBalance(forest);
  }
}
