/** What the translator and the postfix machine do with single operators, said without
    their tables: the order of two operators, and the value that each operator pushes. */
module DslLaws {
  import opened Wrappers
  import opened DslTokens
  import opened DslShuntingYard
  import opened DslSyntax
  import opened DslEvaluator
  import opened DslForest
  import opened DslCompiler

  // ----- two operators in a row -----

  predicate Tighter(o2: Operator, o1: Operator) {
    exists i, j :: 0 <= i < j < |TIERS| && o1 in TIERS[i] && o2 in TIERS[j]
  }

  lemma TighterIsTier(o2: Operator, o1: Operator)
    ensures Tighter(o2, o1) <==> Tier(o1) < Tier(o2)
  {
    if Tier(o1) < Tier(o2) {
      assert o1 in TIERS[Tier(o1) - 1] && o2 in TIERS[Tier(o2) - 1];
    }
  }

  /** Of two operators the second goes out first if and only if it is in a tighter tier. */
  lemma TwoOperators(a: Token, o1: Operator, b: Token, o2: Operator, c: Token)
    requires IsOperand(a) && IsOperand(b) && IsOperand(c)
    ensures Rpn([a, Oper(o1), b, Oper(o2), c])
         == Some(if Tighter(o2, o1) then [a, b, c, Oper(o2), Oper(o1)] else [a, b, Oper(o1), c, Oper(o2)])
  {
    hide Rpn, Significant;
    var pa, pb, pc := Atom(Leaf(a)), Atom(Leaf(b)), Atom(Leaf(c));
    var tokens := [a, Oper(o1), b, Oper(o2), c];
    SignificantAll(tokens);
    TighterIsTier(o2, o1);
    if Tier(o1) < Tier(o2) {
      var right := Infix(o2, pb, pc);
      OneOperator(b, o2, c);
      TranslationIsPostorder(tokens, Infix(o1, pa, right));
      assert Tree(Infix(o1, pa, right)) == Binary(o1, Leaf(a), Tree(right));
      assert Postorder(Leaf(a)) + Postorder(Tree(right)) + [Oper(o1)] == [a, b, c, Oper(o2), Oper(o1)];
    } else {
      var left := Infix(o1, pa, pb);
      OneOperator(a, o1, b);
      TranslationIsPostorder(tokens, Infix(o2, left, pc));
      assert Tree(Infix(o2, left, pc)) == Binary(o2, Tree(left), Leaf(c));
      assert Postorder(Tree(left)) + Postorder(Leaf(c)) + [Oper(o2)] == [a, b, Oper(o1), c, Oper(o2)];
    }
  }

  lemma OneOperator(a: Token, o: Operator, b: Token)
    requires IsOperand(a) && IsOperand(b)
    ensures var p := Infix(o, Atom(Leaf(a)), Atom(Leaf(b)));
            WellFormed(p) && Spell(p) == [a, Oper(o), b] && Postorder(Tree(p)) == [a, b, Oper(o)]
  {
    var pa, pb := Atom(Leaf(a)), Atom(Leaf(b));
    assert WellFormed(pa) && WellFormed(pb);
    assert Spell(pa) == [a] && Spell(pb) == [b];
  }

  function Leaf(t: Token): (e: Expr)
    requires IsOperand(t)
    ensures !e.Binary? && Postorder(e) == [t]
  {
    match t
    case Int(v) => Number(v)
    case Ident(n) => Name(n)
  }

  lemma {:induction false} SignificantAll(tokens: seq<Token>)
    requires Other !in tokens
    ensures Significant(tokens) == tokens
    decreases |tokens|
  {
    if tokens != [] {
      SignificantAll(tokens[1..]);
    }
  }

  // ----- one operator on two integers -----

  /** Whatever lies below, the operator replaces x and y by v. */
  ghost predicate Pushes(op: Operator, x: Int64, y: Int64, v: Int64) {
    forall stack, env :: Run(stack, [Int(x), Int(y), Oper(op)], env) == Machine(stack + [v], Finished)
  }

  lemma PushesApplied(op: Operator, x: Int64, y: Int64, v: Int64)
    ensures Pushes(op, x, y, v) <==> Apply(op, x, y) == Some(v)
  {
    if Pushes(op, x, y, v) {
      RunTwoAndOne([], x, y, op, map[]);
      assert Run([], [Int(x), Int(y), Oper(op)], map[]) == Machine([] + [v], Finished);
      assert ([] + [v])[0] == v && |[] + [v]| == 1;
    }
    forall stack, env | Apply(op, x, y) == Some(v)
      ensures Run(stack, [Int(x), Int(y), Oper(op)], env) == Machine(stack + [v], Finished)
    {
      RunTwoAndOne(stack, x, y, op, env);
    }
  }

  lemma RunTwoAndOne(stack: seq<Int64>, x: Int64, y: Int64, op: Operator, env: map<string, Int64>)
    ensures Run(stack, [Int(x), Int(y), Oper(op)], env)
         == match Apply(op, x, y)
            case Some(v) => Machine(stack + [v], Finished)
            case None => Machine(stack, Panicked)
  {
    RunConcat(stack, [Int(x)], [Int(y), Oper(op)], env);
    RunOne(stack, Int(x), env);
    RunConcat(stack + [x], [Int(y)], [Oper(op)], env);
    RunOne(stack + [x], Int(y), env);
    RunOne(stack + [x] + [y], Oper(op), env);
    assert [Int(x)] + [Int(y), Oper(op)] == [Int(x), Int(y), Oper(op)];
    assert [Int(y)] + [Oper(op)] == [Int(y), Oper(op)];
    assert (stack + [x] + [y])[..|stack|] == stack;
  }

  /** +, - and * leave the one 64-bit integer congruent to the exact result. */
  lemma SumsAndProducts(x: Int64, y: Int64, v: Int64)
    ensures -0x8000_0000_0000_0000 <= v <= 0x7FFF_FFFF_FFFF_FFFF
    ensures Pushes(Add, x, y, v) <==> (v - (x + y)) % 0x1_0000_0000_0000_0000 == 0
    ensures Pushes(Sub, x, y, v) <==> (v - (x - y)) % 0x1_0000_0000_0000_0000 == 0
    ensures Pushes(Mul, x, y, v) <==> (v - x * y) % 0x1_0000_0000_0000_0000 == 0
  {
    hide Pushes, Wrap;
    PushesApplied(Add, x, y, v);
    PushesApplied(Sub, x, y, v);
    PushesApplied(Mul, x, y, v);
    WrapIsOnly(x + y, v);
    WrapIsOnly(x - y, v);
    WrapIsOnly(x * y, v);
  }

  /** / and % leave the quotient and the remainder of truncated division; the one
      quotient that does not fit is the dividend again. */
  lemma QuotientsAndRemainders(x: Int64, y: Int64, q: Int64, r: Int64)
    requires y != 0
    ensures x != -0x8000_0000_0000_0000 || y != -1 ==>
              (Pushes(Quo, x, y, q) && Pushes(Rem, x, y, r) <==> x == q * y + r && GoRemainder(x, y, r))
    ensures x == -0x8000_0000_0000_0000 && y == -1 ==>
              (Pushes(Quo, x, y, q) && Pushes(Rem, x, y, r) <==> q == x && r == 0)
  {
    hide Pushes, Wrap, TruncQuo, TruncRem, GoRemainder;
    PushesApplied(Quo, x, y, q);
    PushesApplied(Rem, x, y, r);
    if x != MIN_INT64 || y != -1 {
      TruncatedDivision(x, y, q, r);
      QuotientFits(x, y);
    } else {
      LargestQuotient();
    }
  }

  /** Zero divides nothing: the run panics, and the two operands are gone. */
  lemma DivisionByZero(op: Operator, x: Int64, stack: seq<Int64>, env: map<string, Int64>)
    ensures Run(stack, [Int(x), Int(0), Oper(op)], env) == Machine(stack, Panicked) <==> op in {Quo, Rem}
  {
    RunTwoAndOne(stack, x, 0, op, env);
  }

  /** A relation leaves 1 or 0: 1 if and only if it holds. */
  lemma Relations(x: Int64, y: Int64, v: Int64)
    ensures Pushes(Eql, x, y, v) <==> v == if x == y then 1 else 0
    ensures Pushes(Neq, x, y, v) <==> v == if x == y then 0 else 1
    ensures Pushes(Lss, x, y, v) <==> v == if x < y then 1 else 0
    ensures Pushes(Geq, x, y, v) <==> v == if x < y then 0 else 1
    ensures Pushes(Gtr, x, y, v) <==> v == if y < x then 1 else 0
    ensures Pushes(Leq, x, y, v) <==> v == if y < x then 0 else 1
  {
    hide Pushes;
    PushesApplied(Eql, x, y, v);
    PushesApplied(Neq, x, y, v);
    PushesApplied(Lss, x, y, v);
    PushesApplied(Geq, x, y, v);
    PushesApplied(Gtr, x, y, v);
    PushesApplied(Leq, x, y, v);
  }

  /** For && and ||, zero is false and everything else is true. */
  lemma Connectives(x: Int64, y: Int64, v: Int64)
    ensures Pushes(Land, x, y, v) <==> v == if x == 0 || y == 0 then 0 else 1
    ensures Pushes(Lor, x, y, v) <==> v == if x == 0 && y == 0 then 0 else 1
  {
    hide Pushes;
    PushesApplied(Land, x, y, v);
    PushesApplied(Lor, x, y, v);
  }

  lemma QuotientFits(x: Int64, y: Int64)
    requires y != 0 && (x != MIN_INT64 || y != -1)
    ensures MIN_INT64 <= TruncQuo(x, y) <= MAX_INT64 && MIN_INT64 <= TruncRem(x, y) <= MAX_INT64
  {
    TruncatedDivision(x, y, TruncQuo(x, y), TruncRem(x, y));
  }

  lemma LargestQuotient()
    ensures Wrap(TruncQuo(MIN_INT64, -1)) == MIN_INT64 && Wrap(TruncRem(MIN_INT64, -1)) == 0
  {
  }

  lemma WrapIsOnly(x: int, v: Int64)
    ensures Wrap(x) == v <==> (v - x) % WORD == 0
  {
    Opposite(x - Wrap(x));
    if (v - x) % WORD == 0 {
      SumOfMultiples(v - x, x - Wrap(x));
    }
  }

  lemma Opposite(d: int)
    requires d % WORD == 0
    ensures -d % WORD == 0
  {
  }

  lemma SumOfMultiples(a: int, b: int)
    requires a % WORD == 0 && b % WORD == 0
    ensures (a + b) % WORD == 0
  {
  }

  // ----- the other tokens -----

  /** Integers and bound names are pushed. Anything else ends the run: an unbound name
      and a token without meaning leave the stack alone, an operator that misses an
      operand has taken what was there. */
  lemma OtherTokens(stack: seq<Int64>, n: string, tok: Token, op: Operator, v: Int64, env: map<string, Int64>)
    ensures Run(stack, [Int(v)], env) == Machine(stack + [v], Finished)
    ensures n in env ==> Run(stack, [Ident(n)], env) == Machine(stack + [env[n]], Finished)
    ensures n !in env ==> Run(stack, [Ident(n)], env) == Machine(stack, UnknownIdentifier(n))
    ensures tok in {LParen, RParen, Other} ==> Run(stack, [tok], env) == Machine(stack, IncorrectToken(tok))
    ensures |stack| < 2 ==> Run(stack, [Oper(op)], env) == Machine([], EmptyStack)
  {
    RunOne(stack, Int(v), env);
    RunOne(stack, Ident(n), env);
    RunOne(stack, tok, env);
    RunOne(stack, Oper(op), env);
  }
}
