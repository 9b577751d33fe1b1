/** What holds of the translator on every token list, well-formed or not: when it
    panics, how high the operator stack grows, and that nothing is lost. */
module DslYardInvariants {
  import opened Wrappers
  import opened DslTokens
  import opened DslShuntingYard
  import opened DslForest

  function IsKept(t: Token): bool {
    IsOperand(t) || IsOperator(t)
  }

  function Count(tokens: seq<Token>, tok: Token): nat {
    if tokens == [] then 0 else (if tokens[0] == tok then 1 else 0) + Count(tokens[1..], tok)
  }

  lemma {:induction false} CountConcat(a: seq<Token>, b: seq<Token>, tok: Token)
    ensures Count(a + b, tok) == Count(a, tok) + Count(b, tok)
  {
    if a == [] {
      assert a + b == b;
    } else {
      assert (a + b)[1..] == a[1..] + b;
      CountConcat(a[1..], b, tok);
    }
  }

  lemma CountPush(a: seq<Token>, t: Token, tok: Token)
    ensures Count(a + [t], tok) == Count(a, tok) + if t == tok then 1 else 0
  {
    CountConcat(a, [t], tok);
  }

  function OpenParens(tokens: seq<Token>): int {
    Count(tokens, LParen) - Count(tokens, RParen)
  }

  /** No right paren comes without a left one before it. */
  predicate RightsMatched(tokens: seq<Token>) {
    forall k :: 0 <= k <= |tokens| ==> OpenParens(tokens[..k]) >= 0
  }

  // ----- the shape of the operator stack -----

  /** Only operators and left parens, and operators rise between left parens. */
  predicate Rising(stack: seq<Token>) {
    && (forall i :: 0 <= i < |stack| ==> stack[i].Oper? || stack[i] == LParen)
    && (forall i :: 0 < i < |stack| && stack[i].Oper? ==> TokenPriority(stack[i - 1]) < TokenPriority(stack[i]))
  }

  lemma {:induction false} RisingStackIsLow(stack: seq<Token>)
    requires Rising(stack)
    ensures |stack| <= 6 * Count(stack, LParen) + if stack == [] then 0 else TokenPriority(Last(stack))
    decreases |stack|
  {
    if stack != [] {
      var rest := Init(stack);
      assert stack == rest + [Last(stack)];
      RisingStackIsLow(rest);
      CountPush(rest, Last(stack), LParen);
      if rest != [] {
        assert Last(rest) == stack[|stack| - 2];
        assert TokenPriority(Last(rest)) <= 5;
      }
    }
  }

  // ----- one token -----

  /** What popping keeps: the tokens on the yard, its order, its left parens. */
  predicate Popped(y: Yard, y': Yard) {
    && (Rising(y.stack) ==> Rising(y'.stack))
    && |y'.stack| <= |y.stack|
    && y'.stack == y.stack[..|y'.stack|]
    && y'.output == y.output + Reverse(y.stack[|y'.stack|..])
  }

  lemma PopOneKeeps(y: Yard, y': Yard)
    requires y.stack != [] && Popped(PopOne(y), y')
    ensures Popped(y, y')
  {
    var n := |y'.stack|;
    var rest := Init(y.stack)[n..];
    assert y.stack[n..] == rest + [Last(y.stack)];
    ReverseConcat(rest, [Last(y.stack)]);
    assert Reverse([Last(y.stack)]) == [Last(y.stack)];
    assert Init(y.stack)[..n] == y.stack[..n];
    ConcatAssociates(y.output, [Last(y.stack)], Reverse(rest));
  }

  lemma PoppedNothing(y: Yard)
    ensures Popped(y, y) && y.stack[|y.stack|..] == []
  {
    assert y.output + Reverse([]) == y.output;
  }

  lemma {:induction false} PopOperatorsPops(y: Yard, p: nat)
    requires p > 0
    ensures var y' := PopOperators(y, p);
            && Popped(y, y')
            && (y'.stack == [] || TokenPriority(Last(y'.stack)) < p)
            && LParen !in y.stack[|y'.stack|..]
    decreases |y.stack|
  {
    hide Reverse, Rising;
    if y.stack == [] || p > TokenPriority(Last(y.stack)) {
      PoppedNothing(y);
    } else {
      PopOperatorsPops(PopOne(y), p);
      var y' := PopOperators(PopOne(y), p);
      PopOneKeeps(y, y');
      assert y.stack[|y'.stack|..] == Init(y.stack)[|y'.stack|..] + [Last(y.stack)];
      assert Last(y.stack) != LParen;
    }
  }

  /** The paren loop stops just above the nearest left paren, which it drops. */
  lemma {:induction false} PopToParenPops(y: Yard)
    ensures PopToParen(y).None? <==> LParen !in y.stack
    ensures PopToParen(y).Some? ==>
              var y' := PopToParen(y).value;
              && Popped(y, Yard(y'.stack + [LParen], y'.output))
              && LParen !in y.stack[|y'.stack| + 1..]
    decreases |y.stack|
  {
    if y.stack == [] {
    } else if Last(y.stack) == LParen {
      assert LParen in y.stack;
      assert y.stack == Init(y.stack) + [LParen];
      assert Reverse(y.stack[|y.stack|..]) == [];
    } else {
      PopToParenPops(PopOne(y));
      assert y.stack == Init(y.stack) + [Last(y.stack)];
      if PopToParen(y).Some? {
        var y' := PopToParen(y).value;
        PopOneKeeps(y, Yard(y'.stack + [LParen], y'.output));
        assert y.stack[|y'.stack| + 1..] == Init(y.stack)[|y'.stack| + 1..] + [Last(y.stack)];
      }
    }
  }

  lemma {:induction false} CountPositive(tokens: seq<Token>, tok: Token)
    ensures Count(tokens, tok) > 0 <==> tok in tokens
  {
    if tokens != [] {
      CountPositive(tokens[1..], tok);
    }
  }

  lemma {:induction false} ReverseCounts(tokens: seq<Token>, tok: Token)
    ensures Count(Reverse(tokens), tok) == Count(tokens, tok)
  {
    if tokens != [] {
      ReverseCounts(tokens[1..], tok);
      CountPush(Reverse(tokens[1..]), tokens[0], tok);
    }
  }

  lemma {:induction false} ReverseOfOperators(tokens: seq<Token>)
    requires forall t :: t in tokens ==> !IsOperand(t)
    ensures Operands(Reverse(tokens)) == []
  {
    if tokens != [] {
      ReverseOfOperators(tokens[1..]);
      FilterConcat(Reverse(tokens[1..]), [tokens[0]], IsOperand);
      FilterOne(tokens[0], IsOperand);
    }
  }

  /** The yard after reading a prefix: the stack rises, holds one left paren per
      open paren, output and stack together hold every token read but the parens,
      and the output holds the operands in the order read. */
  ghost predicate Accounts(y: Yard, read: seq<Token>) {
    && Rising(y.stack)
    && Count(y.stack, LParen) == OpenParens(read)
    && (forall t :: IsKept(t) ==> Count(y.output, t) + Count(y.stack, t) == Count(read, t))
    && Operands(y.output) == Operands(read)
    && (forall t :: t in y.output ==> IsKept(t))
  }

  lemma PoppedAccounts(y: Yard, y': Yard, read: seq<Token>)
    requires Accounts(y, read) && Popped(y, y')
    requires LParen !in y.stack[|y'.stack|..]
    ensures Accounts(y', read)
  {
    var moved := y.stack[|y'.stack|..];
    assert y.stack == y'.stack + moved;
    forall t ensures Count(y'.output, t) + Count(y'.stack, t) == Count(y.output, t) + Count(y.stack, t) {
      CountConcat(y'.stack, moved, t);
      CountConcat(y.output, Reverse(moved), t);
      ReverseCounts(moved, t);
    }
    CountConcat(y'.stack, moved, LParen);
    CountPositive(moved, LParen);
    forall t | t in moved ensures t.Oper? {
    }
    ReverseOfOperators(moved);
    FilterConcat(y.output, Reverse(moved), IsOperand);
    ReverseMembers(moved);
  }

  lemma {:induction false} ReverseMembers(tokens: seq<Token>)
    ensures forall t :: t in Reverse(tokens) <==> t in tokens
  {
    if tokens != [] {
      ReverseMembers(tokens[1..]);
    }
  }

  lemma ReadOne(read: seq<Token>, tok: Token)
    ensures forall t :: Count(read + [tok], t) == Count(read, t) + if t == tok then 1 else 0
    ensures Operands(read + [tok]) == Operands(read) + if IsOperand(tok) then [tok] else []
  {
    forall t ensures Count(read + [tok], t) == Count(read, t) + if t == tok then 1 else 0 {
      CountPush(read, tok, t);
    }
    FilterConcat(read, [tok], IsOperand);
    FilterOne(tok, IsOperand);
  }

  /** Reading one token panics exactly when it is a right paren and none is open. */
  lemma ShiftAccounts(y: Yard, tok: Token, read: seq<Token>)
    requires Accounts(y, read)
    ensures Shift(y, tok).None? <==> tok == RParen && OpenParens(read) == 0
    ensures Shift(y, tok).Some? ==> Accounts(Shift(y, tok).value, read + [tok])
  {
    ReadOne(read, tok);
    match tok
    case Int(_) | Ident(_) =>
      ReadOne(y.output, tok);
    case LParen =>
      ReadOne(y.stack, tok);
    case Other =>
    case Oper(op) =>
      OperatorAccounts(y, op, read);
    case RParen =>
      RParenAccounts(y, read);
  }

  lemma OperatorAccounts(y: Yard, op: Operator, read: seq<Token>)
    requires Accounts(y, read)
    ensures Accounts(Shift(y, Oper(op)).value, read + [Oper(op)])
  {
    hide PopOperators, Reverse, Count, Operands;
    PopOperatorsPops(y, Priority(op));
    var y' := PopOperators(y, Priority(op));
    PoppedAccounts(y, y', read);
    ReadOne(y'.stack, Oper(op));
    ReadOne(read, Oper(op));
  }

  lemma RParenAccounts(y: Yard, read: seq<Token>)
    requires Accounts(y, read)
    ensures PopToParen(y).None? <==> OpenParens(read) == 0
    ensures PopToParen(y).Some? ==> Accounts(PopToParen(y).value, read + [RParen])
  {
    PopToParenPops(y);
    CountPositive(y.stack, LParen);
    if PopToParen(y).Some? {
      var y' := PopToParen(y).value;
      PoppedAccounts(y, Yard(y'.stack + [LParen], y'.output), read);
      ReadOne(y'.stack, LParen);
      ReadOne(read, RParen);
      RisingPrefix(y'.stack, LParen);
    }
  }

  lemma RisingPrefix(stack: seq<Token>, t: Token)
    requires Rising(stack + [t])
    ensures Rising(stack)
  {
    assert stack == (stack + [t])[..|stack|];
  }

  lemma {:induction false} ScanAccounts(y: Yard, read: seq<Token>, tokens: seq<Token>)
    requires Accounts(y, read) && RightsMatched(read)
    ensures Scan(y, tokens).Some? <==> RightsMatched(read + tokens)
    ensures Scan(y, tokens).Some? ==> Accounts(Scan(y, tokens).value, read + tokens)
    decreases |tokens|
  {
    if tokens == [] {
      assert read + tokens == read;
    } else {
      var tok, read' := tokens[0], read + [tokens[0]];
      assert read' + tokens[1..] == read + tokens;
      ShiftAccounts(y, tok, read);
      ReadOne(read, tok);
      assert (read + tokens)[..|read| + 1] == read';
      assert read[..|read|] == read;
      if Shift(y, tok).Some? {
        forall k | 0 <= k <= |read'| ensures OpenParens(read'[..k]) >= 0 {
          if k <= |read| {
            assert read'[..k] == read[..k];
          } else {
            assert read'[..k] == read';
          }
        }
        ScanAccounts(Shift(y, tok).value, read', tokens[1..]);
      }
    }
  }

  // ----- whole token lists -----

  /** The translator panics exactly when some right paren has no left paren. */
  lemma PanicsOnUnmatchedRight(tokens: seq<Token>)
    ensures Rpn(tokens).Some? <==> RightsMatched(tokens)
  {
    ScanAccounts(EMPTY_YARD, [], tokens);
    assert [] + tokens == tokens;
  }

  /** At every moment the stack rises between left parens, so it holds at most five
      operators per open paren, the parens themselves, and five more. */
  lemma StackHeightBound(tokens: seq<Token>)
    requires RightsMatched(tokens)
    ensures Scan(EMPTY_YARD, tokens).Some?
    ensures var stack := Scan(EMPTY_YARD, tokens).value.stack;
            && Rising(stack)
            && Count(stack, LParen) == OpenParens(tokens)
            && |stack| <= 5 + 6 * OpenParens(tokens)
  {
    ScanAccounts(EMPTY_YARD, [], tokens);
    assert [] + tokens == tokens;
    RisingStackIsLow(Scan(EMPTY_YARD, tokens).value.stack);
  }

  /** Nothing is lost and nothing is invented: the output has each operand and each
      operator as often as the input, one left paren per paren left open, no other
      token, and the operands in their order. */
  lemma TranslationConserves(tokens: seq<Token>)
    requires RightsMatched(tokens)
    ensures Rpn(tokens).Some?
    ensures var output := Rpn(tokens).value;
            && (forall t :: IsKept(t) ==> Count(output, t) == Count(tokens, t))
            && Count(output, LParen) == OpenParens(tokens)
            && Operands(output) == Operands(tokens)
            && (forall t :: t in output ==> IsKept(t) || t == LParen)
            && (OpenParens(tokens) == 0 <==> forall t :: t in output ==> IsKept(t))
  {
    ScanAccounts(EMPTY_YARD, [], tokens);
    assert [] + tokens == tokens;
    var y := Scan(EMPTY_YARD, tokens).value;
    var output := Rpn(tokens).value;
    forall t ensures Count(output, t) == Count(y.output, t) + Count(y.stack, t) {
      CountConcat(y.output, Reverse(y.stack), t);
      ReverseCounts(y.stack, t);
    }
    CountPositive(y.output, LParen);
    CountPositive(output, LParen);
    ReverseMembers(y.stack);
    ReverseOfOperators(y.stack);
    FilterConcat(y.output, Reverse(y.stack), IsOperand);
  }
}
