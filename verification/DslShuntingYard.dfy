/** The infix-to-postfix translator (shunting_yard.go). The method follows the
    source's loops; the function `Rpn` says what they compute. */
module DslShuntingYard {
  import opened Wrappers
  import opened DslTokens

  // The operator stack has its top at the end, like the Go slice.
  datatype Yard = Yard(stack: seq<Token>, output: seq<Token>)

  const EMPTY_YARD := Yard([], [])

  function PopOne(y: Yard): Yard
    requires y.stack != []
  {
    Yard(Init(y.stack), y.output + [Last(y.stack)])
  }

  /** Pops while the priority on the stack is at least p. */
  function PopOperators(y: Yard, p: nat): Yard
    decreases |y.stack|
  {
    if y.stack == [] || p > TokenPriority(Last(y.stack)) then y
    else PopOperators(PopOne(y), p)
  }

  /** Pops up to and including the nearest left paren; None when there is none. */
  function PopToParen(y: Yard): Option<Yard>
    decreases |y.stack|
  {
    if y.stack == [] then None
    else if Last(y.stack) == LParen then Some(y.(stack := Init(y.stack)))
    else PopToParen(PopOne(y))
  }

  function Shift(y: Yard, tok: Token): Option<Yard>
  {
    match tok
    case Int(_) | Ident(_) => Some(y.(output := y.output + [tok]))
    case LParen => Some(y.(stack := y.stack + [tok]))
    case RParen => PopToParen(y)
    case Oper(op) =>
      var y' := PopOperators(y, Priority(op));
      Some(y'.(stack := y'.stack + [tok]))
    case Other => Some(y)
  }

  function Scan(y: Yard, tokens: seq<Token>): Option<Yard>
    decreases |tokens|
  {
    if tokens == [] then Some(y)
    else
      match Shift(y, tokens[0])
      case None => None
      case Some(y') => Scan(y', tokens[1..])
  }

  function Rpn(tokens: seq<Token>): Option<seq<Token>>
  {
    match Scan(EMPTY_YARD, tokens)
    case None => None
    case Some(y) => Some(y.output + Reverse(y.stack))
  }

  /** toRPN. None is the slice-index panic of a right paren without a left one. */
  method ToRPN(tokens: seq<Token>) returns (r: Option<seq<Token>>)
    ensures r == Rpn(tokens)
  {
    var stack: seq<Token> := [];
    var output: seq<Token> := [];
    var i := 0;
    while i < |tokens|
      invariant 0 <= i <= |tokens|
      invariant Scan(Yard(stack, output), tokens[i..]) == Scan(EMPTY_YARD, tokens)
    {
      var tok := tokens[i];
      ghost var before := Yard(stack, output);
      assert tokens[i..][1..] == tokens[i + 1..];
      match tok {
        case Int(_) | Ident(_) =>
          output := output + [tok];
        case LParen =>
          stack := stack + [tok];
        case RParen =>
          var done := false;
          while !done
            invariant !done ==> PopToParen(Yard(stack, output)) == PopToParen(before)
            invariant done ==> PopToParen(before) == Some(Yard(stack, output))
            decreases !done, |stack|
          {
            if |stack| == 0 {
              return None;
            }
            var popped := stack[|stack| - 1];
            stack := stack[..|stack| - 1];
            if popped == LParen {
              done := true;
            } else {
              output := output + [popped];
            }
          }
        case Oper(op) =>
          var priority1 := TokenPriority(tok);
          while |stack| > 0 && priority1 <= TokenPriority(stack[|stack| - 1])
            invariant PopOperators(Yard(stack, output), priority1) == PopOperators(before, priority1)
          {
            output := output + [stack[|stack| - 1]];
            stack := stack[..|stack| - 1];
          }
          stack := stack + [tok];
        case Other =>
      }
      i := i + 1;
    }

    ghost var scanned := Yard(stack, output);
    while |stack| > 0
      invariant output + Reverse(stack) == scanned.output + Reverse(scanned.stack)
    {
      assert stack == Init(stack) + [Last(stack)];
      ReverseConcat(Init(stack), [Last(stack)]);
      assert Reverse([Last(stack)]) == [Last(stack)];
      output := output + [stack[|stack| - 1]];
      stack := stack[..|stack| - 1];
    }
    assert output + Reverse(stack) == output;
    r := Some(output);
  }

  // ----- basic facts -----

  lemma {:induction false} ScanConcat(y: Yard, a: seq<Token>, b: seq<Token>)
    ensures Scan(y, a + b) == match Scan(y, a) { case None => None case Some(y') => Scan(y', b) }
    decreases |a|
  {
    if a == [] {
      assert a + b == b;
    } else {
      assert (a + b)[1..] == a[1..] + b;
      match Shift(y, a[0]) {
        case None =>
        case Some(y') => ScanConcat(y', a[1..], b);
      }
    }
  }

  /** Operators of priority p or more are all popped, in reverse, and what lies
      below a lower-priority token stays. */
  lemma {:induction false} PopOperatorsStops(below: seq<Token>, ops: seq<Token>, output: seq<Token>, p: nat)
    requires below == [] || TokenPriority(Last(below)) < p
    requires forall t :: t in ops ==> TokenPriority(t) >= p
    ensures PopOperators(Yard(below + ops, output), p) == Yard(below, output + Reverse(ops))
    decreases |ops|
  {
    if ops == [] {
      assert below + ops == below;
      assert output + Reverse(ops) == output;
    } else {
      var rest := ops[..|ops| - 1];
      assert ops == rest + [Last(ops)];
      assert Init(below + ops) == below + rest && Last(below + ops) == Last(ops);
      ReverseConcat(rest, [Last(ops)]);
      assert Reverse([Last(ops)]) == [Last(ops)];
      PopOperatorsStops(below, rest, output + [Last(ops)], p);
      assert output + [Last(ops)] + Reverse(rest) == output + Reverse(ops);
      assert Last(ops) in ops;
    }
  }

  lemma {:induction false} PopToParenFinds(below: seq<Token>, ops: seq<Token>, output: seq<Token>)
    requires LParen !in ops
    ensures PopToParen(Yard(below + [LParen] + ops, output)) == Some(Yard(below, output + Reverse(ops)))
    decreases |ops|
  {
    if ops == [] {
      assert below + [LParen] + ops == below + [LParen];
      assert Init(below + [LParen]) == below;
      assert output + Reverse(ops) == output;
    } else {
      var rest := ops[..|ops| - 1];
      assert ops == rest + [Last(ops)];
      var stack := below + [LParen] + ops;
      assert Init(stack) == below + [LParen] + rest && Last(stack) == Last(ops);
      ReverseConcat(rest, [Last(ops)]);
      assert Reverse([Last(ops)]) == [Last(ops)];
      PopToParenFinds(below, rest, output + [Last(ops)]);
      assert output + [Last(ops)] + Reverse(rest) == output + Reverse(ops);
    }
  }
}
