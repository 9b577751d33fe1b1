/** The operand stack and the postfix machine (stack.go, evaluator.go). */
module DslEvaluator {
  import opened Wrappers
  import opened DslTokens

  // How a run of `evaluate` ends. Panicked is Go's division by zero.
  datatype Status =
    | Finished
    | EmptyStack
    | UnknownIdentifier(name: string)
    | IncorrectToken(tok: Token)
    | Panicked

  datatype Machine = Machine(stack: seq<Int64>, status: Status)

  class Stack {
    var stack: seq<Int64>

    constructor ()
      ensures stack == []
    {
      stack := [];
    }

    method Push(value: Int64)
      modifies this
      ensures stack == old(stack) + [value]
    {
      stack := stack + [value];
    }

    /** None is the "Empty stack" error. */
    method Pop() returns (r: Option<Int64>)
      modifies this
      ensures old(stack) == [] ==> r == None && stack == []
      ensures old(stack) != [] ==> r.Some? && old(stack) == stack + [r.value]
    {
      if Empty() {
        return None;
      }
      var tos := |stack| - 1;
      var element := stack[tos];
      stack := stack[..tos];
      r := Some(element);
    }

    predicate Empty()
      reads this
    {
      |stack| == 0
    }
  }

  // ----- what the machine computes -----

  function PerformOperation(stack: seq<Int64>, op: Operator): Machine
  {
    if |stack| < 2 then Machine([], EmptyStack)
    else
      var rest := stack[..|stack| - 2];
      match Apply(op, stack[|stack| - 2], stack[|stack| - 1])
      case Some(v) => Machine(rest + [v], Finished)
      case None => Machine(rest, Panicked)
  }

  function StepToken(stack: seq<Int64>, tok: Token, env: map<string, Int64>): Machine
  {
    match tok
    case Oper(op) => PerformOperation(stack, op)
    case Int(v) => Machine(stack + [v], Finished)
    case Ident(n) => if n in env then Machine(stack + [env[n]], Finished) else Machine(stack, UnknownIdentifier(n))
    case LParen | RParen | Other => Machine(stack, IncorrectToken(tok))
  }

  /** Runs the machine; it stops at the first token that does not finish. */
  function Run(stack: seq<Int64>, expr: seq<Token>, env: map<string, Int64>): Machine
    decreases |expr|
  {
    if expr == [] then Machine(stack, Finished)
    else
      var m := StepToken(stack, expr[0], env);
      if m.status.Finished? then Run(m.stack, expr[1..], env) else m
  }

  // ----- the source's methods -----

  method PerformArithmeticOperation(stack: Stack, op: Operator) returns (status: Status)
    modifies stack
    ensures Machine(stack.stack, status) == PerformOperation(old(stack.stack), op)
  {
    ghost var before := stack.stack;
    var y := stack.Pop();
    if y.None? {
      return EmptyStack;
    }
    var x := stack.Pop();
    if x.None? {
      return EmptyStack;
    }
    assert before == stack.stack + [x.value] + [y.value];
    assert before[..|before| - 2] == stack.stack;
    var result := Apply(op, x.value, y.value);
    if result.None? {
      return Panicked;
    }
    stack.Push(result.value);
    status := Finished;
  }

  method Evaluate(expr: seq<Token>, env: map<string, Int64>) returns (stack: Stack, status: Status)
    ensures fresh(stack)
    ensures Machine(stack.stack, status) == Run([], expr, env)
  {
    stack := new Stack();
    var i := 0;
    while i < |expr|
      invariant 0 <= i <= |expr|
      invariant fresh(stack)
      invariant Run(stack.stack, expr[i..], env) == Run([], expr, env)
    {
      var tok := expr[i];
      assert expr[i..][1..] == expr[i + 1..];
      match tok {
        case Oper(op) =>
          status := PerformArithmeticOperation(stack, op);
          if !status.Finished? {
            return;
          }
        case Int(value) =>
          stack.Push(value);
        case Ident(name) =>
          if name !in env {
            return stack, UnknownIdentifier(name);
          }
          stack.Push(env[name]);
        case LParen | RParen | Other =>
          return stack, IncorrectToken(tok);
      }
      i := i + 1;
    }
    status := Finished;
  }
}
