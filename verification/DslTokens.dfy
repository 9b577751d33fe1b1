/** Tokens of the event-filter language, Go's 64-bit integers, and the thirteen
    dyadic operators (evaluator.go, shunting_yard.go, token.go). */
module DslTokens {
  import opened Wrappers

  datatype Operator =
    | Mul | Quo | Rem                          // * / %
    | Add | Sub                                // + -
    | Eql | Lss | Gtr | Neq | Leq | Geq        // == < > != <= >=
    | Land                                     // &&
    | Lor                                      // ||

  // `Other` stands for every token the language gives no meaning to: comments,
  // and the semicolon that Go's scanner inserts at a line end.
  datatype Token =
    | Int(value: Int64)
    | Ident(name: string)
    | Oper(op: Operator)
    | LParen
    | RParen
    | Other

  function Priority(op: Operator): (p: nat)
    ensures 1 <= p <= 5
  {
    match op
    case Mul | Quo | Rem => 5
    case Add | Sub => 4
    case Eql | Lss | Gtr | Neq | Leq | Geq => 3
    case Land => 2
    case Lor => 1
  }

  // Looking up a token that is not an operator in Go's map yields zero.
  function TokenPriority(tok: Token): nat {
    if tok.Oper? then Priority(tok.op) else 0
  }

  // ----- Go's int on a 64-bit platform -----

  const MIN_INT64: int := -0x8000_0000_0000_0000
  const MAX_INT64: int := 0x7FFF_FFFF_FFFF_FFFF
  const WORD: int := 0x1_0000_0000_0000_0000

  type Int64 = x: int | MIN_INT64 <= x <= MAX_INT64

  /** The value a 64-bit register holds after computing x. */
  function Wrap(x: int): (w: Int64)
    ensures MIN_INT64 <= x <= MAX_INT64 ==> w == x
    ensures (x - w) % WORD == 0
  {
    (x - MIN_INT64) % WORD + MIN_INT64
  }

  function Abs(x: int): int {
    if x < 0 then -x else x
  }

  /** Go's quotient, truncated toward zero. */
  function TruncQuo(x: int, y: int): (q: int)
    requires y != 0
  {
    if x >= 0 then (if y > 0 then x / y else -(x / -y))
    else (if y > 0 then -(-x / y) else -x / -y)
  }

  function TruncRem(x: int, y: int): (r: int)
    requires y != 0
  {
    x - y * TruncQuo(x, y)
  }

  /** The remainder that Go's "/" and "%" may leave: shorter than the divisor and
      never pointing away from the dividend (The Go Programming Language
      Specification, section "Arithmetic operators"). */
  predicate GoRemainder(x: int, y: int, r: int)
  {
    Abs(r) < Abs(y) && (r < 0 ==> x < 0) && (r > 0 ==> x > 0)
  }

  /** The quotient and remainder are the only pair with x = q*y + r and such an r. */
  lemma TruncatedDivision(x: int, y: int, q: int, r: int)
    requires y != 0
    ensures x == q * y + r && GoRemainder(x, y, r) <==> q == TruncQuo(x, y) && r == TruncRem(x, y)
  {
    TruncRemIsRemainder(x, y);
    if x == q * y + r && GoRemainder(x, y, r) {
      SameDivision(x, y, q, r, TruncQuo(x, y), TruncRem(x, y));
    }
  }

  lemma TruncRemIsRemainder(x: int, y: int)
    requires y != 0
    ensures GoRemainder(x, y, TruncRem(x, y))
  {
    if x >= 0 {
      if y > 0 { EuclideanDivision(x, y); } else { EuclideanDivision(x, -y); }
    } else {
      if y > 0 { EuclideanDivision(-x, y); } else { EuclideanDivision(-x, -y); }
    }
  }

  lemma EuclideanDivision(a: int, b: int)
    requires b > 0
    ensures a / b * b + a % b == a && 0 <= a % b < b
  {
  }

  lemma SameDivision(x: int, y: int, q: int, r: int, q': int, r': int)
    requires y != 0
    requires x == q * y + r && GoRemainder(x, y, r)
    requires x == y * q' + r' && GoRemainder(x, y, r')
    ensures q == q' && r == r'
  {
    assert (q - q') * y == r' - r;
    if q != q' {
      NonzeroMultiple(q - q', y);
    }
  }

  lemma NonzeroMultiple(d: int, y: int)
    requires y != 0 && d != 0
    ensures Abs(d * y) >= Abs(y)
  {
    if y > 0 {
      if d > 0 { assert (d - 1) * y >= 0; } else { assert (-1 - d) * y >= 0; }
    } else {
      if d > 0 { assert (d - 1) * (-y) >= 0; } else { assert (-1 - d) * (-y) >= 0; }
    }
  }

  function ToInt(b: bool): Int64 {
    if b then 1 else 0
  }

  function ToBool(x: Int64): bool {
    x != 0
  }

  /** One dyadic operator; None is Go's division-by-zero panic. */
  function Apply(op: Operator, x: Int64, y: Int64): (r: Option<Int64>)
  {
    match op
    case Add => Some(Wrap(x + y))
    case Sub => Some(Wrap(x - y))
    case Mul => Some(Wrap(x * y))
    case Quo => if y == 0 then None else Some(Wrap(TruncQuo(x, y)))
    case Rem => if y == 0 then None else Some(Wrap(TruncRem(x, y)))
    case Eql => Some(ToInt(x == y))
    case Lss => Some(ToInt(x < y))
    case Gtr => Some(ToInt(x > y))
    case Neq => Some(ToInt(x != y))
    case Leq => Some(ToInt(x <= y))
    case Geq => Some(ToInt(x >= y))
    case Land => Some(ToInt(ToBool(x) && ToBool(y)))
    case Lor => Some(ToInt(ToBool(x) || ToBool(y)))
  }
}
