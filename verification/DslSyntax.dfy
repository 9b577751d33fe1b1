/** What an expression is and means, independently of the two-stage compiler:
    trees, their values, and the ways of writing them down in infix form. */
module DslSyntax {
  import opened Wrappers
  import opened DslTokens

  datatype Expr =
    | Number(value: Int64)
    | Name(name: string)
    | Binary(op: Operator, left: Expr, right: Expr)

  // ----- meaning -----

  datatype Meaning = Val(value: Int64) | Unbound(name: string) | DivideByZero

  /** Operands are evaluated left to right; && and || evaluate both of them. */
  function Mean(e: Expr, env: map<string, Int64>): Meaning
  {
    match e
    case Number(v) => Val(v)
    case Name(n) => if n in env then Val(env[n]) else Unbound(n)
    case Binary(op, l, r) =>
      match Mean(l, env)
      case Val(x) => (
        match Mean(r, env)
        case Val(y) => (match Apply(op, x, y) case Some(v) => Val(v) case None => DivideByZero)
        case failure => failure)
      case failure => failure
  }

  // ----- postfix form -----

  function Postorder(e: Expr): (p: seq<Token>)
    ensures p != []
  {
    match e
    case Number(v) => [Int(v)]
    case Name(n) => [Ident(n)]
    case Binary(op, l, r) => Postorder(l) + Postorder(r) + [Oper(op)]
  }

  // ----- infix form -----

  /** An expression together with the parentheses it is written with. */
  datatype Phrase =
    | Atom(leaf: Expr)
    | Group(inner: Phrase)
    | Infix(op: Operator, left: Phrase, right: Phrase)

  // The binary operators of Go by how tightly they bind, loosest first (The Go
  // Programming Language Specification, section "Operator precedence").
  const TIERS: seq<set<Operator>> :=
    [{Lor}, {Land}, {Eql, Neq, Lss, Leq, Gtr, Geq}, {Add, Sub}, {Mul, Quo, Rem}]

  function Tier(op: Operator): (t: nat)
    ensures 1 <= t <= 5 && op in TIERS[t - 1]
    ensures forall k :: 0 <= k < 5 && op in TIERS[k] ==> k == t - 1
  {
    if op in TIERS[4] then 5
    else if op in TIERS[3] then 4
    else if op in TIERS[2] then 3
    else if op in TIERS[1] then 2
    else assert op.Lor?; 1
  }

  /** The translator's table puts every operator into its tier. */
  lemma PriorityIsTier()
    ensures forall op: Operator :: Priority(op) == Tier(op)
  {
  }

  function Level(p: Phrase): nat {
    if p.Infix? then Tier(p.op) else 6
  }

  /** At least the parentheses that the tiers of the language and left associativity
      require: a left operand binds at least as tightly as its operator, a right
      operand strictly more tightly. Redundant parentheses are allowed. */
  predicate WellFormed(p: Phrase) {
    match p
    case Atom(leaf) => !leaf.Binary?
    case Group(inner) => WellFormed(inner)
    case Infix(op, l, r) =>
      WellFormed(l) && WellFormed(r) && Level(l) >= Tier(op) && Level(r) > Tier(op)
  }

  function Spell(p: Phrase): (ts: seq<Token>)
    requires WellFormed(p)
  {
    match p
    case Atom(leaf) => Postorder(leaf)
    case Group(inner) => [LParen] + Spell(inner) + [RParen]
    case Infix(op, l, r) => Spell(l) + [Oper(op)] + Spell(r)
  }

  /** The tree a phrase stands for: the parentheses are forgotten. */
  function Tree(p: Phrase): Expr {
    match p
    case Atom(leaf) => leaf
    case Group(inner) => Tree(inner)
    case Infix(op, l, r) => Binary(op, Tree(l), Tree(r))
  }

  /** Writes a tree with no parenthesis that could be left out. */
  function Print(e: Expr): (p: Phrase)
    ensures WellFormed(p) && Tree(p) == e
  {
    match e
    case Binary(op, l, r) =>
      var pl, pr := Print(l), Print(r);
      Infix(op,
            if Level(pl) >= Tier(op) then pl else Group(pl),
            if Level(pr) > Tier(op) then pr else Group(pr))
    case _ => Atom(e)
  }

  /** No way to write the tree of a phrase is shorter than the printed one, and none of
      its length is another; a phrase in parens has two tokens more at least. */
  predicate PrintsShortest(p: Phrase)
    requires WellFormed(p)
  {
    var shortest := Print(Tree(p));
    if p.Group? then
      |Spell(shortest)| + 2 <= |Spell(p)| && (|Spell(shortest)| + 2 == |Spell(p)| ==> p.inner == shortest)
    else
      |Spell(shortest)| <= |Spell(p)| && (|Spell(shortest)| == |Spell(p)| ==> p == shortest)
  }

  lemma {:induction false} PrintIsShortest(p: Phrase)
    requires WellFormed(p)
    ensures PrintsShortest(p)
  {
    match p
    case Atom(_) =>
    case Group(inner) =>
      PrintIsShortest(inner);
    case Infix(op, l, r) =>
      PrintIsShortest(l);
      PrintIsShortest(r);
      OperandIsShortest(l, Tier(op));
      OperandIsShortest(r, Tier(op) + 1);
  }

  /** An operand, with a paren around it if it binds too loosely. */
  function Operand(e: Expr, level: nat): Phrase {
    if Level(Print(e)) >= level then Print(e) else Group(Print(e))
  }

  lemma OperandIsShortest(p: Phrase, level: nat)
    requires WellFormed(p) && Level(p) >= level && PrintsShortest(p)
    ensures |Spell(Operand(Tree(p), level))| <= |Spell(p)|
    ensures |Spell(Operand(Tree(p), level))| == |Spell(p)| ==> p == Operand(Tree(p), level)
  {
  }

  /** The tokens the translator pays attention to. */
  function Significant(tokens: seq<Token>): seq<Token> {
    Filter(tokens, (t: Token) => t != Other)
  }
}
