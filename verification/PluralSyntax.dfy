/** The plural-form language of the bundled gettext: abstract syntax, the tokens the lexer
    delivers, and the precedence grammar of the language as concrete trees. */
module PluralSyntax {

  /** `unsigned long int` of the platform; 64 bits wide here. */
  const ULONG_LIMIT: nat := 0x1_0000_0000_0000_0000

  type Ulong = n: nat | n < ULONG_LIMIT

  datatype BinOp =
    | Mult | Divide | Module | Plus | Minus
    | LessThan | GreaterThan | LessOrEqual | GreaterOrEqual
    | Equal | NotEqual | Land | Lor

  /** `struct expression`: what the parser builds and `plural_eval` walks. */
  datatype Exp =
    | Var
    | Num(value: Ulong)
    | Lnot(arg: Exp)
    | Binary(op: BinOp, left: Exp, right: Exp)
    | Qmop(cond: Exp, tbranch: Exp, fbranch: Exp)

  /** Binding strength of a binary operator; `?:` is 0 and everything unary or atomic is 7. */
  function OpLevel(op: BinOp): (level: nat)
    ensures 1 <= level <= 6
  {
    match op
    case Lor => 1
    case Land => 2
    case Equal | NotEqual => 3
    case LessThan | GreaterThan | LessOrEqual | GreaterOrEqual => 4
    case Plus | Minus => 5
    case Mult | Divide | Module => 6
  }

  /** A token other than end of input. `Error` stands for YYERRCODE. */
  datatype Token =
    | Error | Question | Op(op: BinOp) | Bang | Number(value: Ulong) | Colon | N | Open | Close

  /** The parser's internal number of a token (after YYTRANSLATE). */
  function TokenCode(t: Token): (code: nat)
    ensures 1 <= code < 16
  {
    match t
    case Error => 1
    case Question => 3
    case Op(op) => 3 + OpLevel(op)
    case Bang => 10
    case Number(_) => 11
    case Colon => 12
    case N => 13
    case Open => 14
    case Close => 15
  }

  /** Number of the lookahead symbol; 0 is end of input. */
  function Lookahead(input: seq<Token>): (code: nat)
    ensures code < 16
    ensures code == 0 <==> input == []
  {
    if input == [] then 0 else TokenCode(input[0])
  }

  /** Concrete syntax: an expression together with the parentheses written in it. */
  datatype Tree =
    | TVar
    | TNum(value: Ulong)
    | TNot(arg: Tree)
    | TParen(inner: Tree)
    | TBinary(op: BinOp, left: Tree, right: Tree)
    | TCond(cond: Tree, tbranch: Tree, fbranch: Tree)

  function Level(t: Tree): (level: nat)
    ensures level <= 7
  {
    match t
    case TCond(_, _, _) => 0
    case TBinary(op, _, _) => OpLevel(op)
    case _ => 7
  }

  /** The precedence grammar: `?:` lowest and right-associative, the binary operators
      left-associative in six levels, `!` tightest. */
  predicate WellFormed(t: Tree) {
    match t
    case TVar => true
    case TNum(_) => true
    case TNot(a) => WellFormed(a) && Level(a) == 7
    case TParen(a) => WellFormed(a)
    case TBinary(op, l, r) => WellFormed(l) && WellFormed(r) && Level(l) >= OpLevel(op) && Level(r) > OpLevel(op)
    case TCond(c, a, b) => WellFormed(c) && WellFormed(a) && WellFormed(b) && Level(c) >= 1
  }

  /** The tokens a tree is written with. */
  function Yield(t: Tree): (ts: seq<Token>)
    ensures ts != []
  {
    match t
    case TVar => [N]
    case TNum(n) => [Number(n)]
    case TNot(a) => [Bang] + Yield(a)
    case TParen(a) => [Open] + Yield(a) + [Close]
    case TBinary(op, l, r) => Yield(l) + [Op(op)] + Yield(r)
    case TCond(c, a, b) => Yield(c) + [Question] + Yield(a) + [Colon] + Yield(b)
  }

  /** The expression a tree denotes. */
  function Ast(t: Tree): Exp {
    match t
    case TVar => Var
    case TNum(n) => Num(n)
    case TNot(a) => Lnot(Ast(a))
    case TParen(a) => Ast(a)
    case TBinary(op, l, r) => Binary(op, Ast(l), Ast(r))
    case TCond(c, a, b) => Qmop(Ast(c), Ast(a), Ast(b))
  }

  function Max(a: nat, b: nat): nat { if a < b then b else a }

  /** How many stack entries parsing the tree needs above those already there. */
  function Depth(t: Tree): (d: nat)
    ensures d >= 1
  {
    match t
    case TVar => 1
    case TNum(_) => 1
    case TNot(a) => 1 + Depth(a)
    case TParen(a) => Max(1 + Depth(a), 3)
    case TBinary(_, l, r) => Max(Depth(l), 2 + Depth(r))
    case TCond(c, a, b) => Max(Depth(c), Max(2 + Depth(a), 4 + Depth(b)))
  }
}
