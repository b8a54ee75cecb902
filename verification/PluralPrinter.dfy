/** Writing expressions with minimal parentheses, and the round trip through lexer and parser. */
module PluralPrinter {
  import opened PluralSyntax
  import opened PluralTables
  import opened PluralMachine
  import opened PluralLexer
  import opened PluralCompleteness

  // ----- expressions to trees

  /** The tree of an expression for a context that wants strength `level`: a parenthesis only
      where the precedence grammar needs one. */
  function Conc(e: Exp, level: nat): (t: Tree)
    requires level <= 7
    ensures WellFormed(t) && Level(t) >= level && Ast(t) == e
    decreases e, level
  {
    match e
    case Var => TVar
    case Num(n) => TNum(n)
    case Lnot(a) => TNot(Conc(a, 7))
    case Binary(op, l, r) =>
      var t := TBinary(op, Conc(l, OpLevel(op)), Conc(r, OpLevel(op) + 1));
      if OpLevel(op) < level then TParen(t) else t
    case Qmop(c, a, b) =>
      var t := TCond(Conc(c, 1), Conc(a, 0), Conc(b, 0));
      if 0 < level then TParen(t) else t
  }

  lemma {:induction false} WeakerContextIsShorter(e: Exp, level: nat)
    requires level <= 7
    ensures |Yield(Conc(e, 0))| <= |Yield(Conc(e, level))| <= |Yield(Conc(e, 0))| + 2
  {
  }

  /** No tree of the grammar writes the expression with fewer tokens. */
  lemma {:induction false} ConcIsMinimal(t: Tree, level: nat)
    requires WellFormed(t) && level <= Level(t)
    ensures |Yield(Conc(Ast(t), level))| <= |Yield(t)|
    decreases t
  {
    match t
    case TVar =>
    case TNum(_) =>
    case TNot(a) => ConcIsMinimal(a, 7);
    case TParen(a) =>
      ConcIsMinimal(a, 0);
      WeakerContextIsShorter(Ast(a), level);
    case TBinary(op, l, r) =>
      ConcIsMinimal(l, OpLevel(op));
      ConcIsMinimal(r, OpLevel(op) + 1);
    case TCond(c, a, b) =>
      ConcIsMinimal(c, 1);
      ConcIsMinimal(a, 0);
      ConcIsMinimal(b, 0);
  }

  // ----- numbers

  function DigitChar(d: nat): (c: char)
    requires d < 10
    ensures IsDigit(c) && DigitValue(c) == d
  {
    '0' + d as char
  }

  function Digits(n: nat): (ds: string)
    ensures ds != [] && forall c | c in ds :: IsDigit(c)
  {
    if n < 10 then [DigitChar(n)] else Digits(n / 10) + [DigitChar(n % 10)]
  }

  /** The digits `ds` appended to `n`. */
  function Fold(n: Ulong, ds: string): Ulong
    requires forall c | c in ds :: IsDigit(c)
    decreases |ds|
  {
    if ds == [] then n else Fold(AppendDigit(n, DigitValue(ds[0])), ds[1..])
  }

  lemma {:induction false} FoldAppend(n: Ulong, ds: string, c: char)
    requires IsDigit(c) && forall x | x in ds :: IsDigit(x)
    ensures Fold(n, ds + [c]) == AppendDigit(Fold(n, ds), DigitValue(c))
    decreases |ds|
  {
    if ds != [] {
      assert (ds + [c])[1..] == ds[1..] + [c];
      FoldAppend(AppendDigit(n, DigitValue(ds[0])), ds[1..], c);
    }
  }

  lemma AppendLastDigit(n: Ulong)
    ensures AppendDigit(n / 10, n % 10) == n
    ensures n < 10 ==> AppendDigit(0, n) == n
  {
  }

  lemma {:induction false} DigitsValue(n: Ulong)
    ensures Fold(0, Digits(n)) == n
  {
    AppendLastDigit(n);
    if n < 10 {
      assert Digits(n)[1..] == [];
      assert Fold(0, Digits(n)) == Fold(AppendDigit(0, n), []);
    } else {
      DigitsValue(n / 10);
      FoldAppend(0, Digits(n / 10), DigitChar(n % 10));
    }
  }

  lemma {:induction false} LexDigits(n: Ulong, ds: string, rest: string)
    requires forall c | c in ds :: IsDigit(c)
    requires !IsDigit(Head(rest))
    ensures LexNumber(n, ds + rest) == (Fold(n, ds), rest)
    decreases |ds|
  {
    if ds == [] {
      assert ds + rest == rest;
    } else {
      assert (ds + rest)[1..] == ds[1..] + rest;
      LexDigits(AppendDigit(n, DigitValue(ds[0])), ds[1..], rest);
    }
  }

  // ----- tokens to text

  function SpellOp(op: BinOp): string {
    match op
    case Mult => "*" case Divide => "/" case Module => "%" case Plus => "+" case Minus => "-"
    case LessThan => "<" case GreaterThan => ">" case LessOrEqual => "<=" case GreaterOrEqual => ">="
    case Equal => "==" case NotEqual => "!=" case Land => "&&" case Lor => "||"
  }

  function Spell(t: Token): string
    requires t != Error
  {
    match t
    case Question => "?"
    case Op(op) => SpellOp(op)
    case Bang => "!"
    case Number(n) => Digits(n)
    case Colon => ":"
    case N => "n"
    case Open => "("
    case Close => ")"
  }

  predicate StartsOperand(t: Token) { t == N || t.Number? || t == Bang || t == Open }

  predicate EndsOperand(t: Token) { t == N || t.Number? || t == Close }

  /** An operand and an operator alternate, so their spellings never run together. */
  predicate Alternates(a: Token, b: Token) {
    a != Error && b != Error && (EndsOperand(a) <==> !StartsOperand(b))
  }

  predicate Chain(ts: seq<Token>) {
    Error !in ts && forall i | 0 <= i < |ts| - 1 :: Alternates(ts[i], ts[i + 1])
  }

  lemma ChainJoin(a: seq<Token>, b: seq<Token>)
    requires Chain(a) && Chain(b) && a != [] && b != [] && Alternates(a[|a| - 1], b[0])
    ensures Chain(a + b) && (a + b)[0] == a[0] && (a + b)[|a + b| - 1] == b[|b| - 1]
  {
  }

  lemma ChainOne(t: Token)
    requires t != Error
    ensures Chain([t])
  {
  }

  /** A chain that can stand where an operand can. */
  predicate Whole(ts: seq<Token>) {
    Chain(ts) && ts != [] && StartsOperand(ts[0]) && EndsOperand(ts[|ts| - 1])
  }

  lemma WholeOne(t: Token)
    requires t == N || t.Number?
    ensures Whole([t])
  {
    ChainOne(t);
  }

  lemma WholeNot(a: seq<Token>)
    requires Whole(a)
    ensures Whole([Bang] + a)
  {
    hide Chain;
    ChainOne(Bang);
    ChainJoin([Bang], a);
  }

  lemma WholeParen(a: seq<Token>)
    requires Whole(a)
    ensures Whole([Open] + a + [Close])
  {
    hide Chain;
    ChainOne(Open);
    ChainOne(Close);
    ChainJoin([Open], a);
    ChainJoin([Open] + a, [Close]);
  }

  lemma WholeBinary(l: seq<Token>, op: Token, r: seq<Token>)
    requires Whole(l) && Whole(r) && (op.Op? || op == Question || op == Colon)
    ensures Whole(l + [op] + r)
  {
    hide Chain;
    ChainOne(op);
    ChainJoin(l, [op]);
    ChainJoin(l + [op], r);
  }

  lemma {:induction false} YieldIsWhole(t: Tree)
    ensures Whole(Yield(t))
  {
    hide Whole;
    match t
    case TVar => WholeOne(N);
    case TNum(n) => WholeOne(Number(n));
    case TNot(a) =>
      YieldIsWhole(a);
      WholeNot(Yield(a));
    case TParen(a) =>
      YieldIsWhole(a);
      WholeParen(Yield(a));
    case TBinary(op, l, r) =>
      YieldIsWhole(l);
      YieldIsWhole(r);
      WholeBinary(Yield(l), Op(op), Yield(r));
    case TCond(c, a, b) =>
      YieldIsWhole(c);
      YieldIsWhole(a);
      YieldIsWhole(b);
      WholeBinary(Yield(c), Question, Yield(a));
      WholeBinary(Yield(c) + [Question] + Yield(a), Colon, Yield(b));
  }

  lemma YieldIsChain(t: Tree)
    ensures Chain(Yield(t)) && StartsOperand(Yield(t)[0]) && EndsOperand(Yield(t)[|Yield(t)| - 1])
  {
    YieldIsWhole(t);
  }

  predicate Blank(s: string) { forall c | c in s :: IsBlank(c) }

  /** The tokens written one after another, `pads[i]` before token i, then the last pad and `tail`. */
  function Render(ts: seq<Token>, pads: seq<string>, tail: string): string
    requires |pads| == |ts| + 1 && Error !in ts
  {
    pads[0] + if ts == [] then tail else Spell(ts[0]) + Render(ts[1..], pads[1..], tail)
  }

  predicate ValidPads(pads: seq<string>, n: nat) {
    |pads| == n + 1 && forall p | p in pads :: Blank(p)
  }

  lemma {:induction false} SkipPad(pad: string, s: string)
    requires Blank(pad)
    ensures NextToken(pad + s) == NextToken(s)
    decreases |pad|
  {
    if pad == [] {
      assert pad + s == s;
    } else {
      assert (pad + s)[1..] == pad[1..] + s;
      assert IsBlank(pad[0]) && Head(pad + s) == pad[0];
      SkipPad(pad[1..], s);
    }
  }

  /** First characters that would run into a preceding token. */
  predicate Detached(t: Token, rest: string) {
    && (t.Number? ==> !IsDigit(Head(rest)))
    && (t == Bang || t == Op(LessThan) || t == Op(GreaterThan) ==> Head(rest) != '=')
  }

  lemma LexSpelledNumber(n: Ulong, rest: string)
    requires !IsDigit(Head(rest))
    ensures NextToken(Digits(n) + rest) == Lexed(Number(n), rest)
  {
    var ds := Digits(n);
    var c, tail := ds[0], ds[1..];
    assert ds == [c] + tail && c in ds && forall x | x in tail :: x in ds;
    assert (ds + rest)[1..] == tail + rest && Head(ds + rest) == c;
    LexDigits(DigitValue(c), tail, rest);
    DigitsValue(n);
    AppendLastDigit(DigitValue(c));
    assert Fold(0, ds) == Fold(DigitValue(c), tail);
  }

  lemma LexSpelledOp(op: BinOp, rest: string)
    requires Detached(Op(op), rest)
    ensures NextToken(SpellOp(op) + rest) == Lexed(Op(op), rest)
  {
    var s := SpellOp(op) + rest;
    if |SpellOp(op)| == 1 {
      assert s[1..] == rest;
    } else {
      assert s[1..][1..] == rest && s[1..][0] == SpellOp(op)[1];
    }
  }

  lemma LexSpelling(t: Token, rest: string)
    requires t != Error && Detached(t, rest)
    ensures NextToken(Spell(t) + rest) == Lexed(t, rest)
  {
    if t.Number? {
      LexSpelledNumber(t.value, rest);
    } else if t.Op? {
      LexSpelledOp(t.op, rest);
    } else {
      assert (Spell(t) + rest)[1..] == rest;
    }
  }

  lemma RenderHead(ts: seq<Token>, pads: seq<string>, tail: string, t: Token)
    requires ValidPads(pads, |ts|) && Chain([t] + ts) && IsEnd(Head(tail))
    ensures Error !in ts && Detached(t, Render(ts, pads, tail))
  {
    assert Error !in ts by {
      assert forall x | x in ts :: x in [t] + ts;
    }
    var s := Render(ts, pads, tail);
    if pads[0] != [] {
      assert Blank(pads[0]) && IsBlank(pads[0][0]) && s[0] == pads[0][0];
    } else if ts == [] {
      assert s == tail;
    } else {
      assert Alternates(([t] + ts)[0], ([t] + ts)[1]);
      if ts[0].Number? {
        assert Spell(ts[0])[0] in Digits(ts[0].value);
      }
      assert s[0] == Spell(ts[0])[0];
    }
  }

  lemma {:induction false} LexRendered(ts: seq<Token>, pads: seq<string>, tail: string)
    requires ValidPads(pads, |ts|) && Chain(ts) && IsEnd(Head(tail))
    ensures Tokens(Render(ts, pads, tail)) == ts
    decreases |ts|
  {
    if ts == [] {
      SkipPad(pads[0], tail);
    } else {
      var rest := Render(ts[1..], pads[1..], tail);
      assert ts == [ts[0]] + ts[1..];
      assert Chain(ts[1..]);
      RenderHead(ts[1..], pads[1..], tail, ts[0]);
      SkipPad(pads[0], Spell(ts[0]) + rest);
      LexSpelling(ts[0], rest);
      LexRendered(ts[1..], pads[1..], tail);
    }
  }

  /** Tokens in which operands and operators alternate are read back, whatever spaces and tabs stand between them, up
      to the end of the text, a NUL, a semicolon or a newline. */
  lemma LexRendering(ts: seq<Token>, pads: seq<string>, tail: string)
    requires |pads| == |ts| + 1 && forall p, c | p in pads && c in p :: c == ' ' || c == '\t'
    requires Chain(ts) && (tail == "" || tail[0] == '\0' || tail[0] == ';' || tail[0] == '\n')
    ensures Tokens(Render(ts, pads, tail)) == ts
  {
    LexRendered(ts, pads, tail);
  }

  /** Round trip: an expression written with minimal parentheses, in any layout of spaces and tabs and followed by the
      end of the text, a NUL, a semicolon or a newline, is parsed back to itself. */
  lemma PrintParse(e: Exp, pads: seq<string>, tail: string)
    requires |pads| == |Yield(Conc(e, 0))| + 1 && forall p, c | p in pads && c in p :: c == ' ' || c == '\t'
    requires tail == "" || tail[0] == '\0' || tail[0] == ';' || tail[0] == '\n'
    requires 1 + Depth(Conc(e, 0)) < 10000
    ensures Chain(Yield(Conc(e, 0)))
    ensures var o := Parse(Tokens(Render(Yield(Conc(e, 0)), pads, tail)), 10000);
            o.Accepted? && Ast(o.tree) == e
  {
    YieldIsChain(Conc(e, 0));
    LexRendering(Yield(Conc(e, 0)), pads, tail);
    ParseYield(Conc(e, 0), 10000);
  }

  /** `text` is an expression written that way, and its tree fits the stacks. */
  ghost predicate Writes(text: string, e: Exp) {
    YieldIsChain(Conc(e, 0));
    && 1 + Depth(Conc(e, 0)) < 10000
    && exists pads: seq<string>, tail: string ::
         && |pads| == |Yield(Conc(e, 0))| + 1 && (forall p, c | p in pads && c in p :: c == ' ' || c == '\t')
         && (tail == "" || tail[0] == '\0' || tail[0] == ';' || tail[0] == '\n')
         && text == Render(Yield(Conc(e, 0)), pads, tail)
  }

  lemma WrittenParses(text: string, e: Exp)
    requires Writes(text, e)
    ensures var o := Parse(Tokens(text), 10000); o.Accepted? && Ast(o.tree) == e
  {
    YieldIsChain(Conc(e, 0));
    var pads: seq<string>, tail: string :|
      && |pads| == |Yield(Conc(e, 0))| + 1 && (forall p, c | p in pads && c in p :: c == ' ' || c == '\t')
      && (tail == "" || tail[0] == '\0' || tail[0] == ';' || tail[0] == '\n')
      && text == Render(Yield(Conc(e, 0)), pads, tail);
    PrintParse(e, pads, tail);
  }

  // ----- every text without an error is written so

  /** How a token can be written: a number with any digits of its value, any other in one way. */
  predicate SpelledAs(t: Token, w: string) {
    t != Error && if t.Number? then w != "" && (forall c | c in w :: '0' <= c <= '9') && Fold(0, w) == t.value
      else w == Spell(t)
  }

  /** The words one after another, `pads[i]` before word i, then the last pad and `tail`. */
  function Written(words: seq<string>, pads: seq<string>, tail: string): string
    requires |pads| == |words| + 1
  {
    pads[0] + if words == [] then tail else words[0] + Written(words[1..], pads[1..], tail)
  }

  /** The blanks at the start of a text. */
  function Blanks(s: string): nat {
    if s != "" && (s[0] == ' ' || s[0] == '\t') then 1 + Blanks(s[1..]) else 0
  }

  lemma {:induction false} BlanksMeaning(s: string)
    ensures var k := Blanks(s);
      && k <= |s| && (forall c | c in s[..k] :: c == ' ' || c == '\t') && NextToken(s) == NextToken(s[k..])
      && !IsBlank(Head(s[k..]))
    decreases |s|
  {
    if s != "" && IsBlank(s[0]) {
      BlanksMeaning(s[1..]);
      var k := Blanks(s[1..]);
      assert s[..k + 1] == [s[0]] + s[1..][..k] && s[k + 1..] == s[1..][k..];
    } else {
      assert s[0..] == s && s[..0] == "";
    }
  }

  lemma {:induction false} NumberIsWritten(n: Ulong, s: string) returns (ds: string)
    ensures var (m, rest) := LexNumber(n, s);
      (forall c | c in ds :: '0' <= c <= '9') && s == ds + rest && Fold(n, ds) == m
    decreases |s|
  {
    if IsDigit(Head(s)) {
      var more := NumberIsWritten(AppendDigit(n, DigitValue(s[0])), s[1..]);
      ds := [s[0]] + more;
      assert ds[1..] == more && s == [s[0]] + s[1..];
    } else {
      ds := "";
      assert s == "" + s;
    }
  }

  lemma SymbolIsWritten(c: char, s: string)
    requires SymbolToken(c, s).tok != Error
    ensures var l := SymbolToken(c, s); !l.tok.Number? && [c] + s == Spell(l.tok) + l.rest
  {
    assert s != "" ==> s == [s[0]] + s[1..];
    var l := SymbolToken(c, s);
    if l.rest == s {
      assert Spell(l.tok) == [c];
    } else {
      assert Spell(l.tok) == [c] + [s[0]];
    }
  }

  lemma TokenIsWritten(s: string) returns (w: string)
    requires !IsBlank(Head(s)) && NextToken(s).Lexed? && NextToken(s).tok != Error
    ensures SpelledAs(NextToken(s).tok, w) && s == w + NextToken(s).rest
  {
    hide SymbolToken, Spell;
    var c := s[0];
    assert s == [c] + s[1..];
    if IsDigit(c) {
      var more := NumberIsWritten(DigitValue(c), s[1..]);
      w := [c] + more;
      AppendLastDigit(DigitValue(c));
      assert w[1..] == more;
      assert s == [c] + (more + NextToken(s).rest);
    } else {
      SymbolIsWritten(c, s[1..]);
      w := Spell(NextToken(s).tok);
    }
  }

  /** The converse: whatever text has tokens without an error spells them, with spaces and tabs between, up to the end
      of the text, a NUL, a semicolon or a newline. */
  lemma {:induction false} TextIsWritten(s: string) returns (words: seq<string>, pads: seq<string>, tail: string)
    requires Error !in Tokens(s)
    ensures |words| == |Tokens(s)| && forall i | 0 <= i < |words| :: SpelledAs(Tokens(s)[i], words[i])
    ensures |pads| == |words| + 1 && forall p, c | p in pads && c in p :: c == ' ' || c == '\t'
    ensures tail == "" || tail[0] == '\0' || tail[0] == ';' || tail[0] == '\n'
    ensures s == Written(words, pads, tail)
    decreases |s|
  {
    var k := Blanks(s);
    BlanksMeaning(s);
    NextTokenShrinks(s);
    NextTokenShrinks(s[k..]);
    assert s == s[..k] + s[k..];
    match NextToken(s)
    case Eof(_) =>
      words, pads, tail := [], [s[..k]], s[k..];
    case Lexed(tok, rest) =>
      var w := TokenIsWritten(s[k..]);
      assert tok == Tokens(s)[0] && forall t | t in Tokens(rest) :: t in Tokens(s);
      var words', pads', tail' := TextIsWritten(rest);
      words, pads, tail := [w] + words', [s[..k]] + pads', tail';
      assert words[1..] == words' && pads[1..] == pads';
      forall i | 0 <= i < |words| ensures SpelledAs(Tokens(s)[i], words[i]) {
        if i > 0 {
          assert Tokens(s)[i] == Tokens(rest)[i - 1];
        }
      }
  }
}
