/** The hand-written lexer of plural expressions: what the rest of a text means as tokens, and the
    lexer that advances a pointer through it. */
module PluralLexer {
  import opened PluralSyntax
  import opened PluralTables
  import opened PluralMachine
  import opened Wrappers

  const YYEOF := 0
  const YYERRCODE := 256
  const EQUOP2 := 257
  const CMPOP2 := 258
  const ADDOP2 := 259
  const MULOP2 := 260
  const NUMBER := 261

  /** YYSTYPE: the semantic value of a symbol. */
  datatype YyVal = VNone | VNum(num: Ulong) | VOp(op: BinOp) | VExp(exp: Exp)

  predicate IsDigit(c: char) { '0' <= c <= '9' }

  function DigitValue(c: char): nat
    requires IsDigit(c)
  {
    c as int - '0' as int
  }

  /** The first character of a C string; NUL at its end. */
  function Head(s: string): char {
    if s == [] then '\0' else s[0]
  }

  /** `n * 10 + d` in unsigned arithmetic. */
  function AppendDigit(n: Ulong, d: nat): Ulong {
    ((n * 10) % ULONG_LIMIT + d) % ULONG_LIMIT
  }

  /** Value of the digits at the start of `s` appended to `n`, and what follows them. */
  function LexNumber(n: Ulong, s: string): (Ulong, string)
    decreases |s|
  {
    if IsDigit(Head(s)) then LexNumber(AppendDigit(n, DigitValue(s[0])), s[1..]) else (n, s)
  }

  lemma LexNumberShrinks(n: Ulong, s: string)
    ensures |LexNumber(n, s).1| <= |s|
    decreases |s|
  {}

  datatype Lexed = Eof(rest: string) | Lexed(tok: Token, rest: string)

  /** The token that starts with `c`, no digit, and continues with `s`. */
  function SymbolToken(c: char, s: string): (l: Lexed)
    ensures l.Lexed? && |l.rest| <= |s|
  {
    var twice := s != [] && s[0] == c;
    var eq := Head(s) == '=';
    match c
    case '=' => if eq then Lexed(Op(Equal), s[1..]) else Lexed(Error, s)
    case '!' => if eq then Lexed(Op(NotEqual), s[1..]) else Lexed(Bang, s)
    case '&' => if twice then Lexed(Op(Land), s[1..]) else Lexed(Error, s)
    case '|' => if twice then Lexed(Op(Lor), s[1..]) else Lexed(Error, s)
    case '<' => if eq then Lexed(Op(LessOrEqual), s[1..]) else Lexed(Op(LessThan), s)
    case '>' => if eq then Lexed(Op(GreaterOrEqual), s[1..]) else Lexed(Op(GreaterThan), s)
    case '*' => Lexed(Op(Mult), s)
    case '/' => Lexed(Op(Divide), s)
    case '%' => Lexed(Op(Module), s)
    case '+' => Lexed(Op(Plus), s)
    case '-' => Lexed(Op(Minus), s)
    case 'n' => Lexed(N, s)
    case '?' => Lexed(Question, s)
    case ':' => Lexed(Colon, s)
    case '(' => Lexed(Open, s)
    case ')' => Lexed(Close, s)
    case _ => Lexed(Error, s)
  }

  predicate IsBlank(c: char) { c == ' ' || c == '\t' }

  predicate IsEnd(c: char) { c == '\0' || c == ';' || c == '\n' }

  /** The token at the start of `s`. */
  function NextToken(s: string): Lexed {
    var c := Head(s);
    if IsEnd(c) then Eof(s)
    else if IsBlank(c) then NextToken(s[1..])
    else if IsDigit(c) then
      var (n, rest) := LexNumber(DigitValue(c), s[1..]);
      Lexed(Number(n), rest)
    else SymbolToken(c, s[1..])
  }

  lemma NextTokenShrinks(s: string)
    ensures NextToken(s).Lexed? ==> |NextToken(s).rest| < |s|
  {
    if IsBlank(Head(s)) {
      NextTokenShrinks(s[1..]);
    } else if IsDigit(Head(s)) {
      LexNumberShrinks(DigitValue(s[0]), s[1..]);
    }
  }

  /** All tokens up to the end of the expression. */
  function Tokens(s: string): seq<Token>
    decreases |s|
  {
    NextTokenShrinks(s);
    match NextToken(s)
    case Eof(_) => []
    case Lexed(tok, rest) => [tok] + Tokens(rest)
  }

  /** The value the lexer leaves for a token. `||` and `&&` leave none. */
  predicate Carries(v: YyVal, tok: Token) {
    match tok
    case Number(n) => v == VNum(n)
    case Op(op) => OpLevel(op) >= 3 ==> v == VOp(op)
    case _ => true
  }

  /** `struct parse_args`: the position in the text and where the parser puts its result. */
  class ParseArgs {
    const text: string
    var cp: nat
    var res: Option<Exp>

    constructor (text: string)
      ensures this.text == text && cp == 0 && res == None
    {
      this.text := text;
      cp, res := 0, None;
    }

    ghost predicate Valid()
      reads this
    {
      cp <= |text|
    }

    /** What the lexer has not read yet. */
    ghost function Rest(): string
      reads this
      requires Valid()
    {
      text[cp..]
    }

    function At(i: nat): char {
      if i < |text| then text[i] else '\0'
    }

    /** The digit case of the lexer: reads the digits that follow `c`. */
    method ReadNumber(c: char, start: nat) returns (n: Ulong, exp: nat)
      requires start <= |text| && IsDigit(c)
      ensures exp <= |text| && (n, text[exp..]) == LexNumber(DigitValue(c), text[start..])
    {
      n, exp := DigitValue(c), start;
      while IsDigit(At(exp))
        invariant exp <= |text|
        invariant LexNumber(n, text[exp..]) == LexNumber(DigitValue(c), text[start..])
        decreases |text| - exp
      {
        assert text[exp..][1..] == text[exp + 1..];
        n := AppendDigit(n, DigitValue(At(exp)));
        exp := exp + 1;
      }
    }

    /** The other cases of the lexer: the symbol that starts with `c`, before position `start`. */
    method ReadSymbol(c: char, start: nat, lval: YyVal) returns (result: int, exp: nat, lval': YyVal)
      requires start <= |text| && c != '\0'
      ensures exp <= |text| && result > 0 && text[exp..] == SymbolToken(c, text[start..]).rest
      ensures YyTranslate(result) == TokenCode(SymbolToken(c, text[start..]).tok)
      ensures Carries(lval', SymbolToken(c, text[start..]).tok)
    {
      result, exp, lval' := c as int, start, lval;
      assert start < |text| ==> text[start..][1..] == text[start + 1..];
      match c {
        case '=' =>
          if At(exp) == '=' {
            exp, lval', result := exp + 1, VOp(Equal), EQUOP2;
          } else {
            result := YYERRCODE;
          }
        case '!' =>
          if At(exp) == '=' {
            exp, lval', result := exp + 1, VOp(NotEqual), EQUOP2;
          }
        case '&' | '|' =>
          if At(exp) == c {
            exp := exp + 1;
          } else {
            result := YYERRCODE;
          }
        case '<' =>
          if At(exp) == '=' {
            exp, lval' := exp + 1, VOp(LessOrEqual);
          } else {
            lval' := VOp(LessThan);
          }
          result := CMPOP2;
        case '>' =>
          if At(exp) == '=' {
            exp, lval' := exp + 1, VOp(GreaterOrEqual);
          } else {
            lval' := VOp(GreaterThan);
          }
          result := CMPOP2;
        case '*' => lval', result := VOp(Mult), MULOP2;
        case '/' => lval', result := VOp(Divide), MULOP2;
        case '%' => lval', result := VOp(Module), MULOP2;
        case '+' => lval', result := VOp(Plus), ADDOP2;
        case '-' => lval', result := VOp(Minus), ADDOP2;
        case 'n' | '?' | ':' | '(' | ')' =>
        case _ => result := YYERRCODE;
      }
    }

    /** `yylex`: reads one token, leaving `lval` as it was if the token has no value. */
    method Yylex(lval: YyVal) returns (result: int, lval': YyVal)
      requires Valid()
      modifies this`cp
      ensures Valid()
      ensures match NextToken(old(Rest()))
              case Eof(rest) => result == YYEOF && Rest() == rest && lval' == lval
              case Lexed(tok, rest) =>
                result > 0 && YyTranslate(result) == TokenCode(tok) && Rest() == rest && Carries(lval', tok)
    {
      var exp := cp;
      while At(exp) == ' ' || At(exp) == '\t'
        invariant cp <= exp <= |text|
        invariant NextToken(text[exp..]) == NextToken(old(Rest()))
        decreases |text| - exp
      {
        assert text[exp..][1..] == text[exp + 1..];
        exp := exp + 1;
      }
      var c := At(exp);
      assert Head(text[exp..]) == c;
      if c == '\0' || c == ';' || c == '\n' {
        cp := exp;
        return YYEOF, lval;
      }
      assert text[exp..][1..] == text[exp + 1..];
      exp := exp + 1;
      if IsDigit(c) {
        var n;
        n, exp := ReadNumber(c, exp);
        result, lval' := NUMBER, VNum(n);
      } else {
        result, exp, lval' := ReadSymbol(c, exp, lval);
      }
      cp := exp;
    }
  }
}
