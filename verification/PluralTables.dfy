/** The tables Bison generated for the plural-form grammar, entry by entry, and what they encode. */
module PluralTables {

  const YYFLAG := -32768
  const YYFINAL := 27
  const YYLAST := 53
  const YYNTBASE := 16
  const YYTERROR := 1

  /** A parser state; 27 is the final state, which is never entered. */
  type State = s: nat | s < 28

  /** Token number of a value returned by the lexer (YYTRANSLATE). */
  function YyTranslate(c: int): int {
    match c
    case 0 => 0 case 33 => 10 case 38 => 5 case 40 => 14 case 41 => 15 case 58 => 12
    case 63 => 3 case 110 => 13 case 124 => 4 case 256 => 1 case 257 => 6 case 258 => 7
    case 259 => 8 case 260 => 9 case 261 => 11
    case _ => if 0 <= c <= 261 then 2 else 18
  }

  /** Left-hand side of each rule. */
  function YyR1(i: nat): int
    requires i < 13
  {
    match i
    case 0 => 0 case 1 => 16 case 2 => 17 case 3 => 17 case 4 => 17 case 5 => 17
    case 6 => 17 case 7 => 17 case 8 => 17 case 9 => 17 case 10 => 17 case 11 => 17
    case _ => 17
  }

  /** Length of the right-hand side of each rule. */
  function YyR2(i: nat): int
    requires i < 13
  {
    match i
    case 0 => 0 case 1 => 1 case 2 => 5 case 3 => 3 case 4 => 3 case 5 => 3
    case 6 => 3 case 7 => 3 case 8 => 3 case 9 => 2 case 10 => 1 case 11 => 1
    case _ => 3
  }

  /** Default rule of each state; 0 is an error. */
  function YyDefact(i: nat): int
    requires i < 28
  {
    match i
    case 0 => 0 case 1 => 0 case 2 => 11 case 3 => 10 case 4 => 0 case 5 => 1
    case 6 => 9 case 7 => 0 case 8 => 0 case 9 => 0 case 10 => 0 case 11 => 0
    case 12 => 0 case 13 => 0 case 14 => 0 case 15 => 12 case 16 => 0 case 17 => 3
    case 18 => 4 case 19 => 5 case 20 => 6 case 21 => 7 case 22 => 8 case 23 => 0
    case 24 => 2 case 25 => 0 case 26 => 0 case _ => 0
  }

  /** Offset of each state into the packed tables. */
  function YyPact(i: nat): int
    requires i < 28
  {
    match i
    case 0 => -9 case 1 => -9 case 2 => YYFLAG case 3 => YYFLAG case 4 => -9 case 5 => 34
    case 6 => YYFLAG case 7 => 11 case 8 => -9 case 9 => -9 case 10 => -9 case 11 => -9
    case 12 => -9 case 13 => -9 case 14 => -9 case 15 => YYFLAG case 16 => 24 case 17 => 39
    case 18 => 43 case 19 => 16 case 20 => 26 case 21 => -3 case 22 => YYFLAG case 23 => -9
    case 24 => 34 case 25 => 21 case 26 => 53 case _ => YYFLAG
  }

  /** Packed actions and gotos. */
  function YyTable(i: nat): int
    requires i < 54
  {
    match i
    case 0 => 6 case 1 => 1 case 2 => 2 case 3 => 7 case 4 => 3 case 5 => 4
    case 6 => 14 case 7 => 16 case 8 => 17 case 9 => 18 case 10 => 19 case 11 => 20
    case 12 => 21 case 13 => 22 case 14 => 8 case 15 => 9 case 16 => 10 case 17 => 11
    case 18 => 12 case 19 => 13 case 20 => 14 case 21 => 26 case 22 => 24 case 23 => 12
    case 24 => 13 case 25 => 14 case 26 => 15 case 27 => 8 case 28 => 9 case 29 => 10
    case 30 => 11 case 31 => 12 case 32 => 13 case 33 => 14 case 34 => 13 case 35 => 14
    case 36 => 23 case 37 => 8 case 38 => 9 case 39 => 10 case 40 => 11 case 41 => 12
    case 42 => 13 case 43 => 14 case 44 => 10 case 45 => 11 case 46 => 12 case 47 => 13
    case 48 => 14 case 49 => 11 case 50 => 12 case 51 => 13 case 52 => 14 case _ => 27
  }

  /** What an entry of the packed table belongs to. */
  function YyCheck(i: nat): int
    requires i < 54
  {
    match i
    case 0 => 1 case 1 => 10 case 2 => 11 case 3 => 4 case 4 => 13 case 5 => 14
    case 6 => 9 case 7 => 8 case 8 => 9 case 9 => 10 case 10 => 11 case 11 => 12
    case 12 => 13 case 13 => 14 case 14 => 3 case 15 => 4 case 16 => 5 case 17 => 6
    case 18 => 7 case 19 => 8 case 20 => 9 case 21 => 0 case 22 => 23 case 23 => 7
    case 24 => 8 case 25 => 9 case 26 => 15 case 27 => 3 case 28 => 4 case 29 => 5
    case 30 => 6 case 31 => 7 case 32 => 8 case 33 => 9 case 34 => 8 case 35 => 9
    case 36 => 12 case 37 => 3 case 38 => 4 case 39 => 5 case 40 => 6 case 41 => 7
    case 42 => 8 case 43 => 9 case 44 => 5 case 45 => 6 case 46 => 7 case 47 => 8
    case 48 => 9 case 49 => 6 case 50 => 7 case 51 => 8 case 52 => 9 case _ => 0
  }

  function YyDefgoto(i: nat): int
    requires i < 2
  {
    if i == 0 then 25 else 5
  }

  function YyPgoto(i: nat): int
    requires i < 2
  {
    if i == 0 then YYFLAG else -1
  }

  datatype Action = Shift(next: State) | Reduce(rule: nat) | Fail | Accept

  function DefaultAction(s: State): Action {
    if YyDefact(s) == 0 then Fail else Reduce(YyDefact(s))
  }

  /** The table lookup of one parser step, for lookahead number `code`. */
  function ActionOf(s: State, code: nat): Action
    requires code < 16
  {
    if YyPact(s) == YYFLAG then DefaultAction(s)
    else
      var n := YyPact(s) + code;
      if n < 0 || n > YYLAST || YyCheck(n) != code then DefaultAction(s)
      else if YyTable(n) < 0 then
        if YyTable(n) == YYFLAG then Fail else Reduce(-YyTable(n))
      else if YyTable(n) == 0 then Fail
      else if YyTable(n) == YYFINAL then Accept
      else Shift(YyTable(n))
  }

  /** The state entered after reducing by `rule` down to state `s`. */
  function GotoOf(rule: nat, s: State): State
    requires 1 <= rule <= 12
  {
    var lhs := YyR1(rule) - YYNTBASE;
    var n := YyPgoto(lhs) + s;
    if 0 <= n <= YYLAST && YyCheck(n) == s then YyTable(n) else YyDefgoto(lhs)
  }

  // ----- what the tables encode

  /** States in which an operand must come next. */
  predicate NeedsOperand(s: State) { s == 0 || s == 1 || s == 4 || 8 <= s <= 14 || s == 23 }

  /** States whose top symbol is an expression that an operator may extend. */
  predicate AfterExp(s: State) { s == 5 || s == 7 || 16 <= s <= 22 || s == 24 }

  /** In an `AfterExp` state, operators of this strength or more are shifted. */
  function MinLevel(s: State): nat {
    if s == 5 || s == 7 || s == 16 || s == 24 then 0 else if 17 <= s <= 22 then s - 15 else 7
  }

  /** The state entered on an expression. */
  function GotoExp(s: State): State {
    if s == 1 then 6 else if s == 4 then 7 else if 8 <= s <= 14 then s + 8 else if s == 23 then 24 else 5
  }

  /** The operator tokens `?`, `||`, ..., `* / %` have the numbers 3 to 9, weakest first. */
  predicate IsOperator(code: nat) { 3 <= code <= 9 }

  lemma OperandAction(s: State, code: nat)
    requires NeedsOperand(s) && code < 16
    ensures ActionOf(s, code) ==
            if code == 10 then Shift(1) else if code == 11 then Shift(2)
            else if code == 13 then Shift(3) else if code == 14 then Shift(4) else Fail
  {}

  /** Operator precedence: an operator is shifted iff it is at least as strong as the state
      demands, and otherwise the state's rule is reduced. */
  function PrecedenceAction(s: State, code: nat): Action
    requires AfterExp(s) && code < 16
  {
    if IsOperator(code) && code - 3 >= MinLevel(s) then Shift(code + 5)
    else if s == 7 then (if code == 15 then Shift(15) else Fail)
    else if s == 16 then (if code == 12 then Shift(23) else Fail)
    else Reduce(if s == 5 then 1 else if s == 24 then 2 else s - 14)
  }

  lemma ActionBelowOperator(s: State, code: nat)
    requires (s == 5 || s == 7 || s == 16 || s == 24) && code < 16
    ensures ActionOf(s, code) == PrecedenceAction(s, code)
  {}

  lemma ActionAtOperator(s: State, code: nat)
    requires 17 <= s <= 22 && code < 16
    ensures ActionOf(s, code) == PrecedenceAction(s, code)
  {}

  /** After an expression the packed tables implement operator precedence. */
  lemma OperatorAction(s: State, code: nat)
    requires AfterExp(s) && code < 16
    ensures ActionOf(s, code) == PrecedenceAction(s, code)
  {
    if 17 <= s <= 22 { ActionAtOperator(s, code); } else { ActionBelowOperator(s, code); }
  }

  lemma OtherAction(s: State, code: nat)
    requires code < 16 && !NeedsOperand(s) && !AfterExp(s) && s != 27
    ensures ActionOf(s, code) ==
            if s == 2 then Reduce(11) else if s == 3 then Reduce(10)
            else if s == 6 then Reduce(9) else if s == 15 then Reduce(12)
            else if code != 0 then Fail else if s == 25 then Shift(26) else Accept
  {}

  /** Every action of the tables in closed form. */
  function GrammarAction(s: State, code: nat): Action
    requires s != 27 && code < 16
  {
    if NeedsOperand(s) then
      if code == 10 then Shift(1) else if code == 11 then Shift(2)
      else if code == 13 then Shift(3) else if code == 14 then Shift(4) else Fail
    else if AfterExp(s) then PrecedenceAction(s, code)
    else if s == 2 then Reduce(11) else if s == 3 then Reduce(10)
    else if s == 6 then Reduce(9) else if s == 15 then Reduce(12)
    else if code != 0 then Fail else if s == 25 then Shift(26) else Accept
  }

  lemma TablesEncodeGrammar(s: State, code: nat)
    requires s != 27 && code < 16
    ensures ActionOf(s, code) == GrammarAction(s, code)
  {
    if NeedsOperand(s) {
      OperandAction(s, code);
    } else if AfterExp(s) {
      OperatorAction(s, code);
    } else {
      OtherAction(s, code);
    }
  }

  lemma GotoFacts(rule: nat, s: State)
    requires 1 <= rule <= 12
    ensures GotoOf(rule, s) == if rule == 1 then 25 else GotoExp(s)
  {}
}
