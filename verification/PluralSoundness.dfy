/** Soundness: whatever the machine accepts is the precedence-grammar tree of its whole input. */
module PluralSoundness {
  import opened PluralSyntax
  import opened PluralTables
  import opened PluralMachine
  import opened Wrappers

  /** The invariant between a stack entry and the entry below it, for all states. */
  predicate Fits(below: Stack, sym: Sym, s: State) {
    match sym
    case Nonterm(t) =>
      WellFormed(t) &&
      if s == 25 then Top(below) == 0
      else NeedsOperand(Top(below)) && s == GotoExp(Top(below)) && Level(t) >= MinLevel(s)
    case EndMark => s == 26 && Top(below) == 25
    case Terminal(tok) =>
      match tok
      case Bang => s == 1 && NeedsOperand(Top(below))
      case Number(_) => s == 2 && NeedsOperand(Top(below))
      case N => s == 3 && NeedsOperand(Top(below))
      case Open => s == 4 && NeedsOperand(Top(below))
      case Close => s == 15 && Top(below) == 7
      case Colon => s == 23 && Top(below) == 16
      case Question => s == 8 && AfterExp(Top(below)) && Extends(0, below)
      case Op(op) => s == 8 + OpLevel(op) && AfterExp(Top(below)) && Extends(OpLevel(op), below)
      case Error => false
  }

  /** An operator of strength `level` may follow the expression on top of the stack. */
  predicate Extends(level: nat, st: Stack) {
    MinLevel(Top(st)) <= level && st.Push? && st.sym.Nonterm? && Level(st.sym.tree) >= Max(1, level)
  }

  predicate Viable(st: Stack) {
    st.Push? ==> Viable(st.below) && Fits(st.below, st.sym, st.state)
  }

  /** The expression on top is complete with respect to the next token. */
  predicate Complete(st: Stack, code: nat) {
    st.Push? && st.sym.Nonterm? && IsOperator(code) ==> Level(st.sym.tree) >= Max(1, code - 3)
  }

  /** Rule 1 has stored the tree exactly when the start symbol is on the stack. */
  predicate Stored(st: Stack, res: Option<Tree>) {
    && (st.Push? && st.state == 25 ==> st.sym.Nonterm? && res == Some(st.sym.tree))
    && (st.Push? && st.state == 26 ==> Stored(st.below, res))
  }

  function StackYield(st: Stack): seq<Token> {
    match st
    case Base => []
    case Push(b, Terminal(tok), _) => StackYield(b) + [tok]
    case Push(b, Nonterm(t), _) => StackYield(b) + Yield(t)
    case Push(b, EndMark, _) => StackYield(b)
  }

  lemma ShiftKeeps(st: Stack, res: Option<Tree>, input: seq<Token>)
    requires Viable(st) && Complete(st, Lookahead(input)) && Stored(st, res)
    requires Top(st) != 27 && GrammarAction(Top(st), Lookahead(input)).Shift?
    ensures var n := GrammarAction(Top(st), Lookahead(input)).next;
            if input == [] then
              var st' := Push(st, EndMark, n);
              Viable(st') && Stored(st', res) && n == 26
            else
              var st' := Push(st, Terminal(input[0]), n);
              Viable(st') && Stored(st', res)
  {
  }

  /** An operand on a viable stack is viable if it is strong enough. */
  predicate Operand(b: Stack, t: Tree) {
    Viable(b) && NeedsOperand(Top(b)) && WellFormed(t) && Level(t) >= MinLevel(GotoExp(Top(b)))
  }

  lemma ExpEntry(st: Stack) returns (b: Stack, t: Tree)
    requires Viable(st) && (AfterExp(Top(st)) || Top(st) == 6)
    ensures st == Push(b, Nonterm(t), Top(st)) && Operand(b, t) && Top(st) == GotoExp(Top(b))
    ensures StackYield(st) == StackYield(b) + Yield(t)
  {
    assert Fits(st.below, st.sym, st.state);
    b, t := st.below, st.sym.tree;
  }

  lemma OperatorEntry(st: Stack) returns (b: Stack, tok: Token)
    requires Viable(st) && (8 <= Top(st) <= 14)
    ensures st == Push(b, Terminal(tok), Top(st)) && Viable(b) && AfterExp(Top(b))
    ensures if Top(st) == 8 then tok == Question else tok.Op? && OpLevel(tok.op) == Top(st) - 8
    ensures Extends(Top(st) - 8, b)
    ensures StackYield(st) == StackYield(b) + [tok]
  {
    assert Fits(st.below, st.sym, st.state);
    b, tok := st.below, st.sym.tok;
  }

  lemma ColonEntry(st: Stack) returns (b: Stack)
    requires Viable(st) && Top(st) == 23
    ensures st == Push(b, Terminal(Colon), 23) && Viable(b) && Top(b) == 16
    ensures StackYield(st) == StackYield(b) + [Colon]
  {
    assert Fits(st.below, st.sym, st.state);
    b := st.below;
  }

  lemma BinaryOnTop(st: Stack, rule: nat)
    requires Viable(st) && 17 <= Top(st) <= 22 && rule == Top(st) - 14
    ensures PopBinary(rule, st).Reduced? && PopBinary(rule, st).sym.Nonterm?
    ensures var Reduced(b, sym) := PopBinary(rule, st);
            Operand(b, sym.tree) && Level(sym.tree) == rule - 2 && StackYield(b) + Yield(sym.tree) == StackYield(st)
  {
    var st1, r := ExpEntry(st);
    var st2, tok := OperatorEntry(st1);
    var b, l := ExpEntry(st2);
    assert StackYield(st) == StackYield(b) + (Yield(l) + [tok] + Yield(r));
  }

  lemma {:induction false} CondBranches(st: Stack) returns (b: Stack, x: Tree, y: Tree)
    requires Viable(st) && Top(st) == 24
    ensures st == Push(Push(Push(b, Nonterm(x), 16), Terminal(Colon), 23), Nonterm(y), 24)
    ensures Viable(b) && Top(b) == 8 && WellFormed(x) && WellFormed(y)
    ensures StackYield(st) == StackYield(b) + (Yield(x) + [Colon] + Yield(y))
  {
    var st1, y' := ExpEntry(st);
    var st2 := ColonEntry(st1);
    b, x := ExpEntry(st2);
    y := y';
    assert StackYield(st) == StackYield(b) + (Yield(x) + [Colon] + Yield(y));
  }

  lemma {:induction false} CondHead(st: Stack) returns (b: Stack, c: Tree)
    requires Viable(st) && Top(st) == 8
    ensures st.Push? && st == Push(Push(b, Nonterm(c), Top(st.below)), Terminal(Question), 8)
    ensures Operand(b, c) && MinLevel(GotoExp(Top(b))) == 0 && Level(c) >= 1
    ensures StackYield(st) == StackYield(b) + (Yield(c) + [Question])
  {
    var st1, tok := OperatorEntry(st);
    b, c := ExpEntry(st1);
    assert StackYield(st) == StackYield(b) + (Yield(c) + [Question]);
  }

  lemma YieldCond(prefix: seq<Token>, c: Tree, x: Tree, y: Tree)
    ensures prefix + Yield(TCond(c, x, y)) == prefix + (Yield(c) + [Question]) + (Yield(x) + [Colon] + Yield(y))
  {}

  lemma CondOnTop(st: Stack)
    requires Viable(st) && Top(st) == 24
    ensures PopCond(st).Reduced? && PopCond(st).sym.Nonterm?
    ensures var Reduced(b, sym) := PopCond(st);
            Operand(b, sym.tree) && StackYield(b) + Yield(sym.tree) == StackYield(st)
  {
    var st3, x, y := CondBranches(st);
    var b, c := CondHead(st3);
    assert PopCond(st) == Reduced(b, Nonterm(TCond(c, x, y)));
    YieldCond(StackYield(b), c, x, y);
  }

  lemma ParenOnTop(st: Stack)
    requires Viable(st) && Top(st) == 15
    ensures PopUnary(12, st).Reduced? && PopUnary(12, st).sym.Nonterm?
    ensures var Reduced(b, sym) := PopUnary(12, st);
            Operand(b, sym.tree) && StackYield(b) + Yield(sym.tree) == StackYield(st)
  {
    assert Fits(st.below, st.sym, st.state);
    var st1, t := ExpEntry(st.below);
    assert Fits(st1.below, st1.sym, st1.state);
    assert StackYield(st) == StackYield(st1.below) + ([Open] + Yield(t) + [Close]);
  }

  lemma UnaryOnTop(st: Stack, rule: nat)
    requires Viable(st)
    requires match Top(st) case 2 => rule == 11 case 3 => rule == 10 case 6 => rule == 9 case _ => false
    ensures PopUnary(rule, st).Reduced? && PopUnary(rule, st).sym.Nonterm?
    ensures var Reduced(b, sym) := PopUnary(rule, st);
            Operand(b, sym.tree) && Level(sym.tree) == 7 && StackYield(b) + Yield(sym.tree) == StackYield(st)
  {
    assert Fits(st.below, st.sym, st.state);
    if rule == 9 {
      var st1, t := ExpEntry(st);
      assert Fits(st1.below, st1.sym, st1.state);
      assert StackYield(st) == StackYield(st1.below) + ([Bang] + Yield(t));
    }
  }

  /** A reduction finds its right-hand side on the stack, keeps the invariant and the tokens
      the stack stands for. */
  lemma ReduceKeeps(st: Stack, res: Option<Tree>, code: nat)
    requires Viable(st) && code < 16 && Complete(st, code) && Stored(st, res)
    requires Top(st) != 27 && GrammarAction(Top(st), code).Reduce?
    ensures var rule := GrammarAction(Top(st), code).rule;
            1 <= rule <= 12 && Pop(rule, st).Reduced? && Pop(rule, st).sym.Nonterm? &&
            var Reduced(b, sym) := Pop(rule, st);
            var st' := Push(b, sym, Goto(rule, Top(b)));
            Viable(st') && Complete(st', code) && Stored(st', if rule == 1 then Some(sym.tree) else res) &&
            StackYield(st') == StackYield(st)
  {
    var rule := GrammarAction(Top(st), code).rule;
    if rule == 1 {
      assert Fits(st.below, st.sym, st.state);
    } else if rule == 2 {
      CondOnTop(st);
    } else if 3 <= rule <= 8 {
      BinaryOnTop(st, rule);
    } else if rule == 12 {
      ParenOnTop(st);
    } else {
      UnaryOnTop(st, rule);
    }
  }

  /** Only the stacks 0 25 26 accept. */
  lemma AcceptKeeps(st: Stack, res: Option<Tree>)
    requires Viable(st) && Stored(st, res) && Top(st) == 26
    ensures res.Some? && WellFormed(res.value) && Yield(res.value) == StackYield(st)
  {
    assert Fits(st.below, st.sym, st.state);
    var st1 := st.below;
    assert Fits(st1.below, st1.sym, st1.state);
    var st2 := st1.below;
    assert Viable(st2) && Top(st2) == 0;
    assert st2.Push? ==> Fits(st2.below, st2.sym, st2.state);
    assert st2 == Base;
    assert StackYield(st1) == StackYield(Base) + Yield(st1.sym.tree);
  }

  ghost predicate Invariant(c: Config) {
    Viable(c.st) && Complete(c.st, Lookahead(c.input)) && Stored(c.st, c.res)
  }

  /** Every step of a parse keeps the invariant and the tokens read and unread; the parser never
      meets a stack it cannot use, and a tree it accepts is written with exactly those tokens. */
  lemma StepKeeps(c: Config, limit: nat)
    requires Invariant(c)
    ensures Step(c, limit) != Done(Stuck)
    ensures Step(c, limit).Go? ==>
              Invariant(Step(c, limit).config) &&
              StackYield(Step(c, limit).config.st) + Step(c, limit).config.input == StackYield(c.st) + c.input
    ensures Step(c, limit).Done? && Step(c, limit).outcome.Accepted? ==>
              var t := Step(c, limit).outcome.tree;
              WellFormed(t) && Yield(t) == StackYield(c.st) + c.input
  {
    assert Top(c.st) != 27;
    var code := Lookahead(c.input);
    if Height(c.st) < limit {
      match GrammarAction(Top(c.st), code)
      case Fail =>
      case Accept =>
        AcceptKeeps(c.st, c.res);
      case Shift(n) =>
        ShiftKeeps(c.st, c.res, c.input);
        assert c.input != [] ==> StackYield(c.st) + [c.input[0]] + c.input[1..] == StackYield(c.st) + c.input;
      case Reduce(rule) =>
        ReduceKeeps(c.st, c.res, code);
    }
  }

  lemma {:induction false} RunSound(c: Config, limit: nat)
    requires Invariant(c)
    ensures Run(c, limit) != Stuck
    ensures Run(c, limit).Accepted? ==>
      WellFormed(Run(c, limit).tree) && Yield(Run(c, limit).tree) == StackYield(c.st) + c.input
    decreases |c.input|, if Top(c.st) == 26 then 0 else 1, StackWeight(c.st)
  {
    StepKeeps(c, limit);
    if Step(c, limit).Go? {
      StepDecreases(c, limit);
      RunSound(Step(c, limit).config, limit);
    }
  }
}
