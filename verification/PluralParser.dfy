/** `yyparse`: the table-driven parser on its growing state and value stacks, proved to compute
    the outcome of the abstract machine. */
module PluralParser {
  import opened PluralSyntax
  import opened PluralTables
  import opened PluralMachine
  import opened PluralSoundness
  import opened PluralLexer
  import opened Wrappers
  import PluralPrinter

  const YYINITDEPTH := 200
  const YYEMPTY := -2

  /** The value stored for a stack symbol. */
  predicate Holds(sym: Sym, v: YyVal) {
    match sym
    case Terminal(tok) => Carries(v, tok)
    case Nonterm(t) => v == VExp(Ast(t))
    case EndMark => true
  }

  /** The state stack `ss` and the value stack `vs` store `st`; the bottom value is unused. */
  ghost predicate Stores(st: Stack, ss: seq<int>, vs: seq<YyVal>)
    decreases st
  {
    && |ss| == |vs| == Height(st) && ss[|ss| - 1] == Top(st)
    && (st.Push? ==> Holds(st.sym, vs[|vs| - 1]) && Stores(st.below, ss[..|ss| - 1], vs[..|vs| - 1]))
  }

  /** What is stored in the entries up to and including index `n`. */
  ghost predicate StoresUpTo(st: Stack, ss: seq<int>, vs: seq<YyVal>, n: int) {
    -1 <= n < |ss| && n < |vs| && Stores(st, ss[..n + 1], vs[..n + 1])
  }

  lemma StoresBelow(st: Stack, ss: seq<int>, vs: seq<YyVal>, n: nat)
    requires StoresUpTo(st, ss, vs, n) && st.Push?
    ensures n >= 1 && StoresUpTo(st.below, ss, vs, n - 1) && Holds(st.sym, vs[n])
  {
    assert ss[..n + 1][..n] == ss[..n] && vs[..n + 1][..n] == vs[..n];
  }

  lemma PoppedBinary(rule: nat, st: Stack, ss: seq<int>, vs: seq<YyVal>, n: nat)
    requires StoresUpTo(st, ss, vs, n) && 3 <= rule <= 8
    requires PopBinary(rule, st).Reduced? && PopBinary(rule, st).sym.Nonterm?
    ensures n >= 3 && StoresUpTo(PopBinary(rule, st).below, ss, vs, n - 3)
    ensures var e := Ast(PopBinary(rule, st).sym.tree);
            && vs[n].VExp? && vs[n - 2].VExp? && e.Binary? && e.left == vs[n - 2].exp && e.right == vs[n].exp
            && (rule == 3 ==> e.op == Lor) && (rule == 4 ==> e.op == Land)
            && (rule >= 5 && OpLevel(e.op) >= 3 ==> vs[n - 1] == VOp(e.op))
  {
    StoresBelow(st, ss, vs, n);
    StoresBelow(st.below, ss, vs, n - 1);
    StoresBelow(st.below.below, ss, vs, n - 2);
  }

  lemma PoppedCond(st: Stack, ss: seq<int>, vs: seq<YyVal>, n: nat)
    requires StoresUpTo(st, ss, vs, n) && PopCond(st).Reduced? && PopCond(st).sym.Nonterm?
    ensures n >= 5 && StoresUpTo(PopCond(st).below, ss, vs, n - 5)
    ensures vs[n].VExp? && vs[n - 2].VExp? && vs[n - 4].VExp?
    ensures Ast(PopCond(st).sym.tree) == Qmop(vs[n - 4].exp, vs[n - 2].exp, vs[n].exp)
  {
    StoresBelow(st, ss, vs, n);
    StoresBelow(st.below, ss, vs, n - 1);
    StoresBelow(st.below.below, ss, vs, n - 2);
    StoresBelow(st.below.below.below, ss, vs, n - 3);
    StoresBelow(st.below.below.below.below, ss, vs, n - 4);
  }

  lemma PoppedUnary(rule: nat, st: Stack, ss: seq<int>, vs: seq<YyVal>, n: nat)
    requires StoresUpTo(st, ss, vs, n) && 9 <= rule <= 12
    requires PopUnary(rule, st).Reduced? && PopUnary(rule, st).sym.Nonterm?
    ensures YyR2(rule) <= n && StoresUpTo(PopUnary(rule, st).below, ss, vs, n - YyR2(rule))
    ensures var e := Ast(PopUnary(rule, st).sym.tree);
            match rule
            case 9 => vs[n].VExp? && e == Lnot(vs[n].exp)
            case 10 => e == Var
            case 11 => vs[n].VNum? && e == Num(vs[n].num)
            case _ => vs[n - 1] == VExp(e)
  {
    StoresBelow(st, ss, vs, n);
    if rule == 9 || rule == 12 {
      StoresBelow(st.below, ss, vs, n - 1);
    }
    if rule == 12 {
      StoresBelow(st.below.below, ss, vs, n - 2);
    }
  }

  /** Pushing a value and its state. */
  lemma StoresPush(b: Stack, sym: Sym, s: State, ss: seq<int>, vs: seq<YyVal>, v: YyVal)
    requires Stores(b, ss, vs) && Holds(sym, v)
    ensures Stores(Push(b, sym, s), ss + [s], vs + [v])
  {
    assert (ss + [s])[..|ss|] == ss && (vs + [v])[..|vs|] == vs;
  }

  // ----- the driver

  /** No state shifts the error token, so error recovery only unwinds the stack. */
  lemma NoErrorTransition(s: State)
    ensures YyPact(s) == YYFLAG || YyPact(s) + YYTERROR < 0 || YyPact(s) + YYTERROR > YYLAST ||
            YyCheck(YyPact(s) + YYTERROR) != YYTERROR
  {
  }

  /** `yyerrlab`: pops states until one can shift the error token; at the bottom the parse is aborted. */
  method Recover(yyss: array<State>, top: nat, state: State) returns (ret: int)
    requires top < yyss.Length
    ensures ret == 1
  {
    var yyssp, yystate := top, state;
    while true
      invariant 0 <= yyssp < yyss.Length
      decreases yyssp
    {
      var yyn := YyPact(yystate);
      NoErrorTransition(yystate);
      if yyn != YYFLAG && 0 <= yyn + YYTERROR <= YYLAST && YyCheck(yyn + YYTERROR) == YYTERROR {
        assert false;
      }
      if yyssp == 0 {
        return 1;
      }
      yyssp := yyssp - 1;
      yystate := yyss[yyssp];
    }
  }

  /** Doubles the stacks, up to the maximum depth, and keeps what is on them. */
  method Grow(yyss: array<State>, yyvs: array<YyVal>, size: nat) returns (yyss': array<State>, yyvs': array<YyVal>)
    requires yyss.Length == yyvs.Length && size <= yyss.Length < YYMAXDEPTH
    ensures fresh(yyss') && fresh(yyvs') && yyss'.Length == yyvs'.Length
    ensures yyss'.Length == if yyss.Length * 2 > YYMAXDEPTH then YYMAXDEPTH else yyss.Length * 2
    ensures size <= yyss'.Length && yyss'[..size] == yyss[..size] && yyvs'[..size] == yyvs[..size]
  {
    var yystacksize := yyss.Length * 2;
    if yystacksize > YYMAXDEPTH {
      yystacksize := YYMAXDEPTH;
    }
    yyss', yyvs' := new State[yystacksize], new YyVal[yystacksize];
    for i := 0 to size
      invariant yyss'[..i] == yyss[..i] && yyvs'[..i] == yyvs[..i]
    {
      yyss'[i], yyvs'[i] := yyss[i], yyvs[i];
    }
  }

  /** The right-hand side of the rule is on the stack, with an operator of the rule's class. */
  ghost predicate Poppable(rule: nat, st: Stack) {
    && 1 <= rule <= 12 && Pop(rule, st).Reduced? && Pop(rule, st).sym.Nonterm?
    && (3 <= rule <= 8 ==> Level(Pop(rule, st).sym.tree) == rule - 2)
  }

  /** When the machine stops. */
  lemma StopCases(c: Config)
    requires Invariant(c) && Height(c.st) < YYMAXDEPTH
    ensures Top(c.st) != 27
    ensures match GrammarAction(Top(c.st), Lookahead(c.input))
            case Fail => Run(c, YYMAXDEPTH) == Rejected
            case Accept => c.res.Some? && Run(c, YYMAXDEPTH) == Accepted(c.res.value)
            case _ => true
  {
    StepKeeps(c, YYMAXDEPTH);
  }

  /** What a step of the machine does otherwise. */
  lemma StepCases(c: Config)
    requires Invariant(c) && Height(c.st) < YYMAXDEPTH
    ensures Top(c.st) != 27
    ensures match GrammarAction(Top(c.st), Lookahead(c.input))
            case Fail => true
            case Accept => true
            case Shift(next) =>
              Follows(c, Config(Push(c.st, if c.input == [] then EndMark else Terminal(c.input[0]), next),
                                c.res, if c.input == [] then [] else c.input[1..]))
            case Reduce(rule) =>
              Poppable(rule, c.st) &&
              var Reduced(b, sym) := Pop(rule, c.st);
              Follows(c, Config(Push(b, sym, Goto(rule, Top(b))), if rule == 1 then Some(sym.tree) else c.res, c.input))
  {
    StepKeeps(c, YYMAXDEPTH);
    match GrammarAction(Top(c.st), Lookahead(c.input))
    case Fail =>
    case Accept =>
    case Shift(_) =>
      StepDecreases(c, YYMAXDEPTH);
    case Reduce(rule) =>
      StepDecreases(c, YYMAXDEPTH);
      ReduceKeeps(c.st, c.res, Lookahead(c.input));
      if 3 <= rule <= 8 {
        BinaryOnTop(c.st, rule);
      }
  }

  /** The next configuration: same outcome, invariant kept, nearer to the end. */
  ghost predicate Follows(c: Config, c': Config) {
    && Invariant(c') && Run(c', YYMAXDEPTH) == Run(c, YYMAXDEPTH)
    && (|c'.input| < |c.input| ||
        (|c'.input| == |c.input| && Top(c.st) != 26 && (Top(c'.st) == 26 || StackWeight(c'.st) < StackWeight(c.st))))
  }

  /** The semantic actions; `n` is the top of the value stack. */
  method Action(rule: nat, yyvs: array<YyVal>, n: nat, arg: ParseArgs, ghost st: Stack, ghost ss: seq<int>)
    returns (yyval: YyVal)
    requires n < yyvs.Length && |ss| > n && StoresUpTo(st, ss, yyvs[..n + 1], n)
    requires Poppable(rule, st)
    modifies arg`res
    ensures YyR2(rule) <= n && StoresUpTo(Pop(rule, st).below, ss, yyvs[..n + 1], n - YyR2(rule))
    ensures yyval == VExp(Ast(Pop(rule, st).sym.tree))
    ensures arg.res == if rule == 1 then Some(Ast(Pop(rule, st).sym.tree)) else old(arg.res)
  {
    ghost var vs := yyvs[..n + 1];
    if rule == 1 {
      StoresBelow(st, ss, vs, n);
      yyval := yyvs[n];
      arg.res := Some(yyvs[n].exp);
    } else if rule == 2 {
      PoppedCond(st, ss, vs, n);
      yyval := VExp(Qmop(yyvs[n - 4].exp, yyvs[n - 2].exp, yyvs[n].exp));
    } else if rule <= 8 {
      PoppedBinary(rule, st, ss, vs, n);
      var op;
      if rule == 3 {
        op := Lor;
      } else if rule == 4 {
        op := Land;
      } else {
        op := yyvs[n - 1].op;
      }
      yyval := VExp(Binary(op, yyvs[n - 2].exp, yyvs[n].exp));
    } else {
      PoppedUnary(rule, st, ss, vs, n);
      if rule == 9 {
        yyval := VExp(Lnot(yyvs[n].exp));
      } else if rule == 10 {
        yyval := VExp(Var);
      } else if rule == 11 {
        yyval := VExp(Num(yyvs[n].num));
      } else {
        yyval := yyvs[n - 1];
      }
    }
  }

  /** The lookahead variables agree with the tokens that are still to be parsed. */
  ghost predicate Reads(input: seq<Token>, yychar: int, yylval: YyVal, rest: string) {
    if yychar == YYEMPTY then input == Tokens(rest)
    else if yychar == YYEOF then input == []
    else
      yychar > 0 && input != [] && YyTranslate(yychar) == TokenCode(input[0]) && Carries(yylval, input[0]) &&
      input[1..] == Tokens(rest)
  }

  /** Reads a lookahead token if there is none. */
  method ReadLookahead(arg: ParseArgs, yychar: int, yylval: YyVal, ghost input: seq<Token>)
    returns (yychar': int, yylval': YyVal)
    requires arg.Valid() && Reads(input, yychar, yylval, arg.Rest())
    modifies arg`cp
    ensures arg.Valid() && Reads(input, yychar', yylval', arg.Rest()) && yychar' != YYEMPTY
    ensures YyTranslate(yychar') == Lookahead(input)
  {
    yychar', yylval' := yychar, yylval;
    if yychar == YYEMPTY {
      yychar', yylval' := arg.Yylex(yylval);
    }
  }

  /** `yybackup`: what the tables say about a state and the lookahead token, which is read only if
      the state does not reduce without it. */
  method Decide(yystate: State, arg: ParseArgs, yychar: int, yylval: YyVal, ghost input: seq<Token>)
    returns (action: PluralTables.Action, yychar': int, yylval': YyVal)
    requires yystate != YYFINAL && arg.Valid() && Reads(input, yychar, yylval, arg.Rest())
    modifies arg`cp
    ensures arg.Valid() && Reads(input, yychar', yylval', arg.Rest())
    ensures action == GrammarAction(yystate, Lookahead(input))
    ensures action.Shift? ==> yychar' != YYEMPTY
  {
    TablesEncodeGrammar(yystate, Lookahead(input));
    yychar', yylval' := yychar, yylval;
    var yyn := YyPact(yystate);
    var default := true;
    if yyn != YYFLAG {
      yychar', yylval' := ReadLookahead(arg, yychar, yylval, input);
      var yychar1 := YyTranslate(yychar');
      yyn := yyn + yychar1;
      default := yyn < 0 || yyn > YYLAST || YyCheck(yyn) != yychar1;
    }
    if default {
      yyn := YyDefact(yystate);
      action := if yyn == 0 then Fail else Reduce(yyn);
    } else {
      yyn := YyTable(yyn);
      if yyn < 0 {
        action := if yyn == YYFLAG then Fail else Reduce(-yyn);
      } else if yyn == 0 {
        action := Fail;
      } else if yyn == YYFINAL {
        action := Accept;
      } else {
        action := Shift(yyn);
      }
    }
  }

  /** The state entered after a reduction. */
  method GotoState(rule: nat, s: State) returns (yystate: State)
    requires 1 <= rule <= 12
    ensures yystate == Goto(rule, s)
  {
    GotoFacts(rule, s);
    var lhs := YyR1(rule) - YYNTBASE;
    var n := YyPgoto(lhs) + s;
    if 0 <= n <= YYLAST && YyCheck(n) == s {
      yystate := YyTable(n);
    } else {
      yystate := YyDefgoto(lhs);
    }
  }

  lemma RuleFacts(rule: nat, st: Stack)
    requires Poppable(rule, st)
    ensures 1 <= rule <= 12 && YyR2(rule) >= 1 && Pop(rule, st).Reduced? && Pop(rule, st).sym.Nonterm?
    ensures Holds(Pop(rule, st).sym, VExp(Ast(Pop(rule, st).sym.tree)))
  {
  }

  lemma StoresTop(st: Stack, ss: seq<int>, vs: seq<YyVal>)
    requires Stores(st, ss, vs)
    ensures |ss| == |vs| >= 1 && ss[|ss| - 1] == Top(st)
  {
  }

  /** `yyreduce`: runs the rule's action, pops its right-hand side and pushes the result. */
  method ReduceBy(rule: nat, yyss: array<State>, yyvs: array<YyVal>, n: nat, arg: ParseArgs, ghost st: Stack)
    returns (yystate: State, yyssp: int)
    requires n < yyss.Length == yyvs.Length && Stores(st, yyss[..n + 1], yyvs[..n + 1])
    requires Poppable(rule, st)
    modifies arg`res, yyvs
    ensures -1 <= yyssp < n
    ensures var Reduced(b, sym) := Pop(rule, st);
            && Stores(Push(b, sym, Goto(rule, Top(b))), yyss[..yyssp + 1] + [yystate], yyvs[..yyssp + 2])
            && arg.res == if rule == 1 then Some(Ast(sym.tree)) else old(arg.res)
  {
    hide Stores, Goto, YyR2, Poppable, Pop;
    RuleFacts(rule, st);
    ghost var b := Pop(rule, st).below;
    ghost var sym := Pop(rule, st).sym;
    var yylen := YyR2(rule);
    ghost var ss, vs := yyss[..n + 1], yyvs[..n + 1];
    assert ss[..n + 1] == ss && vs[..n + 1] == vs;
    var yyval := Action(rule, yyvs, n, arg, st, ss);
    yyssp := n - yylen;
    assert ss[..yyssp + 1] == yyss[..yyssp + 1] && vs[..yyssp + 1] == yyvs[..yyssp + 1];
    StoresTop(b, ss[..yyssp + 1], vs[..yyssp + 1]);
    yystate := GotoState(rule, yyss[yyssp]);
    StoresPush(b, sym, yystate, ss[..yyssp + 1], vs[..yyssp + 1], yyval);
    yyvs[yyssp + 1] := yyval;
    assert yyvs[..yyssp + 2] == vs[..yyssp + 1] + [yyval];
  }

  /** Shifts the lookahead token. */
  method ShiftTo(next: State, yyss: array<State>, yyvs: array<YyVal>, n: nat, yychar: int, yylval: YyVal,
                 ghost st: Stack, ghost input: seq<Token>, ghost rest: string)
    returns (yychar': int)
    requires n + 1 < yyss.Length == yyvs.Length && Stores(st, yyss[..n + 1], yyvs[..n + 1])
    requires Reads(input, yychar, yylval, rest) && yychar != YYEMPTY
    modifies yyvs
    ensures Stores(Push(st, if input == [] then EndMark else Terminal(input[0]), next), yyss[..n + 1] + [next],
                   yyvs[..n + 2])
    ensures Reads(if input == [] then [] else input[1..], yychar', yylval, rest)
  {
    StoresPush(st, if input == [] then EndMark else Terminal(input[0]), next, yyss[..n + 1], yyvs[..n + 1], yylval);
    ghost var vs := yyvs[..n + 1];
    yyvs[n + 1] := yylval;
    assert yyvs[..n + 2] == vs + [yylval];
    yychar' := if yychar != YYEOF then YYEMPTY else yychar;
  }

  /** `yynewstate`: pushes the state next to the value already pushed, and makes room if that
      was the last entry; fails iff the stacks are at their maximum depth. */
  method NewState(yystate: State, yyss: array<State>, yyvs: array<YyVal>, n: nat, ghost st: Stack)
    returns (overflow: bool, yyss': array<State>, yyvs': array<YyVal>)
    requires n < yyss.Length == yyvs.Length <= YYMAXDEPTH
    requires Stores(st, yyss[..n] + [yystate], yyvs[..n + 1])
    modifies yyss
    ensures overflow <==> Height(st) >= YYMAXDEPTH
    ensures (yyss' == yyss && yyvs' == yyvs) || (fresh(yyss') && fresh(yyvs'))
    ensures !overflow ==>
              yyss.Length <= yyss'.Length == yyvs'.Length <= YYMAXDEPTH && n + 1 < yyss'.Length &&
              Stores(st, yyss'[..n + 1], yyvs'[..n + 1])
  {
    ghost var pushed := yyss[..n] + [yystate];
    yyss', yyvs' := yyss, yyvs;
    yyss[n] := yystate;
    assert yyss[..n + 1] == pushed;
    assert Height(st) == n + 1;
    overflow := false;
    if n >= yyss.Length - 1 {
      if yyss.Length >= YYMAXDEPTH {
        overflow := true;
      } else {
        yyss', yyvs' := Grow(yyss, yyvs, n + 1);
      }
    }
  }

  /** A shift or a reduction: the value is pushed, the state is left for `yynewstate`. */
  method Advance(action: PluralTables.Action, yyss: array<State>, yyvs: array<YyVal>, n: nat, yychar: int,
                 yylval: YyVal, arg: ParseArgs, ghost c: Config)
    returns (yystate: State, yyssp: int, yychar': int, ghost c': Config)
    requires n + 1 < yyss.Length == yyvs.Length && Stores(c.st, yyss[..n + 1], yyvs[..n + 1])
    requires Invariant(c) && Height(c.st) < YYMAXDEPTH
    requires Top(c.st) != 27 && action == GrammarAction(Top(c.st), Lookahead(c.input))
      && (action.Shift? || action.Reduce?)
    requires arg.Valid() && Reads(c.input, yychar, yylval, arg.Rest()) && (action.Shift? ==> yychar != YYEMPTY)
    requires c.res.Some? ==> arg.res == Some(Ast(c.res.value))
    modifies arg`res, yyvs
    ensures Follows(c, c') && -1 <= yyssp <= n
    ensures Stores(c'.st, yyss[..yyssp + 1] + [yystate], yyvs[..yyssp + 2])
    ensures Reads(c'.input, yychar', yylval, arg.Rest())
    ensures c'.res.Some? ==> arg.res == Some(Ast(c'.res.value))
  {
    StepCases(c);
    ghost var rest := arg.Rest();
    if action.Shift? {
      yystate, yyssp := action.next, n;
      yychar' := ShiftTo(yystate, yyss, yyvs, n, yychar, yylval, c.st, c.input, rest);
      c' := Config(Push(c.st, if c.input == [] then EndMark else Terminal(c.input[0]), yystate),
                   c.res, if c.input == [] then [] else c.input[1..]);
    } else {
      var rule := action.rule;
      ghost var Reduced(b, sym) := Pop(rule, c.st);
      yychar' := yychar;
      yystate, yyssp := ReduceBy(rule, yyss, yyvs, n, arg, c.st);
      c' := Config(Push(b, sym, Goto(rule, Top(b))), if rule == 1 then Some(sym.tree) else c.res, c.input);
    }
    assert arg.Rest() == rest;
  }

  /** The parser's variables at `yynewstate`: the state is about to be pushed next to its value. */
  ghost predicate AtNewState(c: Config, yystate: State, yyss: array<State>, yyvs: array<YyVal>, yyssp: int,
                             yychar: int, yylval: YyVal, arg: ParseArgs)
    reads arg, yyss, yyvs
  {
    && YYINITDEPTH <= yyss.Length == yyvs.Length <= YYMAXDEPTH && -1 <= yyssp < yyss.Length - 1
    && Stores(c.st, yyss[..yyssp + 1] + [yystate], yyvs[..yyssp + 2])
    && arg.Valid() && Reads(c.input, yychar, yylval, arg.Rest())
    && (c.res.Some? ==> arg.res == Some(Ast(c.res.value)))
  }

  predicate Reports(ret: int, res: Option<Exp>, outcome: Outcome) {
    match outcome
    case Accepted(t) => ret == 0 && res == Some(Ast(t))
    case Rejected => ret == 1
    case Overflowed => ret == 2
    case Stuck => false
  }

  /** From one `yynewstate` to the next, or to the end of the parse. */
  method ParseStep(state: State, ss: array<State>, vs: array<YyVal>, ssp: int, chr: int, lval: YyVal, arg: ParseArgs,
                   ghost c: Config)
    returns (done: bool, ret: int, yystate: State, yyss: array<State>, yyvs: array<YyVal>, yyssp: int, yychar: int,
             yylval: YyVal, ghost c': Config)
    requires AtNewState(c, state, ss, vs, ssp, chr, lval, arg) && Invariant(c)
    modifies arg, ss, vs
    ensures done ==> Reports(ret, arg.res, Run(c, YYMAXDEPTH))
    ensures !done ==> AtNewState(c', yystate, yyss, yyvs, yyssp, yychar, yylval, arg) && Follows(c, c')
    ensures (yyss == ss && yyvs == vs) || (fresh(yyss) && fresh(yyvs))
  {
    done, ret, yystate, yyssp, yychar, yylval, c' := true, 1, state, ssp + 1, chr, lval, c;
    var overflow;
    overflow, yyss, yyvs := NewState(state, ss, vs, yyssp, c.st);
    if overflow {
      ret := 2;
      return;
    }
    StopCases(c);
    var action;
    action, yychar, yylval := Decide(yystate, arg, yychar, yylval, c.input);
    match action {
      case Fail =>
        ret := Recover(yyss, yyssp, yystate);
      case Accept =>
        ret := 0;
      case _ =>
        done := false;
        yystate, yyssp, yychar, c' := Advance(action, yyss, yyvs, yyssp, yychar, yylval, arg, c);
    }
  }

  /** Parses the text of `arg` from its position: returns 0 and stores the expression iff the
      tokens are an expression of the precedence grammar that fits the stacks, 2 if the stacks
      would exceed 10000 entries, and 1 otherwise. What an expression is written as gives it back. */
  method Yyparse(arg: ParseArgs) returns (ret: int)
    requires arg.Valid()
    modifies arg
    ensures Reports(ret, arg.res, Parse(Tokens(old(arg.Rest())), 10000))
    ensures forall e | PluralPrinter.Writes(old(arg.Rest()), e) :: ret == 0 && arg.res == Some(e)
  {
    ghost var text := arg.Rest();
    var yyss, yyvs := new State[YYINITDEPTH], new YyVal[YYINITDEPTH];
    var yystate: State := 0;
    var yychar, yylval := YYEMPTY, VNone;
    var yyssp := -1;
    ghost var c := Config(Base, None, Tokens(arg.Rest()));
    var done := false;
    ret := 1;
    ghost var outcome := Parse(c.input, YYMAXDEPTH);
    while !done
      invariant fresh(yyss) && fresh(yyvs)
      invariant !done ==> AtNewState(c, yystate, yyss, yyvs, yyssp, yychar, yylval, arg)
      invariant !done ==> Invariant(c) && Run(c, YYMAXDEPTH) == outcome
      invariant done ==> Reports(ret, arg.res, outcome)
      decreases !done, |c.input|, if Top(c.st) == 26 then 0 else 1, StackWeight(c.st)
    {
      done, ret, yystate, yyss, yyvs, yyssp, yychar, yylval, c :=
        ParseStep(yystate, yyss, yyvs, yyssp, yychar, yylval, arg, c);
    }
    forall e | PluralPrinter.Writes(text, e) ensures ret == 0 && arg.res == Some(e) {
      PluralPrinter.WrittenParses(text, e);
    }
  }
}
