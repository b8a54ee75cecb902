/** Completeness: every tree of the precedence grammar is parsed back from its tokens, unless the
    parse needs more stack than there may be; with soundness, acceptance in both directions. */
module PluralCompleteness {
  import opened PluralSyntax
  import opened PluralTables
  import opened PluralMachine
  import opened PluralSoundness
  import opened Wrappers

  /** A tree may come next: the state wants an operand, the tree is strong enough for it, and no
      operator that follows the tree could still extend it. */
  ghost predicate Ready(t: Tree, st: Stack, input: seq<Token>) {
    && NeedsOperand(Top(st)) && WellFormed(t) && Level(t) >= MinLevel(GotoExp(Top(st)))
    && (IsOperator(Lookahead(input)) ==> Level(t) >= Max(1, Lookahead(input) - 3))
  }

  /** Parsing the tree's tokens pushes the tree, or overflows if the stacks are too small for it. */
  ghost predicate Pushes(t: Tree, st: Stack, res: Option<Tree>, input: seq<Token>, limit: nat) {
    Run(Config(st, res, Yield(t) + input), limit) ==
    if Height(st) + Depth(t) >= limit then Overflowed
    else Run(Config(Push(st, Nonterm(t), GotoExp(Top(st))), res, input), limit)
  }

  lemma ShiftToken(st: Stack, res: Option<Tree>, tok: Token, rest: seq<Token>, n: State, limit: nat)
    requires Height(st) < limit && Top(st) != 27 && GrammarAction(Top(st), TokenCode(tok)) == Shift(n)
    ensures Run(Config(st, res, [tok] + rest), limit) == Run(Config(Push(st, Terminal(tok), n), res, rest), limit)
  {
    var c := Config(st, res, [tok] + rest);
    assert c.input[1..] == rest;
    assert Step(c, limit) == Go(Config(Push(st, Terminal(tok), n), res, rest));
  }

  lemma ReduceTo(st: Stack, res: Option<Tree>, input: seq<Token>, rule: nat, b: Stack, t: Tree, limit: nat)
    requires Height(st) < limit && Top(st) != 27
    requires GrammarAction(Top(st), Lookahead(input)) == Reduce(rule) && rule != 1
    requires Pop(rule, st) == Reduced(b, Nonterm(t))
    ensures Run(Config(st, res, input), limit) == Run(Config(Push(b, Nonterm(t), GotoExp(Top(b))), res, input), limit)
  {
    var c := Config(st, res, input);
    assert Step(c, limit) == Go(Config(Push(b, Nonterm(t), GotoExp(Top(b))), res, input));
  }

  lemma TooDeep(c: Config, limit: nat)
    requires Height(c.st) >= limit
    ensures Run(c, limit) == Overflowed
  {
    assert Step(c, limit) == Done(Overflowed);
  }

  /** A shifted token followed by an operand. */
  lemma ShiftThenTree(st: Stack, tok: Token, s: State, u: Tree, res: Option<Tree>, rest: seq<Token>, limit: nat)
    requires Height(st) < limit && Top(st) != 27 && GrammarAction(Top(st), TokenCode(tok)) == Shift(s)
    requires Pushes(u, Push(st, Terminal(tok), s), res, rest, limit)
    ensures Run(Config(st, res, [tok] + (Yield(u) + rest)), limit) ==
            if Height(st) + 1 + Depth(u) >= limit then Overflowed
            else Run(Config(Push(Push(st, Terminal(tok), s), Nonterm(u), GotoExp(s)), res, rest), limit)
  {
    ShiftToken(st, res, tok, Yield(u) + rest, s, limit);
  }

  lemma BinaryPartsReady(t: Tree, st: Stack, input: seq<Token>)
    requires t.TBinary? && Ready(t, st, input)
    ensures Ready(t.left, st, [Op(t.op)] + (Yield(t.right) + input))
    ensures Ready(t.right, Push(Push(st, Nonterm(t.left), GotoExp(Top(st))), Terminal(Op(t.op)), 8 + OpLevel(t.op)),
                  input)
  {
  }

  lemma CondPartsReady(t: Tree, st: Stack, input: seq<Token>)
    requires t.TCond? && Ready(t, st, input)
    ensures var rest := [Colon] + (Yield(t.fbranch) + input);
            var st2 := Push(Push(st, Nonterm(t.cond), GotoExp(Top(st))), Terminal(Question), 8);
            && Ready(t.cond, st, [Question] + (Yield(t.tbranch) + rest)) && Ready(t.tbranch, st2, rest)
            && Ready(t.fbranch, Push(Push(st2, Nonterm(t.tbranch), 16), Terminal(Colon), 23), input)
  {
  }

  lemma {:induction false} TreeIsPushed(t: Tree, st: Stack, res: Option<Tree>, input: seq<Token>, limit: nat)
    requires Ready(t, st, input)
    ensures Pushes(t, st, res, input, limit)
    decreases t
  {
    if Height(st) >= limit {
      TooDeep(Config(st, res, Yield(t) + input), limit);
    } else {
      match t
      case TVar => AtomIsPushed(t, N, 3, st, res, input, limit);
      case TNum(n) => AtomIsPushed(t, Number(n), 2, st, res, input, limit);
      case TNot(a) =>
        TreeIsPushed(a, Push(st, Terminal(Bang), 1), res, input, limit);
        NotIsPushed(t, st, res, input, limit);
      case TParen(a) =>
        TreeIsPushed(a, Push(st, Terminal(Open), 4), res, [Close] + input, limit);
        ParenIsPushed(t, st, res, input, limit);
      case TBinary(op, l, r) =>
        BinaryPartsReady(t, st, input);
        var rest := [Op(op)] + (Yield(r) + input);
        TreeIsPushed(l, st, res, rest, limit);
        var st1 := Push(st, Nonterm(l), GotoExp(Top(st)));
        TreeIsPushed(r, Push(st1, Terminal(Op(op)), 8 + OpLevel(op)), res, input, limit);
        BinaryIsPushed(t, st, res, input, limit);
      case TCond(c, x, y) =>
        CondPartsReady(t, st, input);
        var rest := [Colon] + (Yield(y) + input);
        TreeIsPushed(c, st, res, [Question] + (Yield(x) + rest), limit);
        var st2 := Push(Push(st, Nonterm(c), GotoExp(Top(st))), Terminal(Question), 8);
        TreeIsPushed(x, st2, res, rest, limit);
        TreeIsPushed(y, Push(Push(st2, Nonterm(x), 16), Terminal(Colon), 23), res, input, limit);
        CondIsPushed(t, st, res, input, limit);
    }
  }

  lemma AtomIsPushed(t: Tree, tok: Token, s: State, st: Stack, res: Option<Tree>, input: seq<Token>, limit: nat)
    requires Ready(t, st, input) && Height(st) < limit
    requires (t == TVar && tok == N && s == 3) || (t.TNum? && tok == Number(t.value) && s == 2)
    ensures Pushes(t, st, res, input, limit)
  {
    ShiftToken(st, res, tok, input, s, limit);
    var st1 := Push(st, Terminal(tok), s);
    if Height(st1) >= limit {
      TooDeep(Config(st1, res, input), limit);
    } else {
      ReduceTo(st1, res, input, if s == 3 then 10 else 11, st, t, limit);
    }
  }

  lemma NotIsPushed(t: Tree, st: Stack, res: Option<Tree>, input: seq<Token>, limit: nat)
    requires t.TNot? && Ready(t, st, input) && Height(st) < limit
    requires Pushes(t.arg, Push(st, Terminal(Bang), 1), res, input, limit)
    ensures Pushes(t, st, res, input, limit)
  {
    ShiftThenTree(st, Bang, 1, t.arg, res, input, limit);
    assert Yield(t) + input == [Bang] + (Yield(t.arg) + input);
    if Height(st) + Depth(t) < limit {
      ReduceTo(Push(Push(st, Terminal(Bang), 1), Nonterm(t.arg), 6), res, input, 9, st, t, limit);
    }
  }

  lemma ParenIsPushed(t: Tree, st: Stack, res: Option<Tree>, input: seq<Token>, limit: nat)
    requires t.TParen? && Ready(t, st, input) && Height(st) < limit
    requires Pushes(t.inner, Push(st, Terminal(Open), 4), res, [Close] + input, limit)
    ensures Pushes(t, st, res, input, limit)
  {
    ShiftThenTree(st, Open, 4, t.inner, res, [Close] + input, limit);
    Regroup([Open], Yield(t.inner), [Close], input);
    if Height(st) + 1 + Depth(t.inner) < limit {
      ParenTail(t, st, res, input, limit);
    }
  }

  lemma ParenTail(t: Tree, st: Stack, res: Option<Tree>, input: seq<Token>, limit: nat)
    requires t.TParen? && Ready(t, st, input) && Height(st) + 2 < limit
    ensures Run(Config(Push(Push(st, Terminal(Open), 4), Nonterm(t.inner), 7), res, [Close] + input), limit) ==
            if Height(st) + 3 >= limit then Overflowed
            else Run(Config(Push(st, Nonterm(t), GotoExp(Top(st))), res, input), limit)
  {
    var st1 := Push(st, Terminal(Open), 4);
    var st2 := Push(st1, Nonterm(t.inner), 7);
    var st3 := Push(st2, Terminal(Close), 15);
    assert Height(st1) == Height(st) + 1 && Height(st3) == Height(st2) + 1;
    ShiftToken(st2, res, Close, input, 15, limit);
    if Height(st3) >= limit {
      TooDeep(Config(st3, res, input), limit);
    } else {
      ReduceTo(st3, res, input, 12, st, t, limit);
    }
  }

  lemma Regroup(a: seq<Token>, b: seq<Token>, c: seq<Token>, d: seq<Token>)
    ensures a + b + c + d == a + (b + (c + d))
  {
  }

  lemma CondYield(c: Tree, x: Tree, y: Tree, input: seq<Token>)
    ensures Yield(TCond(c, x, y)) + input ==
            Yield(c) + ([Question] + (Yield(x) + ([Colon] + (Yield(y) + input))))
  {
    Regroup(Yield(c) + [Question] + Yield(x), [Colon], Yield(y), input);
    Regroup(Yield(c), [Question], Yield(x), [Colon] + (Yield(y) + input));
  }

  lemma BinaryIsPushed(t: Tree, st: Stack, res: Option<Tree>, input: seq<Token>, limit: nat)
    requires t.TBinary? && Ready(t, st, input) && Height(st) < limit
    requires Pushes(t.left, st, res, [Op(t.op)] + (Yield(t.right) + input), limit)
    requires var st1 := Push(st, Nonterm(t.left), GotoExp(Top(st)));
             Pushes(t.right, Push(st1, Terminal(Op(t.op)), 8 + OpLevel(t.op)), res, input, limit)
    ensures Pushes(t, st, res, input, limit)
  {
    Regroup(Yield(t.left), [Op(t.op)], Yield(t.right), input);
    if Height(st) + Depth(t.left) < limit {
      BinaryTail(t, st, res, input, limit);
    }
  }

  lemma OperatorActions(s: State, level: nat, code: nat)
    requires NeedsOperand(s) && level <= 6 && MinLevel(GotoExp(s)) <= level && code < 16
    ensures GrammarAction(GotoExp(s), 3 + level) == Shift(8 + level)
    ensures GotoExp(8 + level) == 16 + level
    ensures level >= 1 && (IsOperator(code) ==> code - 3 <= level) ==>
      GrammarAction(16 + level, code) == Reduce(2 + level)
  {
  }

  lemma PopsOperator(b: Stack, l: Tree, s1: State, op: BinOp, s2: State, r: Tree, s3: State)
    ensures Pop(2 + OpLevel(op), Push(Push(Push(b, Nonterm(l), s1), Terminal(Op(op)), s2), Nonterm(r), s3)) ==
            Reduced(b, Nonterm(TBinary(op, l, r)))
  {
  }

  lemma BinaryTail(t: Tree, st: Stack, res: Option<Tree>, input: seq<Token>, limit: nat)
    requires t.TBinary? && Ready(t, st, input) && Height(st) + 1 < limit
    requires var st1 := Push(st, Nonterm(t.left), GotoExp(Top(st)));
             Pushes(t.right, Push(st1, Terminal(Op(t.op)), 8 + OpLevel(t.op)), res, input, limit)
    ensures var st1 := Push(st, Nonterm(t.left), GotoExp(Top(st)));
            Run(Config(st1, res, [Op(t.op)] + (Yield(t.right) + input)), limit) ==
            if Height(st) + 2 + Depth(t.right) >= limit then Overflowed
            else Run(Config(Push(st, Nonterm(t), GotoExp(Top(st))), res, input), limit)
  {
    var s := 8 + OpLevel(t.op);
    var st1 := Push(st, Nonterm(t.left), GotoExp(Top(st)));
    OperatorActions(Top(st), OpLevel(t.op), Lookahead(input));
    ShiftThenTree(st1, Op(t.op), s, t.right, res, input, limit);
    if Height(st1) + 1 + Depth(t.right) < limit {
      var st3 := Push(Push(st1, Terminal(Op(t.op)), s), Nonterm(t.right), s + 8);
      assert Height(st3) == Height(st1) + 2;
      PopsOperator(st, t.left, GotoExp(Top(st)), t.op, s, t.right, s + 8);
      ReduceTo(st3, res, input, s - 6, st, t, limit);
    }
  }

  lemma CondIsPushed(t: Tree, st: Stack, res: Option<Tree>, input: seq<Token>, limit: nat)
    requires t.TCond? && Ready(t, st, input) && Height(st) < limit
    requires var rest := [Colon] + (Yield(t.fbranch) + input);
             var st2 := Push(Push(st, Nonterm(t.cond), GotoExp(Top(st))), Terminal(Question), 8);
             && Pushes(t.cond, st, res, [Question] + (Yield(t.tbranch) + rest), limit)
             && Pushes(t.tbranch, st2, res, rest, limit)
             && Pushes(t.fbranch, Push(Push(st2, Nonterm(t.tbranch), 16), Terminal(Colon), 23), res, input, limit)
    ensures Pushes(t, st, res, input, limit)
  {
    hide Run, GrammarAction;
    var TCond(c, x, y) := t;
    var rest := [Colon] + (Yield(y) + input);
    CondYield(c, x, y, input);
    if Height(st) + Depth(c) < limit {
      var st1 := Push(st, Nonterm(c), GotoExp(Top(st)));
      OperatorActions(Top(st), 0, 0);
      ShiftThenTree(st1, Question, 8, x, res, rest, limit);
      if Height(st) + 2 + Depth(x) < limit {
        CondTail(t, st, st1, res, input, limit);
      }
    }
  }

  lemma CondTail(t: Tree, st: Stack, st1: Stack, res: Option<Tree>, input: seq<Token>, limit: nat)
    requires t.TCond? && Ready(t, st, input) && st1 == Push(st, Nonterm(t.cond), GotoExp(Top(st)))
    requires Height(st) + 3 < limit
    requires var st3 := Push(Push(st1, Terminal(Question), 8), Nonterm(t.tbranch), 16);
             Pushes(t.fbranch, Push(st3, Terminal(Colon), 23), res, input, limit)
    ensures var st3 := Push(Push(st1, Terminal(Question), 8), Nonterm(t.tbranch), 16);
            Run(Config(st3, res, [Colon] + (Yield(t.fbranch) + input)), limit) ==
            if Height(st) + 4 + Depth(t.fbranch) >= limit then Overflowed
            else Run(Config(Push(st, Nonterm(t), GotoExp(Top(st))), res, input), limit)
  {
    var st3 := Push(Push(st1, Terminal(Question), 8), Nonterm(t.tbranch), 16);
    assert Height(st3.below) == Height(st) + 2;
    assert Height(st3) == Height(st) + 3;
    ShiftThenTree(st3, Colon, 23, t.fbranch, res, input, limit);
    if Height(st) + 4 + Depth(t.fbranch) < limit {
      var st5 := Push(Push(st3, Terminal(Colon), 23), Nonterm(t.fbranch), 24);
      assert Height(st5) == Height(st3) + 2;
      ReduceTo(st5, res, input, 2, st, t, limit);
    }
  }

  /** Every tree of the grammar is parsed back from its own tokens, and the parser gives up for
      lack of stack on exactly the trees that do not fit. */
  lemma ParseYield(t: Tree, limit: nat)
    requires WellFormed(t) && limit > 3
    ensures Parse(Yield(t), limit) == if 1 + Depth(t) >= limit then Overflowed else Accepted(t)
  {
    TreeIsPushed(t, Base, None, [], limit);
    assert Yield(t) + [] == Yield(t);
    if 1 + Depth(t) < limit {
      var c := Config(Push(Base, Nonterm(t), 5), None, []);
      var c1 := Config(Push(Base, Nonterm(t), 25), Some(t), []);
      var c2 := Config(Push(c1.st, EndMark, 26), Some(t), []);
      assert Height(c.st) == 2 && Step(c, limit) == Go(c1);
      assert Height(c1.st) == 2 && Step(c1, limit) == Go(c2);
      assert Height(c2.st) == 3 && Step(c2, limit) == Done(Accepted(t));
      assert Run(c2, limit) == Accepted(t);
      assert Run(c1, limit) == Accepted(t);
    }
  }

  /** The parser accepts a token string with a tree iff it is the tree the precedence grammar
      assigns to it and the stacks suffice; and it never meets a stack it cannot use. */
  lemma AcceptanceIsGrammar(input: seq<Token>, t: Tree, limit: nat)
    requires limit > 3
    ensures Parse(input, limit) == Accepted(t) <==> WellFormed(t) && Yield(t) == input && 1 + Depth(t) < limit
    ensures Parse(input, limit) != Stuck
  {
    RunSound(Config(Base, None, input), limit);
    if Parse(input, limit).Accepted? {
      ParseYield(Parse(input, limit).tree, limit);
    }
    if WellFormed(t) && Yield(t) == input {
      ParseYield(t, limit);
    }
  }

  /** The precedence grammar is unambiguous. */
  lemma Unambiguous(t: Tree, u: Tree)
    requires WellFormed(t) && WellFormed(u) && Yield(t) == Yield(u)
    ensures t == u
  {
    ParseYield(t, 3 + Depth(t) + Depth(u));
    ParseYield(u, 3 + Depth(t) + Depth(u));
  }
}
