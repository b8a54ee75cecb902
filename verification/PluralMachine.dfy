/** The parser as an abstract machine on trees. Its actions are the closed form of the generated
    tables (PluralTables.TablesEncodeGrammar); the driver in PluralParser runs on the tables themselves. */
module PluralMachine {
  import opened PluralSyntax
  import opened PluralTables
  import opened Wrappers

  const YYMAXDEPTH := 10000

  /** A symbol on the stack; expressions carry the tree they were built from. */
  datatype Sym = Terminal(tok: Token) | EndMark | Nonterm(tree: Tree)

  datatype Stack = Base | Push(below: Stack, sym: Sym, state: State)

  function Top(st: Stack): State {
    if st.Base? then 0 else st.state
  }

  function Height(st: Stack): (h: nat)
    ensures h >= 1
  {
    if st.Base? then 1 else Height(st.below) + 1
  }

  /** What a reduction leaves: the stack under the right-hand side and the symbol that replaces it. */
  datatype Popped = Bad | Reduced(below: Stack, sym: Sym)

  /** Rules 3 to 8: `exp op exp`. Only rules 5 to 8 take the operator from the stack. */
  function PopBinary(rule: nat, st: Stack): Popped {
    match st
    case Push(Push(Push(b, Nonterm(l), _), Terminal(Op(op)), _), Nonterm(r), _) =>
      Reduced(b, Nonterm(TBinary(if rule == 3 then Lor else if rule == 4 then Land else op, l, r)))
    case _ => Bad
  }

  /** Rule 2: `exp ? exp : exp`. */
  function PopCond(st: Stack): Popped {
    match st
    case Push(Push(Push(Push(Push(b, Nonterm(c), _), _, _), Nonterm(x), _), _, _), Nonterm(y), _) =>
      Reduced(b, Nonterm(TCond(c, x, y)))
    case _ => Bad
  }

  /** Rules 9 to 12: `! exp`, `n`, a number and `( exp )`. */
  function PopUnary(rule: nat, st: Stack): Popped {
    if rule == 9 then
      match st
      case Push(Push(b, _, _), Nonterm(t), _) => Reduced(b, Nonterm(TNot(t)))
      case _ => Bad
    else if rule == 10 then
      if st.Push? then Reduced(st.below, Nonterm(TVar)) else Bad
    else if rule == 11 then
      match st
      case Push(b, Terminal(Number(n)), _) => Reduced(b, Nonterm(TNum(n)))
      case _ => Bad
    else
      match st
      case Push(Push(Push(b, _, _), Nonterm(t), _), _, _) => Reduced(b, Nonterm(TParen(t)))
      case _ => Bad
  }

  function Pop(rule: nat, st: Stack): Popped {
    if rule == 1 then
      if st.Push? && st.sym.Nonterm? then Reduced(st.below, st.sym) else Bad
    else if rule == 2 then PopCond(st)
    else if rule <= 8 then PopBinary(rule, st)
    else PopUnary(rule, st)
  }

  // ----- termination

  function Weight(s: State): (w: nat)
    ensures w >= 1
  {
    if s == 2 || s == 3 then 3 else if AfterExp(s) || s == 6 then 2 else 1
  }

  function StackWeight(st: Stack): nat {
    if st.Base? then 0 else StackWeight(st.below) + Weight(st.state)
  }

  /** The state entered after a reduction by `rule` down to state `s`. */
  function Goto(rule: nat, s: State): State {
    if rule == 1 then 25 else GotoExp(s)
  }

  lemma ReductionShrinks(st: Stack, code: nat)
    requires Top(st) != 27 && code < 16 && GrammarAction(Top(st), code).Reduce?
    ensures var rule := GrammarAction(Top(st), code).rule;
            1 <= rule <= 12 &&
            (Pop(rule, st).Reduced? ==>
               var b := Pop(rule, st).below;
               StackWeight(b) + Weight(Goto(rule, Top(b))) < StackWeight(st))
  {
    var rule := GrammarAction(Top(st), code).rule;
    if Pop(rule, st).Reduced? {
      assert StackWeight(st) == StackWeight(st.below) + Weight(st.state);
      if 2 <= rule <= 9 || rule == 12 {
        assert StackWeight(st.below) > StackWeight(st.below.below);
      }
      if 2 <= rule <= 8 || rule == 12 {
        assert StackWeight(st.below.below) > StackWeight(st.below.below.below);
      }
      if rule == 2 {
        assert StackWeight(st.below.below.below) > StackWeight(st.below.below.below.below) > StackWeight(Pop(rule,
            st).below);
      }
    }
  }

  // ----- the machine

  /** Return codes 0, 1 and 2 of the parser; `Stuck` is a corrupt stack. */
  datatype Outcome = Accepted(tree: Tree) | Rejected | Overflowed | Stuck

  /** The stacks, what rule 1 has stored so far, and the tokens not yet shifted. */
  datatype Config = Config(st: Stack, res: Option<Tree>, input: seq<Token>)

  datatype Next = Done(outcome: Outcome) | Go(config: Config)

  function ReduceStep(c: Config, rule: nat): Next {
    match Pop(rule, c.st)
    case Bad => Done(Stuck)
    case Reduced(b, sym) =>
      Go(Config(Push(b, sym, Goto(rule, Top(b))), if rule == 1 && sym.Nonterm? then Some(sym.tree) else c.res, c.input))
  }

  /** One step with stacks of at most `limit` entries. */
  function Step(c: Config, limit: nat): Next {
    if Height(c.st) >= limit then Done(Overflowed)
    else if Top(c.st) == 27 then Done(Stuck)
    else
      match GrammarAction(Top(c.st), Lookahead(c.input))
      case Fail => Done(Rejected)
      case Accept => Done(if c.res.Some? then Accepted(c.res.value) else Stuck)
      case Shift(n) =>
        Go(if c.input == [] then Config(Push(c.st, EndMark, n), c.res, [])
           else Config(Push(c.st, Terminal(c.input[0]), n), c.res, c.input[1..]))
      case Reduce(rule) => ReduceStep(c, rule)
  }

  /** Shifts use up the input, apart from the end mark; reductions shrink the stack. */
  lemma StepDecreases(c: Config, limit: nat)
    requires Step(c, limit).Go?
    ensures var c' := Step(c, limit).config;
            || |c'.input| < |c.input|
            || (|c'.input| == |c.input| && Top(c'.st) == 26 && Top(c.st) != 26)
            || (|c'.input| == |c.input| && Top(c.st) != 26 && StackWeight(c'.st) < StackWeight(c.st))
  {
    if GrammarAction(Top(c.st), Lookahead(c.input)).Reduce? {
      ReductionShrinks(c.st, Lookahead(c.input));
    }
  }

  /** The whole run from a configuration. */
  ghost function Run(c: Config, limit: nat): Outcome
    decreases |c.input|, if Top(c.st) == 26 then 0 else 1, StackWeight(c.st)
  {
    match Step(c, limit)
    case Done(outcome) => outcome
    case Go(c') => StepDecreases(c, limit); Run(c', limit)
  }

  ghost function Parse(input: seq<Token>, limit: nat): Outcome {
    Run(Config(Base, None, input), limit)
  }
}
