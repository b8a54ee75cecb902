/** Evaluating plural expressions, and choosing the plural variant of a translation. */
module PluralEval {
  import opened Modulo
  import opened PluralSyntax
  import opened PluralMachine
  import opened Wrappers

  function Bool(b: bool): Ulong { if b then 1 else 0 }

  /** The value of a strict binary operator in unsigned arithmetic; `None` is a division by zero. */
  function Apply(op: BinOp, l: Ulong, r: Ulong): Option<Ulong> {
    match op
    case Mult => Some((l * r) % ULONG_LIMIT)
    case Divide => if r == 0 then None else Some(l / r)
    case Module => if r == 0 then None else Some(l % r)
    case Plus => Some((l + r) % ULONG_LIMIT)
    case Minus => Some((l + ULONG_LIMIT - r) % ULONG_LIMIT)
    case LessThan => Some(Bool(l < r))
    case GreaterThan => Some(Bool(l > r))
    case LessOrEqual => Some(Bool(l <= r))
    case GreaterOrEqual => Some(Bool(l >= r))
    case Equal => Some(Bool(l == r))
    case NotEqual => Some(Bool(l != r))
    case Land => Some(Bool(l != 0 && r != 0))
    case Lor => Some(Bool(l != 0 || r != 0))
  }

  /** `plural_eval`: `||`, `&&` and `?:` evaluate only the operands they need. */
  function Eval(e: Exp, n: Ulong): Option<Ulong> {
    match e
    case Var => Some(n)
    case Num(v) => Some(v)
    case Lnot(a) =>
      (match Eval(a, n) case None => None case Some(v) => Some(Bool(v == 0)))
    case Binary(op, l, r) =>
      (match Eval(l, n)
       case None => None
       case Some(lv) =>
         if op == Lor && lv != 0 then Some(1)
         else if op == Land && lv == 0 then Some(0)
         else match Eval(r, n)
           case None => None
           case Some(rv) => Apply(op, lv, rv))
    case Qmop(c, a, b) =>
      (match Eval(c, n) case None => None case Some(v) => if v != 0 then Eval(a, n) else Eval(b, n))
  }

  /** Sum and difference are those of unsigned words. */
  lemma WordSums(l: Ulong, r: Ulong)
    ensures var sum := Apply(Plus, l, r); sum.Some? && Apply(Minus, sum.value, r) == Some(l)
    ensures var less := Apply(Minus, l, r); less.Some? && Apply(Plus, less.value, r) == Some(l)
  {
  }

  /** They wrap after the greatest word. */
  lemma WordsWrap(l: Ulong, r: Ulong)
    ensures Apply(Plus, l, r) ==
      Some(if l + r > 0xFFFF_FFFF_FFFF_FFFF then l + r - 0x1_0000_0000_0000_0000 else l + r)
  {
  }

  /** A product is a repeated sum. */
  lemma WordProducts(l: Ulong, r: Ulong)
    ensures Apply(Mult, l, 0) == Some(0)
    ensures r + 1 < ULONG_LIMIT ==>
      Apply(Mult, l, r).Some? && Apply(Mult, l, r + 1) == Apply(Plus, Apply(Mult, l, r).value, l)
  {
    if r + 1 < ULONG_LIMIT {
      NextProduct(l, r);
      AddMod(l * r, l, ULONG_LIMIT);
    }
  }

  lemma NextProduct(l: nat, r: nat)
    ensures l * (r + 1) == l * r + l && l * 0 == 0
  {
  }

  /** Quotient times divisor plus remainder is the dividend. */
  lemma Division(l: Ulong, r: Ulong)
    ensures r == 0 ==> Apply(Divide, l, r) == Apply(Module, l, r) == None
    ensures r != 0 ==> var q, m := Apply(Divide, l, r), Apply(Module, l, r);
      q.Some? && m.Some? && q.value * r + m.value == l && m.value < r
  {
  }

  /** Exactly one of the three comparisons is 1, and the other three are their complements. */
  lemma Comparisons(l: Ulong, r: Ulong)
    ensures Apply(LessThan, l, r) == (if l < r then Some(1) else Some(0))
    ensures Apply(LessThan, l, r) == Apply(GreaterThan, r, l)
    ensures Apply(Equal, l, r) == Some(1) <==> l == r
    ensures forall a, b | a in {LessThan, Equal, GreaterThan} && b in {LessThan, Equal, GreaterThan} && a != b ::
              !(Apply(a, l, r) == Some(1) && Apply(b, l, r) == Some(1))
    ensures Apply(LessThan, l, r) == Some(1) || Apply(Equal, l, r) == Some(1) || Apply(GreaterThan, l, r) == Some(1)
    ensures forall p | p in {(Equal, NotEqual), (LessThan, GreaterOrEqual), (GreaterThan, LessOrEqual)} ::
              (Apply(p.0, l, r), Apply(p.1, l, r)) in {(Some(0), Some(1)), (Some(1), Some(0))}
  {
  }

  /** A condition decides as in C, and negation swaps the branches. */
  lemma Conditions(c: Exp, a: Exp, b: Exp, n: Ulong)
    ensures Eval(Qmop(Lnot(c), a, b), n) == Eval(Qmop(c, b, a), n)
    ensures Eval(Qmop(Num(0), a, b), n) == Eval(b, n) && Eval(Qmop(Num(1), a, b), n) == Eval(a, n)
    ensures Eval(Var, n) == Some(n) && Eval(Lnot(Lnot(Var)), n) == Some(if n == 0 then 0 else 1)
  {
  }

  /** `&&` and `||` look at their right operand only if they must, and each is the other's dual. */
  lemma Connectives(a: Exp, b: Exp, n: Ulong)
    ensures Eval(Binary(Land, a, b), n) == Eval(Qmop(a, Lnot(Lnot(b)), Num(0)), n)
    ensures Eval(Binary(Lor, a, b), n) == Eval(Qmop(a, Num(1), Lnot(Lnot(b))), n)
    ensures Eval(Lnot(Binary(Land, a, b)), n) == Eval(Binary(Lor, Lnot(a), Lnot(b)), n)
  {
    var x, y := Eval(a, n), Eval(b, n);
    assert Eval(Lnot(Lnot(b)), n) == match y case None => None case Some(v) => Some(Bool(v != 0));
  }

  /** The expressions that are evaluated on the way to the value of `e`. */
  function Evaluated(e: Exp, n: Ulong): set<Exp> {
    {e} +
    match e
    case Var => {}
    case Num(_) => {}
    case Lnot(a) => Evaluated(a, n)
    case Binary(op, l, r) =>
      Evaluated(l, n) +
      (match Eval(l, n)
       case None => {}
       case Some(lv) => if (op == Lor && lv != 0) || (op == Land && lv == 0) then {} else Evaluated(r, n))
    case Qmop(c, a, b) =>
      Evaluated(c, n) + (match Eval(c, n) case None => {} case Some(v) => if v != 0 then Evaluated(a, n)
                         else Evaluated(b, n))
  }

  predicate DividesByZero(x: Exp, n: Ulong)
  {
    x.Binary? && (x.op == Divide || x.op == Module) && Eval(x.right, n) == Some(0)
  }

  /** There is no value if and only if a division by zero is evaluated; one in an operand that is skipped does no
      harm. */
  lemma {:induction false} NoValueMeaning(e: Exp, n: Ulong)
    ensures Eval(e, n).None? <==> exists x :: x in Evaluated(e, n) && DividesByZero(x, n)
  {
    match e
    case Var =>
    case Num(_) =>
    case Lnot(a) => NoValueMeaning(a, n);
    case Binary(op, l, r) =>
      NoValueMeaning(l, n);
      NoValueMeaning(r, n);
      assert e in Evaluated(e, n);
      assert DividesByZero(e, n) ==> Eval(e, n).None?;
    case Qmop(c, a, b) =>
      NoValueMeaning(c, n);
      NoValueMeaning(a, n);
      NoValueMeaning(b, n);
  }

  /** Every division and remainder has a non-zero number on its right. */
  predicate SafeDivisors(e: Exp) {
    match e
    case Var => true
    case Num(_) => true
    case Lnot(a) => SafeDivisors(a)
    case Binary(op, l, r) =>
      SafeDivisors(l) && SafeDivisors(r) && (op == Divide || op == Module ==> r.Num? && r.value != 0)
    case Qmop(c, a, b) => SafeDivisors(c) && SafeDivisors(a) && SafeDivisors(b)
  }

  /** Such expressions have a value for every number. */
  lemma {:induction false} SafeDivisorsHaveValue(e: Exp, n: Ulong)
    requires SafeDivisors(e)
    ensures Eval(e, n).Some?
  {
    match e
    case Var =>
    case Num(_) =>
    case Lnot(a) => SafeDivisorsHaveValue(a, n);
    case Binary(op, l, r) =>
      SafeDivisorsHaveValue(l, n);
      SafeDivisorsHaveValue(r, n);
    case Qmop(c, a, b) =>
      SafeDivisorsHaveValue(c, n);
      SafeDivisorsHaveValue(a, n);
      SafeDivisorsHaveValue(b, n);
  }

  /** Number of strings that end in `s`. */
  function Nuls(s: string): nat {
    if s == [] then 0 else Nuls(s[..|s| - 1]) + if s[|s| - 1] == '\0' then 1 else 0
  }

  /** String number `k` of the NUL-terminated strings in `data` starts at `p`. */
  predicate StartsAt(data: string, k: nat, p: nat) {
    p < |data| && (p == 0 || data[p - 1] == '\0') && Nuls(data[..p]) == k
  }

  lemma {:induction false} NulsMonotone(s: string, i: nat, j: nat)
    requires i <= j <= |s|
    ensures Nuls(s[..i]) <= Nuls(s[..j])
    ensures i < j && (exists k | i <= k < j :: s[k] == '\0') ==> Nuls(s[..i]) < Nuls(s[..j])
    decreases j
  {
    if i < j {
      NulsMonotone(s, i, j - 1);
      assert s[..j][..j - 1] == s[..j - 1];
    }
  }

  /** Each string starts at one place. */
  lemma StartIsUnique(data: string, k: nat, p: nat, q: nat)
    requires StartsAt(data, k, p) && StartsAt(data, k, q)
    ensures p == q
  {
    if p < q {
      NulsMonotone(data, p, q);
    } else if q < p {
      NulsMonotone(data, q, p);
    }
  }

  /** `plural_lookup`: the variant the plural expression selects, or the first one if the
      expression's value is not below `nplurals` or there are too few variants. */
  method PluralLookup(plural: Exp, nplurals: nat, n: Ulong, translation: string) returns (p: nat)
    requires translation != [] && translation[|translation| - 1] == '\0'
    requires Eval(plural, n).Some?
    ensures var v := Eval(plural, n).value;
            var index := if v < nplurals then v else 0;
            StartsAt(translation, index, p) || (p == 0 && forall q: nat :: !StartsAt(translation, index, q))
  {
    var index := Eval(plural, n).value;
    if index >= nplurals {
      index := 0;
    }
    p := 0;
    var left := index;
    while left > 0
      invariant 0 <= left <= index && StartsAt(translation, index - left, p)
    {
      ghost var start := p;
      while translation[p] != '\0'
        invariant start <= p < |translation|
        invariant Nuls(translation[..p]) == index - left
        decreases |translation| - p
      {
        assert translation[..p + 1][..p] == translation[..p];
        p := p + 1;
      }
      assert translation[..p + 1][..p] == translation[..p];
      p := p + 1;
      left := left - 1;
      if p >= |translation| {
        forall q: nat ensures !StartsAt(translation, index, q) {
          if StartsAt(translation, index, q) {
            assert q <= |translation| - 1 < p && translation[|translation| - 1] == '\0';
            NulsMonotone(translation, q, p);
          }
        }
        return 0;
      }
    }
  }
}
