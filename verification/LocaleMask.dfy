/** Masks of locale name parts: their bit count by the shifting trick, and the sub-masks that stand
    for the generalisations of a locale. The eight flags fill a byte, so a mask is one; the bit
    count is that of every 16-bit word, which is what the trick promises. */
module LocaleMask {

  const CEN_REVISION: bv8 := 1
  const CEN_SPONSOR: bv8 := 2
  const CEN_SPECIAL: bv8 := 4
  const XPG_NORM_CODESET: bv8 := 8
  const XPG_CODESET: bv8 := 16
  const TERRITORY: bv8 := 32
  const CEN_AUDIENCE: bv8 := 64
  const XPG_MODIFIER: bv8 := 128
  const CEN_SPECIFIC: bv8 := CEN_REVISION | CEN_SPONSOR | CEN_SPECIAL | CEN_AUDIENCE
  const XPG_SPECIFIC: bv8 := XPG_CODESET | XPG_NORM_CODESET | XPG_MODIFIER

  predicate Has(mask: bv8, flags: bv8) { mask & flags != 0 }

  /** No two syntaxes and no two forms of the codeset at once. */
  predicate Consistent(cnt: bv8) {
    && (!Has(cnt, CEN_SPECIFIC) || !Has(cnt, XPG_SPECIFIC))
    && (!Has(cnt, XPG_CODESET) || !Has(cnt, XPG_NORM_CODESET))
  }

  predicate Submask(cnt: bv8, mask: bv8) { cnt & !mask == 0 }

  // ----- counting bits

  /** `pop`. */
  function Pop(x: bv16): bv16 {
    var x1 := ((x & !0x5555) >> 1) + (x & 0x5555);
    var x2 := ((x1 & !0x3333) >> 2) + (x1 & 0x3333);
    var x3 := ((x2 >> 4) + x2) & 0x0f0f;
    ((x3 >> 8) + x3) & 0xff
  }

  /** The bit with number `i`. */
  function Unit(i: nat): bv16
    requires i < 16
  {
    match i
    case 0 => 1 case 1 => 2 case 2 => 4 case 3 => 8 case 4 => 16 case 5 => 32 case 6 => 64 case 7 => 128
    case 8 => 256 case 9 => 512 case 10 => 1024 case 11 => 2048 case 12 => 4096 case 13 => 8192 case 14 => 16384
    case _ => 32768
  }

  predicate Bit(x: bv16, i: nat)
    requires i < 16
  {
    x & Unit(i) != 0
  }

  /** The numbers below `n` of the bits of `x`. */
  ghost function BitsBelow(x: bv16, n: nat): (b: set<nat>)
    requires n <= 16
    ensures forall i: nat :: i in b <==> i < n && Bit(x, i)
  {
    if n == 0 then {} else if Bit(x, n - 1) then BitsBelow(x, n - 1) + {n - 1} else BitsBelow(x, n - 1)
  }

  ghost function Bits(x: bv16): set<nat> { BitsBelow(x, 16) }

  function One(x: bv16, i: nat): nat
    requires i < 16
  {
    if Bit(x, i) then 1 else 0
  }

  lemma {:induction false} BitsSize(x: bv16, n: nat)
    requires n < 16
    ensures |BitsBelow(x, 0)| == 0 && |BitsBelow(x, n + 1)| == |BitsBelow(x, n)| + One(x, n)
  {
    hide Bit;
  }

  /** The number a word up to 16 stands for. */
  function Value(x: bv16): nat {
    match x
    case 0 => 0 case 1 => 1 case 2 => 2 case 3 => 3 case 4 => 4 case 5 => 5 case 6 => 6 case 7 => 7 case 8 => 8
    case 9 => 9 case 10 => 10 case 11 => 11 case 12 => 12 case 13 => 13 case 14 => 14 case 15 => 15
    case _ => 16
  }

  lemma ValueAdds(x: bv16, y: bv16)
    requires x <= 8 && y <= 8
    ensures Value(x + y) == Value(x) + Value(y)
  {
  }

  lemma PopOfByte(x: bv16)
    requires x < 256
    ensures Pop(x) <= 8
    ensures Value(Pop(x)) == One(x, 0) + One(x, 1) + One(x, 2) + One(x, 3) + One(x, 4) + One(x, 5) + One(x, 6)
      + One(x, 7)
  {
  }

  lemma PopSplits(x: bv16)
    ensures x & 0xff < 256 && x >> 8 < 256 && Pop(x) == Pop(x & 0xff) + Pop(x >> 8)
  {
  }

  lemma LowBits(x: bv16)
    ensures One(x & 0xff, 0) == One(x, 0) && One(x & 0xff, 1) == One(x, 1) && One(x & 0xff, 2) == One(x, 2)
      && One(x & 0xff, 3) == One(x, 3)
    ensures One(x & 0xff, 4) == One(x, 4) && One(x & 0xff, 5) == One(x, 5) && One(x & 0xff, 6) == One(x, 6)
      && One(x & 0xff, 7) == One(x, 7)
  {
  }

  lemma HighBits(x: bv16)
    ensures One(x >> 8, 0) == One(x, 8) && One(x >> 8, 1) == One(x, 9) && One(x >> 8, 2) == One(x, 10)
      && One(x >> 8, 3) == One(x, 11)
    ensures One(x >> 8, 4) == One(x, 12) && One(x >> 8, 5) == One(x, 13) && One(x >> 8, 6) == One(x, 14)
      && One(x >> 8, 7) == One(x, 15)
  {
  }

  lemma BitsFour(x: bv16, n: nat)
    requires n <= 12
    ensures |BitsBelow(x, n + 4)| == |BitsBelow(x, n)| + One(x, n) + One(x, n + 1) + One(x, n + 2) + One(x, n + 3)
  {
    hide One, BitsBelow;
    BitsSize(x, n);
    BitsSize(x, n + 1);
    BitsSize(x, n + 2);
    BitsSize(x, n + 3);
  }

  lemma BitsAreSixteen(x: bv16)
    ensures |Bits(x)| == One(x, 0) + One(x, 1) + One(x, 2) + One(x, 3) + One(x, 4) + One(x, 5) + One(x, 6) + One(x, 7) +
                         One(x, 8) + One(x, 9) + One(x, 10) + One(x, 11) + One(x, 12) + One(x, 13) + One(x, 14)
                           + One(x, 15)
  {
    hide One, BitsBelow;
    BitsSize(x, 0);
    BitsFour(x, 0);
    BitsFour(x, 4);
    BitsFour(x, 8);
    BitsFour(x, 12);
  }

  /** The shifting trick counts the bits of every 16-bit mask. */
  lemma PopCounts(x: bv16)
    ensures Value(Pop(x)) == |Bits(x)|
  {
    hide One, Pop, Value, Bits;
    BitsAreSixteen(x);
    PopSplits(x);
    PopOfByte(x & 0xff);
    PopOfByte(x >> 8);
    LowBits(x);
    HighBits(x);
    ValueAdds(Pop(x & 0xff), Pop(x >> 8));
  }

  // ----- sub-masks

  /** A mask as a word for the bit count. */
  function Wide(m: bv8): bv16 { m as bv16 }

  lemma SubmaskBits(c: bv8, m: bv8)
    requires Submask(c, m)
    ensures Bits(Wide(c)) <= Bits(Wide(m))
  {
    hide Submask, Bit, Wide;
    forall i: nat | i < 16 && Bit(Wide(c), i) ensures Bit(Wide(m), i) {
      SubmaskBit(c, m, i);
    }
  }

  lemma WideSubmask(c: bv8, m: bv8)
    requires Submask(c, m)
    ensures Wide(c) & !Wide(m) == 0
  {
  }

  lemma WideBit(c: bv16, m: bv16, i: nat)
    requires c & !m == 0 && i < 16 && Bit(c, i)
    ensures Bit(m, i)
  {
  }

  lemma SubmaskBit(c: bv8, m: bv8, i: nat)
    requires Submask(c, m) && i < 16 && Bit(Wide(c), i)
    ensures Bit(Wide(m), i)
  {
    hide Submask, Bit, Wide;
    WideSubmask(c, m);
    WideBit(Wide(c), Wide(m), i);
  }

  lemma WideDiffers(c: bv8, d: bv8)
    requires c != d
    ensures Wide(c) != Wide(d)
  {
  }

  lemma EqualBits(c: bv16, d: bv16)
    requires Bit(c, 0) == Bit(d, 0) && Bit(c, 1) == Bit(d, 1) && Bit(c, 2) == Bit(d, 2) && Bit(c, 3) == Bit(d, 3)
    requires Bit(c, 4) == Bit(d, 4) && Bit(c, 5) == Bit(d, 5) && Bit(c, 6) == Bit(d, 6) && Bit(c, 7) == Bit(d, 7)
    requires Bit(c, 8) == Bit(d, 8) && Bit(c, 9) == Bit(d, 9) && Bit(c, 10) == Bit(d, 10) && Bit(c, 11) == Bit(d, 11)
    requires Bit(c, 12) == Bit(d, 12) && Bit(c, 13) == Bit(d, 13) && Bit(c, 14) == Bit(d, 14)
      && Bit(c, 15) == Bit(d, 15)
    ensures c == d
  {
  }

  lemma BitsDiffer(c: bv16, d: bv16)
    requires c != d
    ensures Bits(c) != Bits(d)
  {
    hide Bit, BitsBelow;
    if Bits(c) == Bits(d) {
      forall i: nat | i < 16 ensures Bit(c, i) == Bit(d, i) {
        assert i in Bits(c) <==> i in Bits(d);
      }
      EqualBits(c, d);
    }
  }

  function Pow2(n: nat): (p: nat)
    ensures p >= 1
  {
    if n == 0 then 1 else 2 * Pow2(n - 1)
  }

  /** Different subsets of a set are at most two to the power of its size. */
  lemma {:induction false} SubsetsBound(s: set<nat>, ts: set<set<nat>>)
    requires forall t | t in ts :: t <= s
    ensures |ts| <= Pow2(|s|)
    decreases s
  {
    if s == {} {
      var empty: set<nat> := {};
      assert forall t | t in ts :: t == empty;
      SubsetSize(ts, {empty});
    } else {
      var x :| x in s;
      var r := s - {x};
      var without := set t | t in ts && x !in t;
      var with_x := set t | t in ts && x in t;
      var cut := set t | t in with_x :: t - {x};
      assert ts == without + with_x;
      SubsetsBound(r, without);
      SubsetsBound(r, cut);
      CutSize(with_x, x);
      assert |s| == |r| + 1;
    }
  }

  lemma {:induction false} CutSize(ts: set<set<nat>>, x: nat)
    requires forall t | t in ts :: x in t
    ensures |set t | t in ts :: t - {x}| == |ts|
    decreases ts
  {
    var cut := set t | t in ts :: t - {x};
    if ts != {} {
      var u :| u in ts;
      var rest := ts - {u};
      CutSize(rest, x);
      var cut' := set t | t in rest :: t - {x};
      forall t | t in rest ensures t - {x} != u - {x} {
        assert t == (t - {x}) + {x};
        assert u == (u - {x}) + {x};
      }
      assert cut == cut' + {u - {x}};
    }
  }

  lemma SubsetSize<T>(a: set<T>, b: set<T>)
    requires a <= b
    ensures |a| <= |b|
  {
    assert b == a + (b - a);
  }

  // ----- the generalisations of a mask

  /** The consistent sub-masks of `mask` from `cnt` down to 0. */
  function Submasks(mask: bv8, cnt: bv8): seq<bv8>
    decreases cnt
  {
    (if Submask(cnt, mask) && Consistent(cnt) then [cnt] else []) + if cnt == 0 then [] else Submasks(mask, cnt - 1)
  }

  /** What a node's successors stand for: all of them if its directories are a real list, and
      only the strict ones otherwise. */
  function Generalisations(mask: bv8, several: bool): seq<bv8> {
    if several then Submasks(mask, mask) else if mask == 0 then [] else Submasks(mask, mask - 1)
  }

  predicate Fits(cnt: bv8, mask: bv8) { Submask(cnt, mask) && Consistent(cnt) }

  lemma SubmasksUnfold(mask: bv8, cnt: bv8)
    ensures Submasks(mask, cnt) ==
            if cnt == 0 then (if Fits(cnt, mask) then [cnt] else [])
            else if Fits(cnt, mask) then [cnt] + Submasks(mask, cnt - 1)
            else Submasks(mask, cnt - 1)
  {
    assert [] + Submasks(mask, cnt) == Submasks(mask, cnt);
    if cnt > 0 {
      assert [] + Submasks(mask, cnt - 1) == Submasks(mask, cnt - 1);
    }
  }

  lemma AtMost(c: bv8, cnt: bv8)
    ensures c <= cnt <==> if cnt == 0 then c == 0 else c <= cnt - 1 || c == cnt
    ensures cnt > 0 ==> cnt - 1 < cnt
  {
  }

  /** The list holds exactly the consistent sub-masks up to `cnt`. */
  lemma {:induction false} SubmasksMember(mask: bv8, cnt: bv8, c: bv8)
    ensures c in Submasks(mask, cnt) <==> c <= cnt && Fits(c, mask)
    decreases cnt
  {
    hide Submasks, Fits;
    SubmasksUnfold(mask, cnt);
    AtMost(c, cnt);
    if cnt > 0 {
      SubmasksMember(mask, cnt - 1, c);
    }
  }

  ghost predicate Descending(s: seq<bv8>) {
    forall i, j | 0 <= i < j < |s| :: s[i] > s[j]
  }

  lemma DescendingCons(c: bv8, t: seq<bv8>)
    requires Descending(t) && forall i | 0 <= i < |t| :: t[i] < c
    ensures Descending([c] + t)
  {
  }

  /** The list is strictly decreasing. */
  lemma {:induction false} SubmasksDescend(mask: bv8, cnt: bv8)
    ensures Descending(Submasks(mask, cnt))
    decreases cnt
  {
    hide Submasks, Fits;
    SubmasksUnfold(mask, cnt);
    if cnt > 0 {
      AtMost(cnt, cnt);
      SubmasksDescend(mask, cnt - 1);
      var t := Submasks(mask, cnt - 1);
      forall i | 0 <= i < |t| ensures t[i] < cnt {
        SubmasksMember(mask, cnt - 1, t[i]);
      }
      DescendingCons(cnt, t);
    }
  }

  ghost function BitSets(s: seq<bv8>): (ts: set<set<nat>>)
    ensures forall t :: t in ts <==> exists c :: c in s && t == Bits(Wide(c))
  {
    if s == [] then {} else BitSets(s[1..]) + {Bits(Wide(s[0]))}
  }

  lemma {:induction false} BitSetsSize(s: seq<bv8>)
    requires Descending(s)
    ensures |BitSets(s)| == |s|
    decreases |s|
  {
    hide Bits;
    if s != [] {
      assert Descending(s[1..]) by {
        assert forall i | 0 <= i < |s[1..]| :: s[1..][i] == s[i + 1];
      }
      BitSetsSize(s[1..]);
      forall c | c in s[1..] ensures Bits(Wide(c)) != Bits(Wide(s[0])) {
        WideDiffers(c, s[0]);
        BitsDiffer(Wide(c), Wide(s[0]));
      }
    }
  }

  /** There are at most two to the power of the bit count of them. */
  lemma SubmasksBound(mask: bv8, cnt: bv8)
    ensures |Submasks(mask, cnt)| <= Pow2(Value(Pop(Wide(mask))))
  {
    hide Pop, Value, Bits, Submasks;
    var s := Submasks(mask, cnt);
    SubmasksDescend(mask, cnt);
    PopCounts(Wide(mask));
    forall c | c in s ensures Bits(Wide(c)) <= Bits(Wide(mask)) {
      SubmasksMember(mask, cnt, c);
      SubmaskBits(c, mask);
    }
    BitSetsSize(s);
    assert forall t | t in BitSets(s) :: t <= Bits(Wide(mask));
    SubsetsBound(Bits(Wide(mask)), BitSets(s));
  }
}
