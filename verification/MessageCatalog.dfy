/** Looking a message up in a loaded catalog: the hash table and the binary search find the same. */
module MessageCatalog {
  import opened CStrings
  import opened Modulo
  import opened Wrappers

  /** `struct loaded_domain`: the original strings, with an embedded NUL in plural entries, and the
      hash table, which holds string numbers plus one and 0 for an empty slot. */
  datatype Catalog = Catalog(orig: seq<string>, hash_tab: Option<seq<nat>>)

  // ----- hash_string

  function Code(c: char): bv32 { c as bv32 }

  /** A `char` added to an unsigned word: plain chars are signed. */
  function Extend(c: char): bv32 {
    if c < 128 as char then c as bv32 else (c as bv32) | 0xFFFF_FF00
  }

  /** The upper four bits are taken out, and into the second four. */
  function Folded(h: bv32): bv32 {
    var g := h & 0xF000_0000;
    if g != 0 then (h ^ (g >> 24)) ^ g else h
  }

  function Shifted(hval: bv32, x: bv32): bv32 { (hval << 4) + x }

  function HashStep(hval: bv32, c: char): bv32 { Folded(Shifted(hval, Extend(c))) }

  function HashOf(s: string): bv32 {
    if s == "" then 0 else HashStep(HashOf(s[..|s| - 1]), s[|s| - 1])
  }

  /** The hash value as a number. */
  function Hash(s: string): nat { HashOf(s) as nat }

  lemma HashStepClears(hval: bv32, c: char)
    ensures HashStep(hval, c) & 0xF000_0000 == 0
  {
    hide Extend;
    FoldedClears(Shifted(hval, Extend(c)));
  }

  lemma FoldedClears(h: bv32)
    ensures Folded(h) & 0xF000_0000 == 0
  {
    var g := h & 0xF000_0000;
    assert (g >> 24) & 0xF000_0000 == 0;
    assert (h ^ g) & 0xF000_0000 == 0;
  }

  lemma FoldedMeaning(h: bv32)
    ensures Folded(h) == (h & 0x0FFF_FFFF) ^ (h >> 28 << 4)
    ensures h < 0x1000_0000 ==> Folded(h) == h
  {
  }

  lemma SignedByte(x: bv32)
    requires 128 <= x < 256
    ensures x | 0xFFFF_FF00 == x - 256
  {
  }

  /** A character is a signed byte. */
  lemma ExtendMeaning(c: char)
    ensures c < 128 as char ==> Extend(c) == Code(c) && Code(c) < 128
    ensures 128 as char <= c < 256 as char ==> Extend(c) == Code(c) - 256
  {
    if 128 as char <= c < 256 as char {
      SignedByte(c as bv32);
    }
  }

  lemma StepBits(hval: bv32, x: bv32)
    ensures var h := (hval << 4) + x; Folded(Shifted(hval, x)) == (h & 0x0FFF_FFFF) ^ (h >> 28 << 4)
  {
    hide Folded;
    FoldedMeaning(Shifted(hval, x));
  }

  /** A step shifts the hash by four bits and adds the character's value `x`; what comes into the upper four bits goes
      into
      the second four. */
  lemma HashStepMeaning(hval: bv32, c: char, x: bv32)
    requires x == Extend(c)
    ensures var h := (hval << 4) + x; HashStep(hval, c) == (h & 0x0FFF_FFFF) ^ (h >> 28 << 4)
  {
    hide Folded, Extend, Shifted;
    StepBits(hval, x);
  }

  /** The characters as digits of base 16. */
  function Packed(s: string): bv32 {
    if s == "" then 0 else Shifted(Packed(s[..|s| - 1]), Code(s[|s| - 1]))
  }

  /** No more than `n` such digits of ASCII characters. */
  predicate Fits(h: bv32, n: nat) {
    h < match n case 0 => 1 case 1 => 128 case 2 => 2176 case 3 => 34944 case 4 => 559232 case _ => 8947840
  }

  /** A short string is filed under just these digits. */
  lemma {:induction false} HashOfShort(s: string)
    requires |s| <= 5 && forall c | c in s :: c < 128 as char
    ensures HashOf(s) == Packed(s) && Fits(HashOf(s), |s|)
    decreases |s|
  {
    hide HashStep, Shifted, Code, Fits;
    if s == "" {
      NoDigits();
    } else {
      var n := |s| - 1;
      assert s[n] in s && forall c | c in s[..n] :: c in s;
      HashOfShort(s[..n]);
      ShortStep(HashOf(s[..n]), s[n], n);
    }
  }

  lemma NoDigits()
    ensures Fits(0, 0)
  {
  }

  lemma ShortStep(h: bv32, c: char, n: nat)
    requires n < 5 && Fits(h, n) && c < 128 as char
    ensures HashStep(h, c) == Shifted(h, Code(c)) && Fits(HashStep(h, c), n + 1)
  {
    hide Folded, Extend, Code, Shifted, Fits;
    ExtendMeaning(c);
    SmallStep(h, Code(c), n);
  }

  lemma SmallStep(h: bv32, x: bv32, n: nat)
    requires n < 5 && Fits(h, n) && x < 128
    ensures Folded(Shifted(h, x)) == Shifted(h, x) && Fits(Shifted(h, x), n + 1)
  {
    hide Folded;
    FoldedMeaning(Shifted(h, x));
  }

  /** `hash_string`: the upper four bits of the result are clear. */
  method HashString(s: string) returns (hval: bv32)
    ensures hval == HashOf(s) && hval & 0xF000_0000 == 0
  {
    hide HashStep;
    hval := 0;
    for i := 0 to |s|
      invariant hval == HashOf(s[..i]) && hval & 0xF000_0000 == 0
    {
      HashStepClears(hval, s[i]);
      assert s[..i + 1][..i] == s[..i];
      hval := HashStep(hval, s[i]);
    }
    assert s[..|s|] == s;
  }

  // ----- the probe sequence

  predicate Prime(p: nat) {
    p >= 2 && forall d | 2 <= d < p :: p % d != 0
  }

  /** The step of the probe loop, written so that it cannot overflow: addition modulo the size. */
  function NextSlot(idx: nat, incr: nat, size: nat): (r: nat)
    requires idx < size && incr < size
    ensures r == (idx + incr) % size
  {
    ModUnique(idx + incr, if idx >= size - incr then 1 else 0,
              if idx >= size - incr then idx + incr - size else idx + incr, size);
    if idx >= size - incr then idx - (size - incr) else idx + incr
  }

  function Incr(hash: nat, size: nat): (r: nat)
    requires size > 2
    ensures 1 <= r < size
  {
    1 + hash % (size - 2)
  }

  /** The slot inspected after `k` steps. */
  function Probe(hash: nat, size: nat, k: nat): nat
    requires size > 2
  {
    (hash % size + k * Incr(hash, size)) % size
  }

  lemma ProbeStep(hash: nat, size: nat, k: nat)
    requires size > 2
    ensures Probe(hash, size, k) < size
    ensures Probe(hash, size, k + 1) == NextSlot(Probe(hash, size, k), Incr(hash, size), size)
  {
    var x, i := hash % size + k * Incr(hash, size), Incr(hash, size);
    assert hash % size + (k + 1) * i == x + i;
    AddMod(x, i, size);
  }

  lemma ProbeStart(hash: nat, size: nat)
    requires size > 2
    ensures Probe(hash, size, 0) == hash % size
  {
    assert 0 * Incr(hash, size) == 0;
    ModUnique(hash % size, 0, hash % size, size);
  }

  /** The probes go on by one more than the remainder of the hash by the size less two. */
  lemma ProbeMeaning(hash: nat, size: nat, k: nat)
    requires size > 2
    ensures Probe(hash, size, k) == (hash + k * (1 + hash % (size - 2))) % size
  {
    AddMod(hash, k * (1 + hash % (size - 2)), size);
  }

  /** A prime divides no product of two smaller positive numbers. */
  lemma {:induction false} PrimeProduct(p: nat, a: nat, b: nat)
    requires Prime(p) && 0 < a < p && 0 < b < p
    ensures (a * b) % p != 0
    decreases a
  {
    if a > 1 {
      var q, r := p / a, p % a;
      assert r != 0;
      PrimeProduct(p, r, b);
      if (a * b) % p == 0 {
        var m := (a * b) / p;
        assert a * b == m * p;
        assert r * b == (b - q * m) * p + 0 by {
          assert p == q * a + r;
          assert r * b == p * b - q * (a * b);
        }
        ModMultiple(b - q * m, 0, p);
      }
    }
  }

  /** The first `size` probes are all different. */
  lemma ProbesDiffer(hash: nat, size: nat, j: nat, k: nat)
    requires size > 2 && Prime(size) && j < k < size
    ensures Probe(hash, size, j) != Probe(hash, size, k)
  {
    hide Prime, Incr;
    var start, i := hash % size, Incr(hash, size);
    assert Probe(hash, size, j) == (start + j * i) % size;
    assert Probe(hash, size, k) == (start + k * i) % size;
    StepsDiffer(start, i, size, j, k);
  }

  lemma StepsDiffer(start: nat, i: nat, size: nat, j: nat, k: nat)
    requires Prime(size) && 0 < i < size && j < k < size
    ensures (start + j * i) % size != (start + k * i) % size
  {
    hide Prime;
    PrimeProduct(size, k - j, i);
    if (start + j * i) % size == (start + k * i) % size {
      assert (k - j) * i == (start + k * i) - (start + j * i);
      EqualRemainders(start + j * i, start + k * i, size);
    }
  }

  lemma EqualRemainders(x: int, y: int, n: nat)
    requires n > 0 && x % n == y % n
    ensures (y - x) % n == 0
  {
    assert y - x == (y / n - x / n) * n + 0;
    ModUnique(y - x, y / n - x / n, 0, n);
  }

  /** `n` different numbers below `n` are all of them. */
  lemma Pigeonhole(s: seq<nat>, n: nat, r: nat)
    requires |s| == n && r < n && (forall i | 0 <= i < n :: s[i] < n)
    requires forall i, j | 0 <= i < j < n :: s[i] != s[j]
    ensures r in s
  {
    ElementsSize(s);
    BelowSize(n);
    SubsetOfSameSize(Elements(s), Below(n));
  }

  ghost function Elements(s: seq<nat>): (e: set<nat>)
    ensures forall x :: x in e <==> x in s
  {
    if s == [] then {} else Elements(s[1..]) + {s[0]}
  }

  lemma {:induction false} ElementsSize(s: seq<nat>)
    requires forall i, j | 0 <= i < j < |s| :: s[i] != s[j]
    ensures |Elements(s)| == |s|
    decreases |s|
  {
    if s != [] {
      var t := s[1..];
      assert forall i | 0 <= i < |t| :: t[i] == s[i + 1];
      ElementsSize(t);
      assert s[0] !in t;
    }
  }

  ghost function Below(n: nat): (b: set<nat>)
    ensures forall x: nat :: x in b <==> x < n
  {
    if n == 0 then {} else Below(n - 1) + {n - 1}
  }

  lemma {:induction false} BelowSize(n: nat)
    ensures |Below(n)| == n
  {
    if n > 0 {
      BelowSize(n - 1);
    }
  }

  lemma SubsetOfSameSize(a: set<nat>, b: set<nat>)
    requires a <= b && |a| == |b|
    ensures a == b
  {
    assert b == a + (b - a);
  }

  /** Every slot is inspected within the first `size` probes. */
  lemma ProbesCover(hash: nat, size: nat, r: nat) returns (k: nat)
    requires size > 2 && Prime(size) && r < size
    ensures k < size && Probe(hash, size, k) == r
  {
    var s := seq(size, k requires 0 <= k => Probe(hash, size, k));
    forall i | 0 <= i < size ensures s[i] < size {
      ProbeStep(hash, size, i);
    }
    forall i, j | 0 <= i < j < size ensures s[i] != s[j] {
      ProbesDiffer(hash, size, i, j);
    }
    Pigeonhole(s, size, r);
    k :| 0 <= k < size && s[k] == r;
  }

  // ----- lookup

  /** The identifier of string `i`. */
  function Id(c: Catalog, i: nat): string
    requires i < |c.orig|
  {
    CStr(c.orig[i])
  }

  ghost predicate Sorted(c: Catalog) {
    forall i, j | 0 <= i < j < |c.orig| :: StrCmp(Id(c, i), Id(c, j)) < 0
  }

  /** String `i` was put into the first empty slot of its probe sequence, at step `k`. */
  ghost predicate Filed(c: Catalog, tab: seq<nat>, i: nat, k: nat)
    requires |tab| > 2 && i < |c.orig|
  {
    var hash := Hash(Id(c, i));
    Probe(hash, |tab|, k) < |tab| && tab[Probe(hash, |tab|, k)] == i + 1 &&
    forall j | 0 <= j < k :: Probe(hash, |tab|, j) < |tab| && tab[Probe(hash, |tab|, j)] != 0
  }

  /** A hash table as it is written into a catalog: a prime size that fits a word, an empty slot,
      and every string filed along its probe sequence. */
  ghost predicate ValidTable(c: Catalog, tab: seq<nat>) {
    && 2 < |tab| < 0x1_0000_0000 && Prime(|tab|) && 0 in tab
    && (forall r | 0 <= r < |tab| :: tab[r] <= |c.orig|)
    && forall i | 0 <= i < |c.orig| :: Placed(c, tab, i)
  }

  ghost predicate Placed(c: Catalog, tab: seq<nat>, i: nat)
    requires |tab| > 2 && i < |c.orig|
  {
    exists k: nat :: Filed(c, tab, i, k)
  }

  /** The answer a lookup should give: the index of the identifier, if it is in the catalog. */
  ghost predicate Answers(c: Catalog, msgid: string, act: Option<nat>) {
    match act
    case Some(i) => i < |c.orig| && Id(c, i) == msgid
    case None => forall i | 0 <= i < |c.orig| :: Id(c, i) != msgid
  }

  lemma AnswerIsUnique(c: Catalog, msgid: string, a: Option<nat>, b: Option<nat>)
    requires Sorted(c) && Answers(c, msgid, a) && Answers(c, msgid, b)
    ensures a == b
  {
    if a.Some? && b.Some? && a.value != b.value {
      StrCmpEqual(msgid, msgid);
    }
  }

  /** The binary search branch of `_nl_find_msg`. */
  method BinarySearch(c: Catalog, msgid: string) returns (act: Option<nat>)
    requires Sorted(c)
    ensures Answers(c, msgid, act)
  {
    var bottom, top := 0, |c.orig|;
    while bottom < top
      invariant 0 <= bottom <= top <= |c.orig|
      invariant forall i | 0 <= i < bottom :: StrCmp(msgid, Id(c, i)) > 0
      invariant forall i | top <= i < |c.orig| :: StrCmp(msgid, Id(c, i)) < 0
    {
      var mid := (bottom + top) / 2;
      var cmp_val := StrCmp(msgid, Id(c, mid));
      StrCmpEqual(msgid, Id(c, mid));
      if cmp_val < 0 {
        forall i | mid <= i < top ensures StrCmp(msgid, Id(c, i)) < 0 {
          if mid < i {
            StrCmpTransitive(msgid, Id(c, mid), Id(c, i));
          }
        }
        top := mid;
      } else if cmp_val > 0 {
        forall i | bottom <= i <= mid ensures StrCmp(msgid, Id(c, i)) > 0 {
          StrCmpFlips(msgid, Id(c, mid));
          StrCmpFlips(msgid, Id(c, i));
          if i < mid {
            StrCmpTransitive(Id(c, i), Id(c, mid), msgid);
          }
        }
        bottom := mid + 1;
      } else {
        return Some(mid);
      }
    }
    forall i | 0 <= i < |c.orig| ensures Id(c, i) != msgid {
      StrCmpEqual(msgid, Id(c, i));
    }
    return None;
  }

  /** Step `j` of a search for `msgid` inspects another string. */
  ghost predicate Passed(c: Catalog, tab: seq<nat>, msgid: string, j: nat)
    requires |tab| > 2
  {
    var r := Probe(Hash(msgid), |tab|, j);
    r < |tab| && 0 < tab[r] <= |c.orig| && Id(c, tab[r] - 1) != msgid
  }

  /** The hash table branch: terminates within as many steps as there are slots. */
  method HashSearch(c: Catalog, tab: seq<nat>, msgid: string) returns (act: Option<nat>)
    requires ValidTable(c, tab) && '\0' !in msgid
    ensures Answers(c, msgid, act)
  {
    hide HashOf, Probe, Prime, Placed, Incr, NextSlot;
    var size := |tab|;
    var hash := HashString(msgid);
    var hash_val := hash as nat;
    assert hash_val == Hash(msgid);
    var idx, incr := hash_val % size, Incr(hash_val, size);
    ProbeStart(hash_val, size);
    ghost var empty :| 0 <= empty < size && tab[empty] == 0;
    ghost var last := ProbesCover(hash_val, size, empty);
    ghost var k := 0;
    ProbeStep(hash_val, size, 0);
    while true
      invariant 0 <= k <= last && idx == Probe(hash_val, size, k) < size
      invariant forall j | 0 <= j < k :: Passed(c, tab, msgid, j)
      decreases last - k
    {
      var nstr := tab[idx];
      if nstr == 0 {
        NotFiled(c, tab, msgid, k);
        return None;
      }
      if |c.orig[nstr - 1]| >= |msgid| && Id(c, nstr - 1) == msgid {
        return Some(nstr - 1);
      }
      ProbeStep(hash_val, size, k);
      ProbeStep(hash_val, size, k + 1);
      idx := NextSlot(idx, incr, size);
      k := k + 1;
    }
  }

  /** Meeting an empty slot, with other strings before it, means the string is not in the table. */
  lemma NotFiled(c: Catalog, tab: seq<nat>, msgid: string, k: nat)
    requires ValidTable(c, tab) && '\0' !in msgid
    requires var h := Hash(msgid);
             && Probe(h, |tab|, k) < |tab| && tab[Probe(h, |tab|, k)] == 0
             && forall j | 0 <= j < k :: Passed(c, tab, msgid, j)
    ensures Answers(c, msgid, None)
  {
    hide HashOf, Probe, Prime;
    forall i | 0 <= i < |c.orig| ensures Id(c, i) != msgid {
      assert Placed(c, tab, i);
      var m: nat :| Filed(c, tab, i, m);
      assert m < k ==> Passed(c, tab, msgid, m);
    }
  }

  /** The lookup part of `_nl_find_msg`: whichever branch runs, the message found is the same. */
  method FindMsg(c: Catalog, msgid: string) returns (act: Option<nat>)
    requires Sorted(c) && '\0' !in msgid
    requires c.hash_tab.Some? && |c.hash_tab.value| > 2 ==> ValidTable(c, c.hash_tab.value)
    ensures Answers(c, msgid, act) && forall other | Answers(c, msgid, other) :: act == other
  {
    if c.hash_tab.Some? && |c.hash_tab.value| > 2 {
      act := HashSearch(c, c.hash_tab.value, msgid);
    } else {
      act := BinarySearch(c, msgid);
    }
    forall other | Answers(c, msgid, other) ensures act == other {
      AnswerIsUnique(c, msgid, act, other);
    }
  }
}
