/** Taking the command off the front of a marked-up line, in place. */
module CmdMarkup {

  type Byte = b: int | 0 <= b < 256

  /** A Unicode character other than NUL. */
  type Char = c: int | 0 < c < 0x11_0000 witness 1

  const LT: Char := 0x3C
  const GT: Char := 0x3E

  // ----- UTF-8

  function Bytes(c: Char): (bs: seq<Byte>)
    ensures 1 <= |bs| <= 4
  {
    if c < 0x80 then [c]
    else if c < 0x800 then [0xC0 + c / 0x40, 0x80 + c % 0x40]
    else if c < 0x1_0000 then [0xE0 + c / 0x1000, 0x80 + c / 0x40 % 0x40, 0x80 + c % 0x40]
    else [0xF0 + c / 0x4_0000, 0x80 + c / 0x1000 % 0x40, 0x80 + c / 0x40 % 0x40, 0x80 + c % 0x40]
  }

  /** How many bytes the character takes that begins with this one. */
  function Width(lead: Byte): (n: nat)
    ensures 1 <= n <= 4
  {
    if lead < 0x80 then 1 else if lead < 0xE0 then 2 else if lead < 0xF0 then 3 else 4
  }

  /** `g_utf8_get_char`: the character that the bytes begin with. */
  function Decode(bs: seq<Byte>): int
    requires bs != [] && |bs| >= Width(bs[0])
  {
    var n, lead: int := Width(bs[0]), bs[0];
    if n == 1 then lead
    else if n == 2 then lead % 0x20 * 0x40 + Low(bs[1])
    else if n == 3 then lead % 0x10 * 0x1000 + Low(bs[1]) * 0x40 + Low(bs[2])
    else lead % 8 * 0x4_0000 + Low(bs[1]) * 0x1000 + Low(bs[2]) * 0x40 + Low(bs[3])
  }

  function Low(b: Byte): int { b % 0x40 }

  lemma LowIs(x: int)
    requires 0 <= x < 0x40
    ensures Low(0x80 + x) == x
  {
  }

  lemma LeadIs(x: int)
    requires 0 <= x
    ensures x < 0x20 ==> (0xC0 + x) % 0x20 == x
    ensures x < 0x10 ==> (0xE0 + x) % 0x10 == x
    ensures x < 8 ==> (0xF0 + x) % 8 == x
  {
  }

  /** The character in groups of six bits. */
  lemma SixBits(c: nat)
    ensures c == c / 0x40 * 0x40 + c % 0x40
    ensures c == c / 0x1000 * 0x1000 + c / 0x40 % 0x40 * 0x40 + c % 0x40
    ensures c == c / 0x4_0000 * 0x4_0000 + c / 0x1000 % 0x40 * 0x1000 + c / 0x40 % 0x40 * 0x40 + c % 0x40
  {
    assert c / 0x1000 == c / 0x40 / 0x40 && c / 0x4_0000 == c / 0x1000 / 0x40;
  }

  lemma DecodeBytes(c: Char, rest: seq<Byte>)
    ensures var bs := Bytes(c) + rest;
      bs != [] && Width(bs[0]) == |Bytes(c)| && |bs| >= Width(bs[0]) && Decode(bs) == c
  {
    hide Low;
    var bs := Bytes(c) + rest;
    assert bs[0] == Bytes(c)[0];
    if c < 0x80 {
    } else if c < 0x800 {
      Decode2(c, bs);
    } else if c < 0x1_0000 {
      Decode3(c, bs);
    } else {
      Decode4(c, bs);
    }
  }

  lemma Decode2(c: Char, bs: seq<Byte>)
    requires 0x80 <= c < 0x800 && |bs| >= 2 && bs[..2] == Bytes(c)
    ensures Width(bs[0]) == 2 && Decode(bs) == c
  {
    hide Low;
    assert bs[0] == bs[..2][0] && bs[1] == bs[..2][1];
    LowIs(c % 0x40);
    LeadIs(c / 0x40);
  }

  lemma Decode3(c: Char, bs: seq<Byte>)
    requires 0x800 <= c < 0x1_0000 && |bs| >= 3 && bs[..3] == Bytes(c)
    ensures Width(bs[0]) == 3 && Decode(bs) == c
  {
    hide Low;
    assert bs[0] == bs[..3][0] && bs[1] == bs[..3][1] && bs[2] == bs[..3][2];
    LowIs(c % 0x40);
    LowIs(c / 0x40 % 0x40);
    LeadIs(c / 0x1000);
    SixBits(c);
  }

  lemma Decode4(c: Char, bs: seq<Byte>)
    requires 0x1_0000 <= c && |bs| >= 4 && bs[..4] == Bytes(c)
    ensures Width(bs[0]) == 4 && Decode(bs) == c
  {
    hide Low;
    assert bs[0] == bs[..4][0] && bs[1] == bs[..4][1] && bs[2] == bs[..4][2] && bs[3] == bs[..4][3];
    LowIs(c % 0x40);
    LowIs(c / 0x40 % 0x40);
    LowIs(c / 0x1000 % 0x40);
    LeadIs(c / 0x4_0000);
    SixBits(c);
  }

  function Encode(t: seq<Char>): seq<Byte> {
    if t == [] then [] else Bytes(t[0]) + Encode(t[1..])
  }

  lemma {:induction false} EncodeJoin(t: seq<Char>, u: seq<Char>)
    ensures Encode(t + u) == Encode(t) + Encode(u)
    decreases |t|
  {
    if t == [] {
      assert t + u == u;
    } else {
      assert (t + u)[1..] == t[1..] + u;
      EncodeJoin(t[1..], u);
    }
  }

  /** Bytes that are no characters of their own are above all of ASCII. */
  lemma {:induction false} AsciiBytes(t: seq<Char>, x: Char)
    requires x < 0x80 && x !in t
    ensures x !in Encode(t) && 0 !in Encode(t)
    decreases |t|
  {
    if t != [] {
      assert t == [t[0]] + t[1..];
      AsciiBytes(t[1..], x);
      assert x !in Bytes(t[0]) && 0 !in Bytes(t[0]);
    }
  }

  lemma {:induction false} NoNul(t: seq<Char>)
    ensures 0 !in Encode(t)
    decreases |t|
  {
    if t != [] {
      NoNul(t[1..]);
      assert 0 !in Bytes(t[0]);
    }
  }

  // ----- what is left

  /** The first place of `x`, or the length. */
  function Find(t: seq<Char>, x: Char): (k: nat)
    ensures k <= |t| && x !in t[.. k] && (k < |t| ==> t[k] == x)
  {
    if t == [] then 0 else if t[0] == x then 0
    else
      var k := 1 + Find(t[1..], x);
      assert t[..k] == [t[0]] + t[1..][..k - 1];
      k
  }

  /** The line after its command: tags stay, other characters go, up to a space outside of tags. */
  function Strip(t: seq<Char>, space: Char -> bool): seq<Char>
    decreases |t|
  {
    if t == [] then []
    else if t[0] == LT then
      var k := Find(t, GT);
      if k == |t| then t else t[..k + 1] + Strip(t[k + 1..], space)
    else if space(t[0]) then t[1..]
    else Strip(t[1..], space)
  }

  /** Character by character: what stands between `<` and the next `>` stays, and so does a `<` that no `>` follows with
      all behind it; another character goes, and a space is the last to go. */
  lemma StripWritten(a: seq<Char>, c: Char, t: seq<Char>, space: Char -> bool)
    requires '>' as int !in a && c != '<' as int
    ensures Strip(['<' as int] + a + ['>' as int] + t, space) == ['<' as int] + a + ['>' as int] + Strip(t, space)
    ensures Strip(['<' as int] + a, space) == ['<' as int] + a
    ensures Strip([c] + t, space) == if space(c) then t else Strip(t, space)
    ensures Strip([], space) == []
  {
    var tag: seq<Char> := ['<' as int] + a + ['>' as int];
    FindAfter(['<' as int] + a, '>' as int, t);
    assert (tag + t)[..|tag|] == tag && (tag + t)[|tag|..] == t && tag + t == ['<' as int] + a + ['>' as int] + t;
  }

  lemma FindAfter(a: seq<Char>, x: Char, t: seq<Char>)
    requires x !in a
    ensures Find(a + [x] + t, x) == |a| && Find(a, x) == |a|
  {
    var s := a + [x] + t;
    assert s[|a|] == x;
  }

  /** A line without its tags; what begins with an unclosed `<` is no tag. */
  function NoTags(t: seq<Char>): seq<Char>
    decreases |t|
  {
    if t == [] then []
    else if t[0] == LT then
      var k := Find(t, GT);
      if k == |t| then t else NoTags(t[k + 1..])
    else [t[0]] + NoTags(t[1..])
  }

  /** The tags of a line. */
  function Tags(t: seq<Char>): seq<Char>
    decreases |t|
  {
    if t == [] then []
    else if t[0] == LT then
      var k := Find(t, GT);
      if k == |t| then [] else t[..k + 1] + Tags(t[k + 1..])
    else Tags(t[1..])
  }

  /** Plain text without its first word and one space. */
  function DropWord(u: seq<Char>, space: Char -> bool): seq<Char> {
    if u == [] then [] else if space(u[0]) then u[1..] else DropWord(u[1..], space)
  }

  /** Where the command ends: at a space outside of tags, at an unclosed `<`, or with the line. */
  function WordEnd(t: seq<Char>, space: Char -> bool): (n: nat)
    ensures n <= |t|
    decreases |t|
  {
    if t == [] then 0
    else if t[0] == LT then
      var k := Find(t, GT);
      if k == |t| then 0 else k + 1 + WordEnd(t[k + 1..], space)
    else if space(t[0]) then 0
    else 1 + WordEnd(t[1..], space)
  }

  /** An unclosed `<` comes before any space outside of tags. */
  predicate EndsUnclosed(t: seq<Char>, space: Char -> bool)
    decreases |t|
  {
    t != [] &&
    if t[0] == LT then Find(t, GT) == |t| || EndsUnclosed(t[Find(t, GT) + 1..], space)
    else !space(t[0]) && EndsUnclosed(t[1..], space)
  }

  lemma {:induction false} UnclosedMeaning(t: seq<Char>, space: Char -> bool)
    ensures var n := WordEnd(t, space); EndsUnclosed(t, space) <==> n < |t| && t[n] == '<' as int
    decreases |t|
  {
    hide Find;
    if t != [] {
      if t[0] == LT {
        var k := Find(t, GT);
        if k < |t| {
          UnclosedMeaning(t[k + 1..], space);
        }
      } else if !space(t[0]) {
        UnclosedMeaning(t[1..], space);
      }
    }
  }

  lemma {:induction false} FindIn(t: seq<Char>, n: nat, x: Char)
    requires n <= |t| && Find(t, x) < n
    ensures Find(t[..n], x) == Find(t, x)
    decreases |t|
  {
    if t[0] != x {
      FindIn(t[1..], n - 1, x);
      assert t[..n][1..] == t[1..][..n - 1];
    }
  }

  /** The line from `n` on, less one space. */
  function Following(t: seq<Char>, n: nat): seq<Char>
    requires n <= |t|
  {
    if n < |t| && t[n] != LT then t[n + 1..] else t[n..]
  }

  lemma Joined(a: seq<Char>, b: seq<Char>, c: seq<Char>)
    ensures a + b + c == a + (b + c)
  {
  }

  /** What is left is the tags of the command and what follows it, less one space. */
  lemma {:induction false} StripMeaning(t: seq<Char>, space: Char -> bool)
    ensures var n := WordEnd(t, space);
      && Strip(t, space) == Tags(t[..n]) + Following(t, n)
      && (n < |t| && t[n] != '<' as int ==> space(t[n]))
    decreases |t|
  {
    hide Find, Tags, Following;
    TagsNone(t);
    if t == [] {
    } else if t[0] == LT {
      var k := Find(t, GT);
      if k < |t| {
        StripMeaning(t[k + 1..], space);
        var m := WordEnd(t[k + 1..], space);
        TagFirst(t, k, m);
        Joined(t[..k + 1], Tags(t[k + 1..][..m]), Following(t[k + 1..], m));
      }
    } else if !space(t[0]) {
      StripMeaning(t[1..], space);
      CharFirst(t, WordEnd(t[1..], space));
    }
  }

  lemma TagsNone(t: seq<Char>)
    ensures Tags(t[..0]) == [] && Following(t, 0) == if t != [] && t[0] != LT then t[1..] else t
  {
  }

  /** The parts of a line that begins with a tag, or with a character. */
  lemma TagFirst(t: seq<Char>, k: nat, m: nat)
    requires t != [] && t[0] == LT && k == Find(t, GT) < |t| && k + 1 + m <= |t|
    ensures Tags(t[..k + 1 + m]) == t[..k + 1] + Tags(t[k + 1..][..m])
    ensures Following(t[k + 1..], m) == Following(t, k + 1 + m)
    ensures m < |t[k + 1..]| ==> t[k + 1..][m] == t[k + 1 + m]
  {
    hide Find;
    FindIn(t, k + 1 + m, GT);
    Slices(t, k + 1, m);
    assert t[..k + 1 + m][0] == LT;
  }

  lemma Slices(t: seq<Char>, k: nat, m: nat)
    requires k + m <= |t|
    ensures t[..k + m][..k] == t[..k] && t[..k + m][k..] == t[k..][..m] && t[k..][m..] == t[k + m..]
    ensures k + m < |t| ==> t[k..][m] == t[k + m] && t[k..][m + 1..] == t[k + m + 1..]
  {
  }

  lemma CharFirst(t: seq<Char>, m: nat)
    requires t != [] && t[0] != LT && 1 + m <= |t|
    ensures Tags(t[..1 + m]) == Tags(t[1..][..m])
    ensures Following(t[1..], m) == Following(t, 1 + m)
    ensures m < |t[1..]| ==> t[1..][m] == t[1 + m]
  {
    assert t[..1 + m][1..] == t[1..][..m];
  }

  /** The characters of the command outside of its tags: plain text without a space. */
  lemma {:induction false} StripIsDropWord(t: seq<Char>, space: Char -> bool)
    requires !EndsUnclosed(t, space)
    ensures NoTags(Strip(t, space)) == DropWord(NoTags(t), space)
    decreases |t|
  {
    hide Find;
    if t == [] {
    } else if t[0] == LT {
      var k := Find(t, GT);
      var u := t[k + 1..];
      if k < |t| {
        StripIsDropWord(u, space);
        TagSkipped(t, k, Strip(u, space));
      }
    } else {
      WordGoes(t[0], NoTags(t[1..]), space);
      if !space(t[0]) {
        StripIsDropWord(t[1..], space);
      }
    }
  }

  lemma TagSkipped(t: seq<Char>, k: nat, rest: seq<Char>)
    requires t != [] && t[0] == LT && k == Find(t, GT) < |t|
    ensures NoTags(t[..k + 1] + rest) == NoTags(rest)
  {
    var u := t[..k + 1] + rest;
    FindIn(t, k + 1, GT);
    assert u[..k + 1] == t[..k + 1];
    FindJoined(t[..k + 1], rest, GT);
    assert u[k + 1..] == rest;
  }

  lemma {:induction false} FindJoined(t: seq<Char>, u: seq<Char>, x: Char)
    requires x in t
    ensures Find(t + u, x) == Find(t, x)
    decreases |t|
  {
    if t[0] != x {
      assert t == [t[0]] + t[1..] && (t + u)[1..] == t[1..] + u;
      FindJoined(t[1..], u, x);
    }
  }

  /** With an unclosed `<` in the command the rest of the line stays as it is, which is too much. */
  lemma {:induction false} UnclosedStays(t: seq<Char>, space: Char -> bool)
    requires EndsUnclosed(t, space) && !space(LT)
    ensures |NoTags(Strip(t, space))| > |DropWord(NoTags(t), space)|
    decreases |t|
  {
    hide Find;
    if t[0] == LT {
      var k := Find(t, GT);
      if k == |t| {
        DropsSome(t, space);
      } else {
        UnclosedStays(t[k + 1..], space);
        TagSkipped(t, k, Strip(t[k + 1..], space));
      }
    } else {
      UnclosedStays(t[1..], space);
      WordGoes(t[0], NoTags(t[1..]), space);
    }
  }

  lemma WordGoes(c: Char, u: seq<Char>, space: Char -> bool)
    ensures DropWord([c] + u, space) == if space(c) then u else DropWord(u, space)
  {
    assert ([c] + u)[1..] == u;
  }

  lemma {:induction false} DropsSome(u: seq<Char>, space: Char -> bool)
    ensures u != [] ==> |DropWord(u, space)| < |u|
    decreases |u|
  {
    if u != [] {
      DropsSome(u[1..], space);
    }
  }

  /** So taking the tags away afterwards gives the plain text without its first word and one space if and only if
      no unclosed `<` comes before the space. */
  lemma StripRight(t: seq<Char>, space: Char -> bool)
    requires !space(LT)
    ensures NoTags(Strip(t, space)) == DropWord(NoTags(t), space) <==> !EndsUnclosed(t, space)
  {
    if EndsUnclosed(t, space) {
      UnclosedStays(t, space);
    } else {
      StripIsDropWord(t, space);
    }
  }

  // ----- in place

  /** From `s` on the buffer holds the bytes `e` and a NUL. */
  ghost predicate HoldsAt(bs: seq<Byte>, s: nat, e: seq<Byte>) {
    s + |e| < |bs| && bs[s + |e|] == 0 && forall i | 0 <= i < |e| :: bs[s + i] == e[i] && e[i] != 0
  }

  /** In the middle of it: the bytes kept so far, then those still to be looked at, within the first `len + 1` bytes. */
  ghost predicate Midway(bs: seq<Byte>, bs0: seq<Byte>, len: nat, s: nat, kept: seq<Byte>, rest: seq<Byte>) {
    && len < |bs| == |bs0| && s == |kept| && s + |rest| <= len
    && (forall i | 0 <= i < s :: bs[i] == kept[i] && kept[i] != 0) && HoldsAt(bs, s, rest)
    && forall i | len < i < |bs| :: bs[i] == bs0[i]
  }

  /** The buffer when `n` bytes have moved from `src` to `dst`. */
  function AfterMove(bs: seq<Byte>, dst: nat, src: nat, n: nat): (r: seq<Byte>)
    requires dst + n <= |bs| && src + n <= |bs|
    ensures |r| == |bs|
    ensures forall i | dst <= i < dst + n :: r[i] == bs[i - dst + src]
    ensures forall i | 0 <= i < dst || dst + n <= i < |bs| :: r[i] == bs[i]
  {
    bs[..dst] + bs[src..src + n] + bs[dst + n..]
  }

  /** The next `w` bytes are taken out; the length that was measured at the beginning still does. */
  lemma BytesGo(bs: seq<Byte>, bs0: seq<Byte>, len: nat, s: nat, kept: seq<Byte>, rest: seq<Byte>, w: nat)
    requires Midway(bs, bs0, len, s, kept, rest) && w <= |rest|
    ensures Midway(AfterMove(bs, s, s + w, len - s + 1 - w), bs0, len, s, kept, rest[w..])
  {
    hide AfterMove;
    var m, e := AfterMove(bs, s, s + w, len - s + 1 - w), rest[w..];
    forall i | 0 <= i < |e| ensures m[s + i] == e[i] && e[i] != 0 {
      assert e[i] == rest[w + i] == bs[s + (w + i)];
    }
    assert m[s + |e|] == bs[s + |rest|];
  }

  /** The next `w` bytes stay. */
  lemma BytesStay(bs: seq<Byte>, bs0: seq<Byte>, len: nat, s: nat, kept: seq<Byte>, rest: seq<Byte>, w: nat)
    requires Midway(bs, bs0, len, s, kept, rest) && w <= |rest|
    ensures Midway(bs, bs0, len, s + w, kept + rest[..w], rest[w..])
  {
    var k, e := kept + rest[..w], rest[w..];
    forall i | 0 <= i < s + w ensures bs[i] == k[i] && k[i] != 0 {
      assert i >= s ==> k[i] == rest[i - s];
    }
    forall i | 0 <= i < |e| ensures bs[s + w + i] == e[i] && e[i] != 0 {
      assert e[i] == rest[w + i];
    }
  }

  lemma MidwayEnd(bs: seq<Byte>, bs0: seq<Byte>, len: nat, s: nat, kept: seq<Byte>, rest: seq<Byte>)
    requires Midway(bs, bs0, len, s, kept, rest)
    ensures HoldsAt(bs, 0, kept + rest) && |bs| == |bs0| && len < |bs| && bs[len + 1..] == bs0[len + 1..]
  {
    var e := kept + rest;
    forall i | 0 <= i < |e| ensures bs[0 + i] == e[i] && e[i] != 0 {
      assert i >= s ==> e[i] == rest[i - s] == bs[s + (i - s)];
    }
  }

  lemma DecodeOwn(c: Char)
    ensures Width(Bytes(c)[0]) == |Bytes(c)| && Decode(Bytes(c)) == c
  {
    hide Decode, Bytes, Width;
    DecodeBytes(c, []);
    assert Bytes(c) + [] == Bytes(c);
  }

  lemma EncodeFirst(rest: seq<Char>)
    requires rest != []
    ensures Encode(rest) == Bytes(rest[0]) + Encode(rest[1..])
  {
  }

  /** The bytes at hand are those of the next character. */
  lemma NextChar(bs: seq<Byte>, s: nat, rest: seq<Char>)
    requires HoldsAt(bs, s, Encode(rest)) && rest != []
    ensures s < |bs| && bs[s] != 0 && Width(bs[s]) == |Bytes(rest[0])| <= |Encode(rest)| && s + |Bytes(rest[0])| <= |bs|
    ensures Decode(bs[s..s + |Bytes(rest[0])|]) == rest[0]
    ensures Encode(rest)[|Bytes(rest[0])|..] == Encode(rest[1..])
  {
    hide Decode, Bytes, Width, HoldsAt, Encode;
    EncodeFirst(rest);
    DecodeOwn(rest[0]);
    FrontOf(bs, s, Bytes(rest[0]), Encode(rest[1..]));
  }

  lemma FrontOf(bs: seq<Byte>, s: nat, b: seq<Byte>, e: seq<Byte>)
    requires HoldsAt(bs, s, b + e) && b != []
    ensures s + |b| <= |bs| && bs[s..s + |b|] == b && bs[s] == b[0] && bs[s] != 0 && (b + e)[|b|..] == e
  {
    assert forall i | 0 <= i < |b| :: bs[s + i] == (b + e)[i] == b[i];
    assert bs[s + 0] == b[0];
  }

  lemma FirstIsOne(e: seq<Byte>, x: Byte, a: nat, b: nat)
    requires a < |e| && e[a] == x && x !in e[..a] && b < |e| && x !in e[..b] && e[b] == x
    ensures a == b
  {
    assert forall i | 0 <= i < a :: e[i] == e[..a][i];
    assert forall i | 0 <= i < b :: e[i] == e[..b][i];
  }

  /** The first byte `>` is that of the first character `>`. */
  lemma FindByte(rest: seq<Char>, x: Char)
    requires x < 0x80
    ensures var k := Find(rest, x);
      if k == |rest| then x !in Encode(rest)
      else var e, a := Encode(rest), |Encode(rest[..k])|;
        && a < |e| && e[a] == x && x in e && x !in e[..a]
        && e[..a + 1] == Encode(rest[..k + 1]) && e[a + 1..] == Encode(rest[k + 1..])
  {
    var k := Find(rest, x);
    AsciiBytes(rest[..k], x);
    if k == |rest| {
      assert rest[..k] == rest;
    } else {
      assert rest == rest[..k + 1] + rest[k + 1..] && rest[..k + 1] == rest[..k] + [x];
      EncodeJoin(rest[..k + 1], rest[k + 1..]);
      EncodeJoin(rest[..k], [x]);
      assert [x][1..] == [] && Bytes(x) == [x] && Encode([x]) == [x];
    }
  }

  /** So the byte found ends the tag. */
  lemma TagEnd(rest: seq<Char>, p: nat)
    requires p < |Encode(rest)| && Encode(rest)[p] == GT && GT !in Encode(rest)[..p]
    ensures var k := Find(rest, GT);
      k < |rest| && Encode(rest)[..p + 1] == Encode(rest[..k + 1]) && Encode(rest)[p + 1..] == Encode(rest[k + 1..])
  {
    FindByte(rest, GT);
    var k, e := Find(rest, GT), Encode(rest);
    assert e[p] in e;
    FirstIsOne(e, GT, p, |Encode(rest[..k])|);
  }

  /** `strlen` */
  method StrLen(buf: array<Byte>, ghost e: seq<Byte>) returns (n: nat)
    requires HoldsAt(buf[..], 0, e)
    ensures n == |e|
  {
    n := 0;
    while buf[n] != 0
      invariant n <= |e|
      decreases |e| - n
    {
      n := n + 1;
    }
    AtPlace(buf[..], 0, e, n);
  }

  /** `strchr` from `s` */
  method StrChr(buf: array<Byte>, s: nat, x: Byte, ghost e: seq<Byte>) returns (found: bool, p: nat)
    requires HoldsAt(buf[..], s, e) && x != 0
    ensures found ==> s <= p < s + |e| && e[p - s] == x && x !in e[..p - s]
    ensures !found ==> x !in e
  {
    p := s;
    while buf[p] != 0 && buf[p] != x
      invariant s <= p <= s + |e| && x !in e[..p - s]
      decreases s + |e| - p
    {
      AtPlace(buf[..], s, e, p);
      assert e[..p + 1 - s] == e[..p - s] + [e[p - s]];
      p := p + 1;
    }
    AtPlace(buf[..], s, e, p);
    found := buf[p] == x;
    assert e[..|e|] == e;
  }

  lemma AtPlace(bs: seq<Byte>, s: nat, e: seq<Byte>, p: nat)
    requires HoldsAt(bs, s, e) && s <= p <= s + |e|
    ensures p < s + |e| ==> bs[p] == e[p - s] && bs[p] != 0
    ensures p == s + |e| ==> bs[p] == 0
  {
    assert p < s + |e| ==> bs[s + (p - s)] == e[p - s];
  }

  /** `memmove` down */
  method MemMove(buf: array<Byte>, dst: nat, src: nat, n: nat)
    requires dst <= src && src + n <= buf.Length
    modifies buf
    ensures buf[..] == AfterMove(old(buf[..]), dst, src, n)
  {
    var i := 0;
    while i < n
      invariant i <= n
      invariant forall j | 0 <= j < dst :: buf[j] == old(buf[j])
      invariant forall j | dst <= j < dst + i :: buf[j] == old(buf[..])[j - dst + src]
      invariant forall j | dst + i <= j < buf.Length :: buf[j] == old(buf[j])
    {
      buf[dst + i] := buf[src + i];
      i := i + 1;
    }
  }

  /** `gaim_cmd_strip_cmd_from_markup`: the buffer holds the line, and what is left of it afterwards; nothing past the
      NUL of the line is written. */
  method StripCommand(buf: array<Byte>, space: Char -> bool, ghost t: seq<Char>)
    requires HoldsAt(buf[..], 0, Encode(t))
    modifies buf
    ensures HoldsAt(buf[..], 0, Encode(Strip(t, space)))
    ensures buf[|Encode(t)| + 1..] == old(buf[|Encode(t)| + 1..])
  {
    hide Encode, HoldsAt, Midway, Decode, Width, Find, Bytes, AfterMove, Strip;
    ghost var bs0 := buf[..];
    var len := StrLen(buf, Encode(t));
    var s: nat := 0;
    ghost var kept, rest := [], t;
    MidwayStart(bs0, t);
    assert [] + Strip(t, space) == Strip(t, space);
    while true
      invariant Midway(buf[..], bs0, len, s, Encode(kept), Encode(rest))
      invariant Strip(t, space) == kept + Strip(rest, space)
      decreases |rest|
    {
      Inside(buf[..], bs0, len, s, Encode(kept), Encode(rest), rest);
      StripNext(rest, space);
      if buf[s] == 0 {
        break;
      }
      NextChar(buf[..], s, rest);
      var c: Char := Decode(buf[..][s..s + Width(buf[s])]);
      if c == LT {
        var found, p := StrChr(buf, s, GT, Encode(rest));
        if !found {
          NoTagLeft(rest);
          break;
        }
        KeepTag(buf[..], bs0, len, s, kept, rest, p, space);
        ghost var k := Find(rest, GT);
        s := p + 1;
        kept, rest := kept + rest[..k + 1], rest[k + 1..];
      } else {
        var w := |Bytes(c)|;
        BytesGo(buf[..], bs0, len, s, Encode(kept), Encode(rest), w);
        MemMove(buf, s, s + w, len - s + 1 - w);
        rest := rest[1..];
        if space(c) {
          MidwayEnd(buf[..], bs0, len, s, Encode(kept), Encode(rest));
          EncodeJoin(kept, rest);
          return;
        }
      }
    }
    MidwayEnd(buf[..], bs0, len, s, Encode(kept), Encode(rest));
    EncodeJoin(kept, rest);
  }

  lemma MidwayStart(bs: seq<Byte>, t: seq<Char>)
    requires HoldsAt(bs, 0, Encode(t))
    ensures Midway(bs, bs, |Encode(t)|, 0, Encode([]), Encode(t))
  {
  }

  lemma KeepTag(bs: seq<Byte>, bs0: seq<Byte>, len: nat, s: nat, kept: seq<Char>, rest: seq<Char>, p: nat,
                space: Char -> bool)
    requires Midway(bs, bs0, len, s, Encode(kept), Encode(rest)) && rest != [] && rest[0] == LT
    requires s <= p < s + |Encode(rest)| && Encode(rest)[p - s] == GT && GT !in Encode(rest)[..p - s]
    ensures var k := Find(rest, GT);
      && k < |rest| && Midway(bs, bs0, len, p + 1, Encode(kept + rest[..k + 1]), Encode(rest[k + 1..]))
      && kept + Strip(rest, space) == (kept + rest[..k + 1]) + Strip(rest[k + 1..], space)
  {
    hide Encode, Midway, Find, Strip;
    TagEnd(rest, p - s);
    var k := Find(rest, GT);
    BytesStay(bs, bs0, len, s, Encode(kept), Encode(rest), p + 1 - s);
    EncodeJoin(kept, rest[..k + 1]);
    StripNext(rest, space);
    Joined(kept, rest[..k + 1], Strip(rest[k + 1..], space));
  }

  lemma StripNext(rest: seq<Char>, space: Char -> bool)
    ensures Strip(rest, space) ==
      if rest == [] then rest
      else if rest[0] == LT then
        (if Find(rest, GT) == |rest| then rest
         else rest[..Find(rest, GT) + 1] + Strip(rest[Find(rest, GT) + 1..], space))
      else if space(rest[0]) then rest[1..]
      else Strip(rest[1..], space)
  {
  }

  lemma Inside(bs: seq<Byte>, bs0: seq<Byte>, len: nat, s: nat, kept: seq<Byte>, e: seq<Byte>, rest: seq<Char>)
    requires Midway(bs, bs0, len, s, kept, e) && e == Encode(rest)
    ensures s + |e| <= len < |bs| && HoldsAt(bs, s, e)
    ensures bs[s] == 0 <==> rest == []
  {
    if rest != [] {
      NextChar(bs, s, rest);
    }
  }

  lemma NoTagLeft(rest: seq<Char>)
    requires GT !in Encode(rest)
    ensures Find(rest, GT) == |rest|
  {
    FindByte(rest, GT);
  }
}
