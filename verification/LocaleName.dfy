/** Locale names: how a name is taken apart in place, and what a mask of its parts spells. */
module LocaleName {
  import opened CStrings
  import opened LocaleMask
  import opened Wrappers

  /** The parts of a locale name. A part that the name does not have is empty and its flag is off. */
  datatype Parts = Parts(language: string, territory: string, codeset: string, normalized: string,
                         modifier: string, special: string, sponsor: string, revision: string)

  // ----- what a mask spells

  function Segment(present: bool, sep: char, s: string): string {
    if present then [sep] + s else ""
  }

  function ModifierSign(mask: bv8): char {
    if Has(mask, CEN_AUDIENCE) then '+' else '@'
  }

  function Sponsorship(p: Parts, mask: bv8): string {
    (if Has(mask, CEN_SPONSOR) then p.sponsor else "") + Segment(Has(mask, CEN_REVISION), '_', p.revision)
  }

  /** The locale directory name of the parts in `mask`. */
  function Spell(p: Parts, mask: bv8): string {
    p.language
    + Segment(Has(mask, TERRITORY), '_', p.territory)
    + Segment(Has(mask, XPG_CODESET), '.', p.codeset)
    + Segment(Has(mask, XPG_NORM_CODESET), '.', p.normalized)
    + Segment(Has(mask, XPG_MODIFIER | CEN_AUDIENCE), ModifierSign(mask), p.modifier)
    + Segment(Has(mask, CEN_SPECIAL), '+', p.special)
    + Segment(Has(mask, CEN_SPONSOR | CEN_REVISION), ',', Sponsorship(p, mask))
  }

  // ----- normalised codesets

  predicate IsAlpha(c: char) { 'a' <= c <= 'z' || 'A' <= c <= 'Z' }
  predicate IsDigit(c: char) { '0' <= c <= '9' }
  predicate IsAlnum(c: char) { IsAlpha(c) || IsDigit(c) }

  function ToLower(c: char): char {
    if 'A' <= c <= 'Z' then c - 'A' + 'a' else c
  }

  /** The letters, in lower case, and the digits. */
  function Kept(codeset: string): (r: string)
    ensures forall c | c in r :: IsDigit(c) || 'a' <= c <= 'z'
  {
    if codeset == "" then ""
    else
      var c := codeset[|codeset| - 1];
      Kept(codeset[..|codeset| - 1]) + if IsAlnum(c) then [ToLower(c)] else ""
  }

  predicate OnlyDigits(codeset: string) { forall c | c in codeset :: !IsAlpha(c) }

  /** A codeset name without punctuation and case; a bare number is an ISO standard. */
  function Normalize(codeset: string): string {
    (if OnlyDigits(codeset) then "iso" else "") + Kept(codeset)
  }

  lemma KeptNext(s: string, k: nat)
    requires k < |s|
    ensures Kept(s[..k + 1]) == Kept(s[..k]) + if IsAlnum(s[k]) then [ToLower(s[k])] else ""
    ensures OnlyDigits(s[..k + 1]) <==> OnlyDigits(s[..k]) && !IsAlpha(s[k])
  {
    assert s[..k + 1][..k] == s[..k];
    assert s[..k + 1] == s[..k] + [s[k]];
  }

  lemma KeptGrows(s: string, k: nat)
    requires k <= |s|
    ensures |Kept(s[..k])| <= |Kept(s)|
    decreases |s| - k
  {
    if k < |s| {
      KeptNext(s, k);
      KeptGrows(s, k + 1);
    } else {
      assert s[..k] == s;
    }
  }

  lemma {:induction false} KeptOfNormal(s: string)
    requires forall c | c in s :: IsDigit(c) || 'a' <= c <= 'z'
    ensures Kept(s) == s
    decreases |s|
  {
    if s != "" {
      var n := |s| - 1;
      assert s[n] in s && s == s[..n] + [s[n]];
      KeptOfNormal(s[..n]);
      assert ToLower(s[n]) == s[n];
    }
  }

  lemma {:induction false} LetterIsKept(s: string, k: nat)
    requires k < |s| && IsAlpha(s[k])
    ensures ToLower(s[k]) in Kept(s) && IsAlpha(ToLower(s[k]))
    decreases |s|
  {
    var n := |s| - 1;
    if k < n {
      LetterIsKept(s[..n], k);
    } else {
      assert Kept(s)[|Kept(s[..n])|] == ToLower(s[n]);
    }
  }

  /** Normalising what is normal already changes nothing. */
  lemma NormalizeIsIdempotent(codeset: string)
    ensures Normalize(Normalize(codeset)) == Normalize(codeset)
  {
    hide Kept, ToLower, IsAlnum;
    KeptOfNormal(Normalize(codeset));
    if OnlyDigits(codeset) {
      assert Normalize(codeset)[0] == 'i' && IsAlpha('i');
      assert !OnlyDigits(Normalize(codeset));
    } else {
      var k :| 0 <= k < |codeset| && IsAlpha(codeset[k]);
      LetterIsKept(codeset, k);
    }
  }

  /** Lower-case letters and digits stay as they are, after `iso` if there is no letter. */
  lemma NormalIsKept(codeset: string)
    requires forall c | c in codeset :: '0' <= c <= '9' || 'a' <= c <= 'z'
    ensures Normalize(codeset) == if exists c :: c in codeset && 'a' <= c <= 'z' then codeset else "iso" + codeset
  {
    KeptOfNormal(codeset);
  }

  lemma AlikeKept(c: char, d: char)
    requires Alike(c, d)
    ensures IsAlpha(c) == IsAlpha(d) && IsDigit(c) == IsDigit(d)
      && (IsAlpha(c) || IsDigit(c) ==> ToLower(c) == ToLower(d))
  {
  }

  lemma {:induction false} KeptAlike(a: string, b: string)
    requires |a| == |b| && forall k | 0 <= k < |a| :: Alike(a[k], b[k])
    ensures Kept(a) == Kept(b)
    decreases |a|
  {
    hide Alike, ToLower, IsAlpha, IsDigit;
    if a != "" {
      var n := |a| - 1;
      KeptAlike(a[..n], b[..n]);
      AlikeKept(a[n], b[n]);
    }
  }

  /** Letters that differ in case only, and characters that are no letters or digits, count as the same. */
  predicate Alike(c: char, d: char) {
    || c == d
    || ('A' <= c <= 'Z' && 'a' <= d <= 'z' && c as int - 'A' as int == d as int - 'a' as int)
    || ('A' <= d <= 'Z' && 'a' <= c <= 'z' && d as int - 'A' as int == c as int - 'a' as int)
    || (!('A' <= c <= 'Z' || 'a' <= c <= 'z' || '0' <= c <= '9')
        && !('A' <= d <= 'Z' || 'a' <= d <= 'z' || '0' <= d <= '9'))
  }

  /** Case and the choice of punctuation do not matter. */
  lemma CaseIsIgnored(a: string, b: string)
    requires |a| == |b|
    requires forall k | 0 <= k < |a| ::
               || a[k] == b[k]
               || ('A' <= a[k] <= 'Z' && 'a' <= b[k] <= 'z' && a[k] as int - 'A' as int == b[k] as int - 'a' as int)
               || ('A' <= b[k] <= 'Z' && 'a' <= a[k] <= 'z' && b[k] as int - 'A' as int == a[k] as int - 'a' as int)
               || (!('A' <= a[k] <= 'Z' || 'a' <= a[k] <= 'z' || '0' <= a[k] <= '9')
                   && !('A' <= b[k] <= 'Z' || 'a' <= b[k] <= 'z' || '0' <= b[k] <= '9'))
    ensures Normalize(a) == Normalize(b)
  {
    hide Kept;
    forall k | 0 <= k < |a| ensures Alike(a[k], b[k]) && IsAlpha(a[k]) == IsAlpha(b[k]) {
    }
    KeptAlike(a, b);
  }

  lemma {:induction false} KeptJoined(a: string, b: string)
    ensures Kept(a + b) == Kept(a) + Kept(b)
    decreases |b|
  {
    if b == "" {
      assert a + b == a && Kept(a) + "" == Kept(a);
    } else {
      var n := |b| - 1;
      assert (a + b)[..|a + b| - 1] == a + b[..n] && (a + b)[|a + b| - 1] == b[n];
      KeptJoined(a, b[..n]);
    }
  }

  /** Nor does punctuation at all. */
  lemma PunctuationIsIgnored(a: string, c: char, b: string)
    requires !('A' <= c <= 'Z' || 'a' <= c <= 'z' || '0' <= c <= '9')
    ensures Normalize(a + [c] + b) == Normalize(a + b)
  {
    KeptJoined(a + [c], b);
    KeptJoined(a, [c]);
    KeptJoined(a, b);
    assert Kept([c]) == "" && Kept(a) + "" == Kept(a) by {
      assert [c][..0] == "";
    }
    assert forall x | x in a + b :: x in a + [c] + b;
    assert forall x | x in a + [c] + b :: x in a + b || x == c;
  }

  /** So the common codesets have the names that are expected of them. */
  lemma Utf8IsNormalized()
    ensures Normalize("UTF-8") == Normalize("utf_8") == "utf8"
  {
    hide Normalize;
    CaseIsIgnored("UTF-8", "utf-8");
    CaseIsIgnored("utf_8", "utf-8");
    assert "utf-8" == "utf" + ['-'] + "8";
    PunctuationIsIgnored("utf", '-', "8");
    assert "utf" + "8" == "utf8" && "utf8"[0] == 'u';
    assert 'u' in "utf8" && 'a' <= 'u' <= 'z';
    NormalIsKept("utf8");
  }

  lemma Latin1IsNormalized()
    ensures Normalize("8859-1") == "iso88591"
  {
    hide Normalize;
    assert "8859-1" == "8859" + ['-'] + "1";
    PunctuationIsIgnored("8859", '-', "1");
    assert "8859" + "1" == "88591";
    NormalIsKept("88591");
    assert "iso" + "88591" == "iso88591";
  }

  /** Adds one character to a string that is being written into an array. */
  method Put(a: array<char>, at: nat, c: char)
    requires at < a.Length
    modifies a
    ensures a[..at + 1] == old(a[..at]) + [c]
  {
    a[at] := c;
  }

  /** `_nl_normalize_codeset`: counts, allocates exactly that and fills it. */
  method NormalizeCodeset(codeset: string) returns (retval: array<char>)
    ensures fresh(retval) && retval.Length == |Normalize(codeset)| + 1
    ensures retval[..] == Normalize(codeset) + "\0"
  {
    hide Kept, ToLower;
    var len, only_digit := 0, true;
    var cnt := 0;
    KeptOfNormal("");
    while cnt < |codeset|
      invariant cnt <= |codeset|
      invariant len == |Kept(codeset[..cnt])|
      invariant only_digit <==> OnlyDigits(codeset[..cnt])
    {
      KeptNext(codeset, cnt);
      if IsAlnum(codeset[cnt]) {
        len := len + 1;
        if IsAlpha(codeset[cnt]) {
          only_digit := false;
        }
      }
      cnt := cnt + 1;
    }
    assert codeset[..cnt] == codeset;
    ghost var front := if only_digit then "iso" else "";
    retval := new char[(if only_digit then 3 else 0) + len + 1];
    var wp := 0;
    if only_digit {
      retval[0], retval[1], retval[2], retval[3] := 'i', 's', 'o', '\0';
      wp := 3;
    }
    FillNormal(codeset, front, retval, wp);
    assert retval[..] == retval[..retval.Length - 1] + [retval[retval.Length - 1]];
  }

  /** Its second loop, which fills what follows the prefix `front` and ends the string. */
  method FillNormal(codeset: string, ghost front: string, retval: array<char>, start: nat)
    requires start == |front| && retval.Length == start + |Kept(codeset)| + 1 && retval[..start] == front
    modifies retval
    ensures retval[..retval.Length - 1] == front + Kept(codeset) && retval[retval.Length - 1] == '\0'
  {
    hide Kept, ToLower;
    var wp, cnt := start, 0;
    KeptOfNormal("");
    while cnt < |codeset|
      invariant cnt <= |codeset|
      invariant wp == start + |Kept(codeset[..cnt])| < retval.Length
      invariant retval[..wp] == front + Kept(codeset[..cnt])
    {
      KeptNext(codeset, cnt);
      KeptGrows(codeset, cnt + 1);
      if IsAlpha(codeset[cnt]) {
        Put(retval, wp, ToLower(codeset[cnt]));
        wp := wp + 1;
      } else if IsDigit(codeset[cnt]) {
        DigitIsLower(codeset[cnt]);
        Put(retval, wp, codeset[cnt]);
        wp := wp + 1;
      }
      cnt := cnt + 1;
    }
    assert codeset[..cnt] == codeset;
    retval[wp] := '\0';
  }

  lemma DigitIsLower(c: char)
    requires IsDigit(c)
    ensures ToLower(c) == c && !IsAlpha(c)
  {
  }

  // ----- taking a name apart

  /** How much of `s` is free of the characters in `stops`. */
  function Span(s: string, stops: string): (n: nat)
    ensures n <= |s| && (forall k | 0 <= k < n :: s[k] !in stops) && (n < |s| ==> s[n] in stops)
  {
    if s == "" || s[0] in stops then 0 else 1 + Span(s[1..], stops)
  }

  predicate Starts(s: string, c: char) { s != "" && s[0] == c }

  /** A part that may be there, and what follows it. */
  datatype Bite = Bite(found: bool, part: string, rest: string)

  /** Takes the part that `sep` introduces and the characters in `stops` end. */
  function Take(on: bool, s: string, sep: char, stops: string): Bite {
    if on && Starts(s, sep) then
      var n := Span(s[1..], stops);
      Bite(true, s[1..][..n], s[1..][n..])
    else Bite(false, "", s)
  }

  datatype Exploded = Exploded(mask: bv8, parts: Parts)

  function Flag(on: bool, flags: bv8): bv8 { if on then flags else 0 }

  function MaskOf(territory: bool, codeset: bool, norm: bool, modifier: bool, audience: bool,
                  special: bool, sponsor: bool, revision: bool): bv8
  {
    Flag(territory, TERRITORY) | Flag(codeset, XPG_CODESET) | Flag(norm, XPG_NORM_CODESET)
    | Flag(modifier, XPG_MODIFIER) | Flag(audience, CEN_AUDIENCE)
    | Flag(special, CEN_SPECIAL) | Flag(sponsor, CEN_SPONSOR) | Flag(revision, CEN_REVISION)
  }

  /** The modifier of X/Open syntax runs to the end, the audience of CEN syntax to the next separator. */
  function TakeModifier(codeset: Bite): Bite {
    if Starts(codeset.rest, '@') then Take(true, codeset.rest, '@', "")
    else Take(!codeset.found, codeset.rest, '+', "+,_")
  }

  predicate IsNormal(codeset: Bite) {
    codeset.part == "" || codeset.part + codeset.rest == Normalize(codeset.part)
  }

  /** The parts of a name and the mask of those it has. The codeset is compared with its normal form
      before its end is marked, so one that a modifier follows always counts as different. */
  function Explode(name: string): Exploded {
    var l := Span(name, "_@+,");
    if l == 0 then Exploded(0, Parts(name, "", "", "", "", "", "", ""))
    else
      var territory := Take(true, name[l..], '_', ".@+,_");
      var codeset := Take(territory.found, territory.rest, '.', "@");
      var modifier := TakeModifier(codeset);
      var xpg := codeset.found || Starts(codeset.rest, '@');
      var special := Take(!xpg, modifier.rest, '+', ",_");
      var sponsor := Take(!xpg, special.rest, ',', "_");
      var revision := Take(!xpg, sponsor.rest, '_', "");
      Exploded(
        MaskOf(territory.found && !(xpg && territory.part == ""), codeset.part != "", !IsNormal(codeset),
               modifier.found && !(xpg && modifier.part == ""), modifier.found,
               special.found, sponsor.found, revision.found),
        Parts(name[..l], territory.part, codeset.part, if codeset.part != "" then Normalize(codeset.part) else "",
              modifier.part, special.part, sponsor.part, revision.part))
  }

  // ----- the names the grammar of the documentation allows

  predicate Free(s: string, stops: string) { forall c | c in s :: c !in stops }

  function Tagged(sep: char, s: Option<string>): string {
    if s.Some? then [sep] + s.value else ""
  }

  function Or(s: Option<string>): string { if s.Some? then s.value else "" }

  predicate Begins(s: string, stops: string) { s == "" || s[0] in stops }

  lemma {:induction false} SpanIs(s: string, post: string, stops: string)
    requires Free(s, stops) && Begins(post, stops)
    ensures Span(s + post, stops) == |s| && (s + post)[..|s|] == s && (s + post)[|s|..] == post
    decreases |s|
  {
    if s != "" {
      assert s[0] in s && (s + post)[1..] == s[1..] + post;
      SpanIs(s[1..], post, stops);
    } else {
      assert s + post == post;
    }
  }

  lemma TakeTagged(on: bool, sep: char, s: Option<string>, post: string, stops: string)
    requires s.Some? ==> on && Free(s.value, stops)
    requires Begins(post, stops)
    requires on && s.None? ==> !Starts(post, sep)
    ensures Take(on, Tagged(sep, s) + post, sep, stops) == Bite(s.Some?, Or(s), post)
  {
    if s.Some? {
      assert ([sep] + s.value + post)[1..] == s.value + post;
      SpanIs(s.value, post, stops);
    } else {
      assert "" + post == post;
    }
  }

  /** language[_territory[.codeset]][@modifier], with parts that are not empty. */
  predicate IsXpg(language: string, territory: Option<string>, codeset: Option<string>, modifier: Option<string>) {
    && language != "" && Free(language, "_@+,")
    && (territory.Some? ==> territory.value != "" && Free(territory.value, ".@+,_"))
    && (codeset.Some? ==> territory.Some? && codeset.value != "" && Free(codeset.value, "@"))
    && (modifier.Some? ==> modifier.value != "")
  }

  function XpgName(language: string, territory: Option<string>, codeset: Option<string>,
                   modifier: Option<string>): string
  {
    language + (Tagged('_', territory) + (Tagged('.', codeset) + (Tagged('@', modifier) + "")))
  }

  function XpgParts(language: string, territory: Option<string>, codeset: Option<string>,
                    modifier: Option<string>): Parts
  {
    Parts(language, Or(territory), Or(codeset), if codeset.Some? then Normalize(codeset.value) else "",
          Or(modifier), "", "", "")
  }

  function XpgMask(territory: Option<string>, codeset: Option<string>, modifier: Option<string>): bv8 {
    MaskOf(territory.Some?, codeset.Some?,
           codeset.Some? && (modifier.Some? || codeset.value != Normalize(codeset.value)),
           modifier.Some?, modifier.Some?, false, false, false)
  }

  lemma NormalHasNoSign(codeset: string, modifier: string)
    ensures codeset + ("@" + modifier) != Normalize(codeset)
  {
    assert (codeset + ("@" + modifier))[|codeset|] == '@';
    assert '@' !in Normalize(codeset);
  }

  /** Every such name is taken apart into exactly its parts. */
  lemma XpgExplodes(language: string, territory: Option<string>, codeset: Option<string>, modifier: Option<string>)
    requires IsXpg(language, territory, codeset, modifier)
    ensures Explode(XpgName(language, territory, codeset, modifier)) ==
            Exploded(XpgMask(territory, codeset, modifier), XpgParts(language, territory, codeset, modifier))
  {
    hide Take, Span, Normalize, MaskOf, Tagged;
    var t3 := Tagged('@', modifier) + "";
    var t2 := Tagged('.', codeset) + t3;
    var t1 := Tagged('_', territory) + t2;
    XpgRests(territory, codeset, modifier);
    SpanIs(language, t1, "_@+,");
    TakeTagged(true, '_', territory, t2, ".@+,_");
    TakeTagged(territory.Some?, '.', codeset, t3, "@");
    TakeTagged(true, '@', modifier, "", "");
    if modifier.Some? && codeset.Some? {
      NormalHasNoSign(codeset.value, modifier.value);
    }
    TakeNothing(t3, "+,_");
    TakeNothing("", ",_");
    TakeNothing("", "_");
    TakeNothing("", "");
    assert Or(codeset) + "" == Or(codeset);
  }

  lemma TakeNothing(s: string, stops: string)
    requires s == "" || s[0] == '@'
    ensures Take(true, s, '+', stops) == Take(false, s, '+', stops) == Bite(false, "", s)
    ensures Take(true, s, ',', stops) == Take(false, s, ',', stops) == Bite(false, "", s)
    ensures Take(true, s, '_', stops) == Take(false, s, '_', stops) == Bite(false, "", s)
  {
  }

  /** What can follow each part. */
  lemma XpgRests(territory: Option<string>, codeset: Option<string>, modifier: Option<string>)
    requires codeset.Some? ==> territory.Some?
    ensures
      var t3 := Tagged('@', modifier) + "";
      var t2 := Tagged('.', codeset) + t3;
      var t1 := Tagged('_', territory) + t2;
      && t3 == (if modifier.Some? then "@" + modifier.value else "") && Starts(t3, '@') == modifier.Some?
      && Begins(t1, "_@+,")
      && Begins(t2, ".@+,_") && !Starts(t2, '_')
      && Begins(t3, "@") && !Starts(t3, '.') && !Starts(t3, '+')
  {
  }

  /** Without the audience flag and the normal form, the mask spells the name itself. */
  lemma XpgSpells(language: string, territory: Option<string>, codeset: Option<string>, modifier: Option<string>)
    requires IsXpg(language, territory, codeset, modifier)
    ensures
      var m := MaskOf(territory.Some?, codeset.Some?, false, modifier.Some?, false, false, false, false);
      Spell(XpgParts(language, territory, codeset, modifier), m) == XpgName(language, territory, codeset, modifier)
  {
    hide Has, MaskOf, Normalize;
    var m := MaskOf(territory.Some?, codeset.Some?, false, modifier.Some?, false, false, false, false);
    MaskFlags(territory.Some?, codeset.Some?, false, modifier.Some?, false, false, false, false);
    var p := XpgParts(language, territory, codeset, modifier);
    var t1, t2, t3 := Tagged('_', territory), Tagged('.', codeset), Tagged('@', modifier);
    assert Segment(Has(m, XPG_MODIFIER | CEN_AUDIENCE), ModifierSign(m), p.modifier) == t3;
    assert Spell(p, m) == language + t1 + t2 + "" + t3 + "" + "";
    XpgRegroup(language, t1, t2, t3);
  }

  lemma XpgRegroup(l: string, t1: string, t2: string, t3: string)
    ensures l + t1 + t2 + "" + t3 + "" + "" == l + (t1 + (t2 + (t3 + "")))
  {
  }

  lemma MaskFlags(territory: bool, codeset: bool, norm: bool, modifier: bool, audience: bool, special: bool,
                  sponsor: bool, revision: bool)
    ensures
      var m := MaskOf(territory, codeset, norm, modifier, audience, special, sponsor, revision);
      && Has(m, TERRITORY) == territory && Has(m, XPG_CODESET) == codeset && Has(m, XPG_NORM_CODESET) == norm
      && Has(m, XPG_MODIFIER) == modifier && Has(m, CEN_AUDIENCE) == audience
      && Has(m, XPG_MODIFIER | CEN_AUDIENCE) == (modifier || audience)
      && Has(m, CEN_SPECIAL) == special && Has(m, CEN_SPONSOR) == sponsor && Has(m, CEN_REVISION) == revision
      && Has(m, CEN_SPONSOR | CEN_REVISION) == (sponsor || revision)
  {
  }

  predicate Below(m: bv8, top: bv8) { top != 0 && m <= top - 1 }

  /** The mask without the two flags is consistent, and a sub-mask of the one the name gives. */
  lemma PlainMask(territory: bool, codeset: bool, norm: bool, modifier: bool)
    ensures
      var m := MaskOf(territory, codeset, false, modifier, false, false, false, false);
      var top := MaskOf(territory, codeset, norm, modifier, modifier, false, false, false);
      Submask(m, top) && Consistent(m) && (m == top || Below(m, top))
  {
  }

  lemma IsGeneralisation(top: bv8, m: bv8)
    requires Submask(m, top) && Consistent(m) && Below(m, top)
    ensures m in Generalisations(top, false)
  {
    hide Submask, Consistent, Submasks;
    SubmasksMember(top, top - 1, m);
  }

  /** The node of such a name has the name itself, or has it among its generalisations. This holds
      of a name with a modifier too, although the node then spells it with a plus sign. */
  lemma XpgNameIsReached(language: string, territory: Option<string>, codeset: Option<string>, modifier: Option<string>)
    requires IsXpg(language, territory, codeset, modifier)
    ensures
      var name := XpgName(language, territory, codeset, modifier);
      var e := Explode(name);
      Spell(e.parts, e.mask) == name || exists m :: m in Generalisations(e.mask, false) && Spell(e.parts, m) == name
  {
    hide Explode, Spell, MaskOf, XpgName, XpgParts, Submask, Consistent, Normalize, Generalisations, IsXpg, Below;
    XpgExplodes(language, territory, codeset, modifier);
    XpgSpells(language, territory, codeset, modifier);
    var norm := codeset.Some? && (modifier.Some? || codeset.value != Normalize(codeset.value));
    PlainMask(territory.Some?, codeset.Some?, norm, modifier.Some?);
    var m := MaskOf(territory.Some?, codeset.Some?, false, modifier.Some?, false, false, false, false);
    var top := XpgMask(territory, codeset, modifier);
    if m != top {
      IsGeneralisation(top, m);
    }
  }

  lemma XpgTop(language: string, territory: Option<string>, codeset: Option<string>, modifier: Option<string>)
    ensures
      var norm := codeset.Some? && (modifier.Some? || codeset.value != Normalize(codeset.value));
      Spell(XpgParts(language, territory, codeset, modifier), XpgMask(territory, codeset, modifier)) ==
      language + Tagged('_', territory) + Tagged('.', codeset)
        + (if norm then "." + Normalize(codeset.value) else "") + (if modifier.Some? then "+" + modifier.value else "")
  {
    hide Has, MaskOf, Normalize;
    var norm := codeset.Some? && (modifier.Some? || codeset.value != Normalize(codeset.value));
    MaskFlags(territory.Some?, codeset.Some?, norm, modifier.Some?, modifier.Some?, false, false, false);
    var front := language + Tagged('_', territory) + Tagged('.', codeset);
    var last := front + (if norm then "." + Normalize(codeset.value) else "")
      + (if modifier.Some? then "+" + modifier.value else "");
    assert last + "" + "" == last;
  }

  lemma XpgFlat(language: string, territory: Option<string>, codeset: Option<string>, modifier: Option<string>)
    ensures XpgName(language, territory, codeset, modifier) ==
            language + Tagged('_', territory) + Tagged('.', codeset)
              + (if modifier.Some? then "@" + modifier.value else "")
  {
    hide Tagged;
    var t1, t2, t3 := Tagged('_', territory), Tagged('.', codeset), Tagged('@', modifier);
    assert language + (t1 + (t2 + (t3 + ""))) == language + t1 + t2 + t3;
    assert t3 == if modifier.Some? then "@" + modifier.value else "" by {
      SignTagged(modifier);
    }
  }

  lemma SignTagged(modifier: Option<string>)
    ensures Tagged('@', modifier) == if modifier.Some? then "@" + modifier.value else ""
  {
  }

  lemma SignsDiffer(front: string, n: string, s: Option<string>)
    ensures front + n + (if s.Some? then "+" + s.value else "") == front + (if s.Some? then "@" + s.value else "") <==>
      n == "" && s.None?
  {
    var x, y := front + n + (if s.Some? then "+" + s.value else ""), front + (if s.Some? then "@" + s.value else "");
    if n == "" && s.Some? {
      assert x[|front|] == '+' && y[|front|] == '@';
    }
  }

  /** The node of such a name has the name itself if and only if there is no modifier and the codeset is in normal
      form. */
  lemma XpgSpellsItself(language: string, territory: Option<string>, codeset: Option<string>, modifier: Option<string>)
    requires IsXpg(language, territory, codeset, modifier)
    ensures
      var name := XpgName(language, territory, codeset, modifier);
      var e := Explode(name);
      Spell(e.parts, e.mask) == name <==> modifier.None? && (codeset.None? || codeset.value == Normalize(codeset.value))
  {
    hide Explode, Spell, XpgMask, XpgParts, XpgName, Tagged, Normalize, IsXpg;
    XpgExplodes(language, territory, codeset, modifier);
    XpgTop(language, territory, codeset, modifier);
    XpgFlat(language, territory, codeset, modifier);
    var norm := codeset.Some? && (modifier.Some? || codeset.value != Normalize(codeset.value));
    SignsDiffer(language + Tagged('_', territory) + Tagged('.', codeset),
                if norm then "." + Normalize(codeset.value) else "", modifier);
  }

  lemma AudienceMask(territory: bool)
    ensures
      var m := MaskOf(territory, false, false, false, true, false, false, false);
      var top := MaskOf(territory, false, false, true, true, false, false, false);
      Submask(m, top) && Consistent(m) && Below(m, top)
  {
  }

  lemma ModifierRepeats(language: string, territory: Option<string>, modifier: Option<string>)
    requires IsXpg(language, territory, None, modifier) && modifier.Some?
    ensures
      var p, top := XpgParts(language, territory, None, modifier), XpgMask(territory, None, modifier);
      exists m :: m in Generalisations(top, false) && Spell(p, m) == Spell(p, top)
  {
    hide MaskOf, Submask, Consistent, Normalize, Generalisations, IsXpg, Below, Has;
    AudienceMask(territory.Some?);
    var m := MaskOf(territory.Some?, false, false, false, true, false, false, false);
    IsGeneralisation(XpgMask(territory, None, modifier), m);
    MaskFlags(territory.Some?, false, false, false, true, false, false, false);
    MaskFlags(territory.Some?, false, false, true, true, false, false, false);
  }

  /** The flags that X/Open names can have. */
  const XPG_FLAGS: bv8 := TERRITORY | XPG_CODESET | XPG_NORM_CODESET | XPG_MODIFIER | CEN_AUDIENCE

  lemma XpgFlags(territory: bool, codeset: bool, norm: bool, modifier: bool, m: bv8)
    ensures
      var top := MaskOf(territory, codeset, norm, modifier, modifier, false, false, false);
      Submask(m, top) ==> Submask(m, XPG_FLAGS) && Submask(top, XPG_FLAGS)
  {
  }

  lemma XpgLength(p: Parts, m: bv8)
    requires Submask(m, XPG_FLAGS)
    ensures |Spell(p, m)| ==
            |p.language| + (if Has(m, TERRITORY) then 1 + |p.territory| else 0)
              + (if Has(m, XPG_CODESET) then 1 + |p.codeset| else 0)
            + (if Has(m, XPG_NORM_CODESET) then 1 + |p.normalized| else 0)
            + if Has(m, XPG_MODIFIER | CEN_AUDIENCE) then 1 + |p.modifier| else 0
  {
    hide Has;
    NoCenFlags(m);
  }

  lemma NoCenFlags(m: bv8)
    requires Submask(m, XPG_FLAGS)
    ensures !Has(m, CEN_SPECIAL) && !Has(m, CEN_SPONSOR | CEN_REVISION)
  {
  }

  lemma FewerFlags(m: bv8, top: bv8)
    requires Submask(m, top)
    ensures Has(m, TERRITORY) ==> Has(top, TERRITORY)
    ensures Has(m, XPG_CODESET) ==> Has(top, XPG_CODESET)
    ensures Has(m, XPG_NORM_CODESET) ==> Has(top, XPG_NORM_CODESET)
    ensures Has(m, XPG_MODIFIER | CEN_AUDIENCE) ==> Has(top, XPG_MODIFIER | CEN_AUDIENCE)
  {
  }

  /** Masks that differ only in the two flags of the modifier. */
  lemma SameFlags(m: bv8, top: bv8)
    requires Submask(m, top) && Submask(top, XPG_FLAGS) && m != top && Consistent(m)
    requires Has(m, TERRITORY) == Has(top, TERRITORY) && Has(m, XPG_CODESET) == Has(top, XPG_CODESET)
    requires Has(m, XPG_NORM_CODESET) == Has(top, XPG_NORM_CODESET)
    ensures Has(top, XPG_MODIFIER | CEN_AUDIENCE) && !(Has(top, XPG_CODESET) && Has(top, XPG_NORM_CODESET))
  {
  }

  lemma GeneralisationIs(top: bv8, m: bv8)
    requires m in Generalisations(top, false)
    ensures Submask(m, top) && Consistent(m) && m != top
  {
    hide Submask, Consistent, Submasks;
    SubmasksMember(top, top - 1, m);
  }

  lemma OnlyModifierRepeats(language: string, territory: Option<string>, codeset: Option<string>,
                            modifier: Option<string>, m: bv8)
    requires
      var p, top := XpgParts(language, territory, codeset, modifier), XpgMask(territory, codeset, modifier);
      m in Generalisations(top, false) && Spell(p, m) == Spell(p, top)
    ensures modifier.Some? && codeset.None?
  {
    hide Spell, MaskOf, Submask, Consistent, Normalize, Generalisations, Has;
    var p, top := XpgParts(language, territory, codeset, modifier), XpgMask(territory, codeset, modifier);
    var norm := codeset.Some? && (modifier.Some? || codeset.value != Normalize(codeset.value));
    GeneralisationIs(top, m);
    XpgFlags(territory.Some?, codeset.Some?, norm, modifier.Some?, m);
    XpgLength(p, m);
    XpgLength(p, top);
    FewerFlags(m, top);
    SameFlags(m, top);
    MaskFlags(territory.Some?, codeset.Some?, norm, modifier.Some?, modifier.Some?, false, false, false);
  }

  /** The node of an X/Open name has its own file name among its generalisations if and only if it has a modifier and
      no codeset: without the X/Open flag the mask still spells the modifier with a plus sign, and a codeset, in both
      its forms then, forbids that mask. */
  lemma ModifierReachesItself(language: string, territory: Option<string>, codeset: Option<string>,
                              modifier: Option<string>)
    requires IsXpg(language, territory, codeset, modifier)
    ensures
      var e := Explode(XpgName(language, territory, codeset, modifier));
      (exists m :: m in Generalisations(e.mask, false) && Spell(e.parts, m) == Spell(e.parts, e.mask)) <==>
        modifier.Some? && codeset.None?
  {
    hide Explode, Spell, XpgName, XpgMask, XpgParts, Generalisations, IsXpg;
    XpgExplodes(language, territory, codeset, modifier);
    var p, top := XpgParts(language, territory, codeset, modifier), XpgMask(territory, codeset, modifier);
    if modifier.Some? && codeset.None? {
      ModifierRepeats(language, territory, modifier);
    }
    if m :| m in Generalisations(top, false) && Spell(p, m) == Spell(p, top) {
      OnlyModifierRepeats(language, territory, codeset, modifier, m);
    }
  }

  // ----- what a mask can spell of a name with a modifier

  lemma XpgTail(p: Parts, m: bv8)
    requires Submask(m, XPG_FLAGS)
    ensures Spell(p, m) ==
            p.language + Segment(Has(m, TERRITORY), '_', p.territory) + Segment(Has(m, XPG_CODESET), '.', p.codeset)
            + Segment(Has(m, XPG_NORM_CODESET), '.', p.normalized)
            + Segment(Has(m, XPG_MODIFIER | CEN_AUDIENCE), ModifierSign(m), p.modifier)
  {
    hide Has;
    NoCenFlags(m);
    var s := p.language + Segment(Has(m, TERRITORY), '_', p.territory) + Segment(Has(m, XPG_CODESET), '.', p.codeset)
             + Segment(Has(m, XPG_NORM_CODESET), '.', p.normalized)
             + Segment(Has(m, XPG_MODIFIER | CEN_AUDIENCE), ModifierSign(m), p.modifier);
    assert s + "" + "" == s;
  }

  /** The sign before the same last part tells two strings apart. */
  lemma SignsTell(a: string, b: string, c: char, d: char, s: string)
    ensures a + ([c] + s) == b + ([d] + s) ==> c == d && a == b
  {
    var x, y := a + ([c] + s), b + ([d] + s);
    if x == y {
      assert x[|a|] == c && y[|b|] == d && x[..|a|] == a && y[..|b|] == b;
    }
  }

  /** A mask that spells an X/Open name with a modifier has the modifier's flag and not the audience's. */
  lemma SpellsAt(language: string, territory: Option<string>, codeset: Option<string>, modifier: string, m: bv8)
    requires IsXpg(language, territory, codeset, Some(modifier)) && Submask(m, XPG_FLAGS)
    requires Spell(XpgParts(language, territory, codeset, Some(modifier)), m) ==
      XpgName(language, territory, codeset, Some(modifier))
    ensures !Has(m, CEN_AUDIENCE)
  {
    hide Has, Spell, Normalize, XpgName;
    var p := XpgParts(language, territory, codeset, Some(modifier));
    XpgTail(p, m);
    XpgFlat(language, territory, codeset, Some(modifier));
    var x := p.language + Segment(Has(m, TERRITORY), '_', p.territory) + Segment(Has(m, XPG_CODESET), '.', p.codeset)
             + Segment(Has(m, XPG_NORM_CODESET), '.', p.normalized);
    var y := language + Tagged('_', territory) + Tagged('.', codeset);
    assert (y + "@" + modifier)[|y|] == '@';
    if Has(m, XPG_MODIFIER | CEN_AUDIENCE) {
      assert XpgName(language, territory, codeset, Some(modifier)) == y + (['@'] + modifier);
      SignsTell(x, y, ModifierSign(m), '@', modifier);
    } else {
      assert x + "" == x;
      NoAt(language, territory, codeset, Has(m, TERRITORY), Has(m, XPG_CODESET), Has(m, XPG_NORM_CODESET));
    }
  }

  lemma NoAt(language: string, territory: Option<string>, codeset: Option<string>, hasT: bool, hasC: bool, hasN: bool)
    requires language != "" && Free(language, "_@+,") && (territory.Some? ==> Free(territory.value, ".@+,_"))
      && (codeset.Some? ==> Free(codeset.value, "@"))
    ensures
      '@' !in language + Segment(hasT, '_', Or(territory)) + Segment(hasC, '.', Or(codeset))
              + Segment(hasN, '.', if codeset.Some? then Normalize(codeset.value) else "")
  {
    assert codeset.Some? ==> '@' !in Normalize(codeset.value);
  }

  /** No mask without the audience's flag spells the language, the territory and the modifier with a plus sign. */
  lemma NeverPlus(language: string, territory: Option<string>, codeset: Option<string>, modifier: string, e: bv8)
    requires IsXpg(language, territory, codeset, Some(modifier)) && Submask(e, XPG_FLAGS) && !Has(e, CEN_AUDIENCE)
    requires territory.None? ==> !Has(e, TERRITORY) && !Has(e, XPG_CODESET) && !Has(e, XPG_NORM_CODESET)
    ensures Spell(XpgParts(language, territory, codeset, Some(modifier)), e) != language + Tagged('_', territory) + "+"
      + modifier
  {
    hide Has, Spell, Normalize, Segment, Tagged, IsXpg;
    var p := XpgParts(language, territory, codeset, Some(modifier));
    XpgTail(p, e);
    var tail := Segment(Has(e, XPG_CODESET), '.', p.codeset) + Segment(Has(e, XPG_NORM_CODESET), '.', p.normalized);
    var x := p.language + Segment(Has(e, TERRITORY), '_', p.territory) + Segment(Has(e, XPG_CODESET), '.', p.codeset)
             + Segment(Has(e, XPG_NORM_CODESET), '.', p.normalized);
    var y := language + Tagged('_', territory);
    Segments(Has(e, XPG_CODESET), p.codeset, Has(e, XPG_NORM_CODESET), p.normalized);
    if Has(e, XPG_MODIFIER | CEN_AUDIENCE) {
      assert y + "+" + modifier == y + (['+'] + modifier);
      ModifierAt(e, modifier);
      SignsTell(x, y, '@', '+', modifier);
    } else {
      WithoutModifier(e, modifier);
      assert x + "" == x && x == language + (Segment(Has(e, TERRITORY), '_', p.territory) + tail);
      PlusTells(language, territory, Has(e, TERRITORY), tail, modifier);
    }
  }

  lemma ModifierAt(e: bv8, modifier: string)
    requires Has(e, XPG_MODIFIER | CEN_AUDIENCE) && !Has(e, CEN_AUDIENCE)
    ensures Segment(Has(e, XPG_MODIFIER | CEN_AUDIENCE), ModifierSign(e), modifier) == ['@'] + modifier
  {
    hide Has;
  }

  lemma WithoutModifier(e: bv8, modifier: string)
    requires !Has(e, XPG_MODIFIER | CEN_AUDIENCE)
    ensures Segment(Has(e, XPG_MODIFIER | CEN_AUDIENCE), ModifierSign(e), modifier) == ""
  {
    hide Has;
  }

  lemma Segments(hasC: bool, c: string, hasN: bool, n: string)
    ensures var tail := Segment(hasC, '.', c) + Segment(hasN, '.', n);
      if hasC || hasN then tail != "" && tail[0] == '.' else tail == ""
  {
  }

  lemma PlusTells(l: string, t: Option<string>, hasT: bool, tail: string, s: string)
    requires (tail == "" || tail[0] == '.') && (t.None? ==> !hasT && tail == "")
    ensures l + (Segment(hasT, '_', Or(t)) + tail) != l + Tagged('_', t) + "+" + s
  {
    var x, y := l + (Segment(hasT, '_', Or(t)) + tail), l + Tagged('_', t) + "+" + s;
    var k := |l| + if hasT then |Tagged('_', t)| else 0;
    assert y[k] == if t.Some? && !hasT then '_' else '+';
    assert |x| > k ==> x[k] == '.';
  }

  // ----- CEN names

  /** language[_territory][+audience[+special]][,[sponsor][_revision]] */
  predicate IsCen(language: string, territory: Option<string>, audience: Option<string>, special: Option<string>,
                  sponsor: Option<string>, revision: Option<string>)
  {
    && language != "" && Free(language, "_@+,")
    && (territory.Some? ==> Free(territory.value, ".@+,_"))
    && (audience.Some? ==> Free(audience.value, "+,_"))
    && (special.Some? ==> audience.Some? && Free(special.value, ",_"))
    && (sponsor.Some? ==> Free(sponsor.value, "_"))
    && (revision.Some? ==> sponsor.Some?)
  }

  function CenName(language: string, territory: Option<string>, audience: Option<string>, special: Option<string>,
                   sponsor: Option<string>, revision: Option<string>): string
  {
    language + (Tagged('_', territory)
                + (Tagged('+', audience) + (Tagged('+', special)
                                            + (Tagged(',', sponsor) + (Tagged('_', revision) + "")))))
  }

  function CenParts(language: string, territory: Option<string>, audience: Option<string>, special: Option<string>,
                    sponsor: Option<string>, revision: Option<string>): Parts
  {
    Parts(language, Or(territory), "", "", Or(audience), Or(special), Or(sponsor), Or(revision))
  }

  lemma CenRests(territory: Option<string>, audience: Option<string>, special: Option<string>,
                 sponsor: Option<string>, revision: Option<string>)
    requires special.Some? ==> audience.Some?
    requires revision.Some? ==> sponsor.Some?
    ensures
      var t5 := Tagged('_', revision) + "";
      var t4 := Tagged(',', sponsor) + t5;
      var t3 := Tagged('+', special) + t4;
      var t2 := Tagged('+', audience) + t3;
      var t1 := Tagged('_', territory) + t2;
      && Begins(t1, "_@+,")
      && Begins(t2, ".@+,_") && !Starts(t2, '_') && !Starts(t2, '.') && !Starts(t2, '@')
      && Begins(t3, "+,_") && (audience.None? ==> !Starts(t3, '+') && !Starts(t2, '+'))
      && Begins(t4, ",_") && !Starts(t4, '+')
      && Begins(t5, "_") && !Starts(t5, ',') && Begins("", "") && !Starts("", '_')
  {
  }

  /** Every such name is taken apart into exactly its parts. */
  lemma CenExplodes(language: string, territory: Option<string>, audience: Option<string>, special: Option<string>,
                    sponsor: Option<string>, revision: Option<string>)
    requires IsCen(language, territory, audience, special, sponsor, revision)
    ensures Explode(CenName(language, territory, audience, special, sponsor, revision)) ==
            Exploded(MaskOf(territory.Some?, false, false, audience.Some?, audience.Some?,
                            special.Some?, sponsor.Some?, revision.Some?),
                     CenParts(language, territory, audience, special, sponsor, revision))
  {
    hide Take, Span, Normalize, MaskOf, Tagged, Begins, Starts, Free;
    var t5 := Tagged('_', revision) + "";
    var t4 := Tagged(',', sponsor) + t5;
    var t3 := Tagged('+', special) + t4;
    var t2 := Tagged('+', audience) + t3;
    var t1 := Tagged('_', territory) + t2;
    CenRests(territory, audience, special, sponsor, revision);
    SpanIs(language, t1, "_@+,");
    TakeTagged(true, '_', territory, t2, ".@+,_");
    TakeNothingElse(territory.Some?, t2);
    TakeTagged(true, '+', audience, t3, "+,_");
    TakeTagged(true, '+', special, t4, ",_");
    TakeTagged(true, ',', sponsor, t5, "_");
    TakeTagged(true, '_', revision, "", "");
  }

  lemma TakeNothingElse(on: bool, s: string)
    requires !Starts(s, '.')
    ensures Take(on, s, '.', "@") == Bite(false, "", s)
  {
  }

  /** The node of such a name has exactly that name. */
  lemma CenNameIsTop(language: string, territory: Option<string>, audience: Option<string>, special: Option<string>,
                     sponsor: Option<string>, revision: Option<string>)
    requires IsCen(language, territory, audience, special, sponsor, revision)
    ensures
      var name := CenName(language, territory, audience, special, sponsor, revision);
      var e := Explode(name);
      Spell(e.parts, e.mask) == name
  {
    hide Explode, Has, MaskOf;
    CenExplodes(language, territory, audience, special, sponsor, revision);
    MaskFlags(territory.Some?, false, false, audience.Some?, audience.Some?, special.Some?, sponsor.Some?,
              revision.Some?);
    var m := MaskOf(territory.Some?, false, false, audience.Some?, audience.Some?, special.Some?, sponsor.Some?,
                    revision.Some?);
    var t1, t2, t3 := Tagged('_', territory), Tagged('+', audience), Tagged('+', special);
    var t4, t5 := Tagged(',', sponsor), Tagged('_', revision);
    var p := CenParts(language, territory, audience, special, sponsor, revision);
    assert Segment(Has(m, CEN_SPONSOR | CEN_REVISION), ',', Sponsorship(p, m)) == t4 + t5;
    assert Spell(p, m) == language + t1 + "" + "" + t2 + t3 + (t4 + t5);
    Regroup(language, t1, t2, t3, t4, t5);
  }

  lemma Regroup(l: string, t1: string, t2: string, t3: string, t4: string, t5: string)
    ensures l + t1 + "" + "" + t2 + t3 + (t4 + t5) == l + (t1 + (t2 + (t3 + (t4 + (t5 + "")))))
  {
  }

  // ----- taking a name apart in place

  lemma SpanAll(s: string)
    ensures Span(s, "") == |s| && s[..|s|] == s && s[|s|..] == ""
  {
  }

  /** Where a part starts in the name buffer, and the text it must have there. */
  datatype Held = Held(at: nat, text: string)

  /** What is left of the name starts at `cp`. */
  ghost predicate Cursor(buf: string, cp: nat, rest: string) {
    cp <= |buf| && '\0' !in rest && buf[cp..] == rest + "\0"
  }

  /** The part is in the buffer, before `cp`, and its end is marked unless it is `cp` itself. */
  ghost predicate Holds(buf: string, h: Held, cp: nat) {
    && h.at + |h.text| <= cp < |buf|
    && '\0' !in h.text && buf[h.at..h.at + |h.text|] == h.text
    && (h.at + |h.text| < cp ==> buf[h.at + |h.text|] == '\0')
  }

  ghost predicate HoldsAll(buf: string, hs: set<Held>, cp: nat) {
    forall h | h in hs :: Holds(buf, h, cp)
  }

  lemma HoldsIsText(buf: string, h: Held, cp: nat)
    requires Holds(buf, h, cp) && buf[cp] == '\0'
    ensures CStr(buf[h.at..]) == h.text
  {
    var d := buf[h.at..];
    assert d[..|h.text|] == h.text && d[|h.text|] == '\0';
    CStrIs(d, h.text);
  }

  lemma {:induction false} CStrIs(d: string, s: string)
    requires |s| < |d| && d[..|s|] == s && '\0' !in s && d[|s|] == '\0'
    ensures CStr(d) == s
    decreases |s|
  {
    if s != "" {
      assert d[0] == s[0] && s[0] in s;
      assert d[1..][..|s| - 1] == d[..|s|][1..] == s[1..];
      CStrIs(d[1..], s[1..]);
    }
  }

  /** Marking the end at `cp` and moving on keeps the parts. */
  lemma HoldsOn(buf: string, hs: set<Held>, cp: nat, end: nat)
    requires HoldsAll(buf, hs, cp) && cp < end < |buf|
    ensures HoldsAll(buf[cp := '\0'], hs, end)
  {
    var b := buf[cp := '\0'];
    forall h | h in hs ensures Holds(b, h, end) {
      assert Holds(buf, h, cp);
      assert b[h.at..h.at + |h.text|] == buf[h.at..h.at + |h.text|];
    }
  }

  lemma {:induction false} SpanNext(s: string, k: nat, stops: string)
    requires k <= |s| && (forall j | 0 <= j < k :: s[j] !in stops) && (k < |s| ==> s[k] in stops)
    ensures Span(s, stops) == k
  {
    if k > 0 {
      SpanNext(s[1..], k - 1, stops);
    }
  }

  /** The loops that look for the end of a part. */
  method FindEnd(name: array<char>, start: nat, stops: string, ghost rest: string) returns (cp: nat)
    requires Cursor(name[..], start, rest)
    ensures cp == start + Span(rest, stops) && Cursor(name[..], cp, rest[Span(rest, stops)..])
  {
    hide Span;
    cp := start;
    while name[cp] != '\0' && name[cp] !in stops
      invariant start <= cp <= start + |rest| == name.Length - 1
      invariant forall j | 0 <= j < cp - start :: rest[j] !in stops
      decreases name.Length - cp
    {
      assert name[cp] == name[..][start..][cp - start];
      cp := cp + 1;
    }
    assert name[cp] == name[..][start..][cp - start];
    SpanNext(rest, cp - start, stops);
    assert name[..][cp..] == name[..][start..][cp - start..];
  }

  /** Marks the separator at `cp` as the end of the part before it and finds the end of the next. */
  method TakePart(name: array<char>, cp: nat, stops: string, ghost rest: string, ghost held: set<Held>)
    returns (start: nat, end: nat, ghost held': set<Held>)
    requires rest != "" && Cursor(name[..], cp, rest) && HoldsAll(name[..], held, cp)
    modifies name
    ensures start == cp + 1 && end == start + Span(rest[1..], stops)
    ensures Cursor(name[..], end, rest[1..][Span(rest[1..], stops)..])
    ensures held' == held + {Held(start, rest[1..][..Span(rest[1..], stops)])}
    ensures HoldsAll(name[..], held', end)
    ensures name[start..] == rest[1..] + "\0"
  {
    hide Span, Holds;
    ghost var buf := name[..];
    assert buf[cp] == rest[0];
    start := cp + 1;
    assert buf[start..] == buf[cp..][1..] == rest[1..] + "\0";
    name[cp] := '\0';
    assert name[..] == buf[cp := '\0'];
    assert name[..][start..] == buf[start..];
    end := FindEnd(name, start, stops, rest[1..]);
    HoldsOn(buf, held, cp, end);
    ghost var h := Held(start, rest[1..][..Span(rest[1..], stops)]);
    NewPart(name[..], h, rest[1..]);
    held' := held + {h};
  }

  lemma NewPart(buf: string, h: Held, rest: string)
    requires Cursor(buf, h.at, rest) && |h.text| <= |rest| && h.text == rest[..|h.text|]
    ensures Holds(buf, h, h.at + |h.text|)
  {
    assert buf[h.at..h.at + |h.text|] == buf[h.at..][..|h.text|];
  }

  /** A pointer to a part that is there, and none to one that is not. */
  ghost predicate Points(p: Option<nat>, b: Bite, held: set<Held>) {
    p.Some? == b.found && (b.found ==> Held(p.value, b.part) in held) && (!b.found ==> b.part == "")
  }

  /** A mask with the flags of a part that is there. */
  function AddIf(mask: bv8, on: bool, flags: bv8): bv8 { if on then mask | flags else mask }

  /** Takes the part that `sep` introduces, if it is there. */
  method TakeIf(name: array<char>, cp: nat, sep: char, stops: string, mask: bv8, flags: bv8, ghost rest: string,
                ghost held: set<Held>)
    returns (at: Option<nat>, end: nat, mask': bv8, ghost held': set<Held>, ghost b: Bite)
    requires Cursor(name[..], cp, rest) && HoldsAll(name[..], held, cp) && sep != '\0'
    modifies name
    ensures b == Take(true, rest, sep, stops) && held <= held' && Points(at, b, held')
    ensures Cursor(name[..], end, b.rest) && HoldsAll(name[..], held', end)
    ensures mask' == AddIf(mask, b.found, flags)
    ensures '\0' !in b.part
    ensures b.found ==>
      end == at.value + |b.part| && 0 < at.value <= name.Length && name[at.value..] == b.part + b.rest + "\0"
  {
    hide Span, Holds;
    at, end, mask', held' := None, cp, mask, held;
    b := Take(true, rest, sep, stops);
    CursorChar(name[..], cp, rest);
    if name[cp] == sep {
      var start;
      start, end, held' := TakePart(name, cp, stops, rest, held);
      assert rest[1..] == b.part + b.rest;
      at := Some(start);
      mask' := mask | flags;
    }
  }

  /** The same for a part that nothing can follow: its end is the end of the name. */
  method TakeLast(name: array<char>, cp: nat, ghost rest: string, ghost held: set<Held>)
    returns (start: nat, ghost held': set<Held>)
    requires rest != "" && Cursor(name[..], cp, rest) && HoldsAll(name[..], held, cp)
    modifies name
    ensures start == cp + 1
    ensures held' == held + {Held(start, rest[1..])}
    ensures HoldsAll(name[..], held', name.Length - 1) && name[name.Length - 1] == '\0'
  {
    hide Holds;
    ghost var buf := name[..];
    assert buf[cp..][|rest|] == '\0';
    start := cp + 1;
    assert buf[start..] == buf[cp..][1..] == rest[1..] + "\0";
    name[cp] := '\0';
    assert name[..] == buf[cp := '\0'];
    assert name[..][start..] == buf[start..];
    HoldsOn(buf, held, cp, name.Length - 1);
    NewPart(name[..], Held(start, rest[1..]), rest[1..]);
    held' := held + {Held(start, rest[1..])};
  }

  /** Setting and clearing the flags one by one. */
  lemma FrontMask(t: bool, c: bool, n: bool)
    ensures AddIf(AddIf(AddIf(0, t, TERRITORY), c, XPG_CODESET), n, XPG_NORM_CODESET) ==
            MaskOf(t, c, n, false, false, false, false, false)
  {
  }

  lemma BackMask(t: bool, c: bool, n: bool, m: bool, s: bool, p: bool, r: bool)
    ensures AddIf(AddIf(AddIf(AddIf(MaskOf(t, c, n, false, false, false, false, false), m, XPG_MODIFIER | CEN_AUDIENCE),
                              s, CEN_SPECIAL), p, CEN_SPONSOR), r, CEN_REVISION) ==
            MaskOf(t, c, n, m, m, s, p, r)
  {
  }

  lemma AddNone(mask: bv8)
    ensures AddIf(mask, false, CEN_SPECIAL) == AddIf(mask, false, CEN_SPONSOR) == AddIf(mask, false, CEN_REVISION) ==
      mask
    ensures AddIf(mask, false, XPG_CODESET) == AddIf(mask, false, XPG_NORM_CODESET) == mask
    ensures AddIf(mask, false, XPG_MODIFIER | CEN_AUDIENCE) == mask
  {
  }

  /** The codeset and its normal form, which is given back unless it is the same. */
  method CompareNormal(name: array<char>, codeset: nat, cp: nat, ghost c: Bite)
    returns (differs: bool, normalized: array<char>)
    requires codeset < cp < name.Length && cp == codeset + |c.part| && name[codeset..] == c.part + c.rest + "\0"
    requires '\0' !in c.part + c.rest
    ensures differs == (c.part + c.rest != Normalize(c.part))
    ensures fresh(normalized) && CStr(normalized[..]) == Normalize(c.part)
  {
    hide Normalize;
    assert name[codeset..cp] == name[codeset..][..|c.part|] == c.part;
    normalized := NormalizeCodeset(name[codeset..cp]);
    NormalHasNoNul(c.part);
    CStrIs(normalized[..], Normalize(c.part));
    CStrIs(name[codeset..], c.part + c.rest);
    StrCmpEqual(CStr(name[codeset..]), CStr(normalized[..]));
    differs := StrCmp(CStr(name[codeset..]), CStr(normalized[..])) != 0;
  }

  lemma NormalHasNoNul(codeset: string)
    ensures '\0' !in Normalize(codeset)
  {
  }

  /** `_nl_explode_name` up to the codeset, for a name that starts with a language. */
  method ExplodeFront(name: array<char>, cp0: nat, ghost language: string, ghost rest: string)
    returns (mask: bv8, cp: nat, xpg: bool, territory: Option<nat>, codeset: Option<nat>, normalized: array?<char>,
             ghost held: set<Held>, ghost t: Bite, ghost c: Bite)
    requires Cursor(name[..], cp0, rest) && Holds(name[..], Held(0, language), cp0)
    modifies name
    ensures t == Take(true, rest, '_', ".@+,_") && c == Take(t.found, t.rest, '.', "@")
    ensures Held(0, language) in held && Points(territory, t, held) && Points(codeset, c, held)
    ensures Cursor(name[..], cp, c.rest) && HoldsAll(name[..], held, cp)
    ensures xpg == c.found
    ensures mask == MaskOf(t.found, c.found, !IsNormal(c), false, false, false, false, false)
    ensures c.part != "" ==> normalized != null && fresh(normalized) && CStr(normalized[..]) == Normalize(c.part)
  {
    hide Span, Holds, Normalize, MaskOf, AddIf;
    territory, codeset, normalized, xpg := None, None, null, false;
    mask, cp, held := 0, cp0, {Held(0, language)};
    c := Take(false, Take(true, rest, '_', ".@+,_").rest, '.', "@");
    territory, cp, mask, held, t := TakeIf(name, cp, '_', ".@+,_", mask, TERRITORY, rest, held);
    ghost var mask1 := mask;
    AddNone(mask);
    if territory.Some? {
      codeset, cp, mask, held, c := TakeIf(name, cp, '.', "@", mask, XPG_CODESET, t.rest, held);
      xpg := codeset.Some?;
    }
    assert mask == AddIf(mask1, c.found, XPG_CODESET);
    ghost var mask2 := mask;
    AddNone(mask);
    if codeset.Some? {
      assert c.part != "" ==> name[codeset.value..][0] == c.part[0];
      if codeset.value != cp && name[codeset.value] != '\0' {
        var differs;
        differs, normalized := CompareNormal(name, codeset.value, cp, c);
        if differs {
          mask := mask | XPG_NORM_CODESET;
        }
      }
    }
    SetNormal(mask2);
    assert mask == AddIf(mask2, !IsNormal(c), XPG_NORM_CODESET);
    FrontMask(t.found, c.found, !IsNormal(c));
  }

  lemma SetNormal(mask: bv8)
    ensures AddIf(mask, true, XPG_NORM_CODESET) == mask | XPG_NORM_CODESET
  {
  }

  lemma CursorChar(buf: string, cp: nat, rest: string)
    requires Cursor(buf, cp, rest)
    ensures cp < |buf| && buf[cp] == (if rest == "" then '\0' else rest[0]) && ('\0' !in rest)
    ensures rest != "" ==> buf[cp] != '\0'
  {
    assert buf[cp] == buf[cp..][0];
  }

  /** The revision, after which there is nothing. */
  method TakeRevision(name: array<char>, cp: nat, mask: bv8, ghost rest: string, ghost held: set<Held>)
    returns (at: Option<nat>, mask': bv8, ghost held': set<Held>, ghost b: Bite)
    requires Cursor(name[..], cp, rest) && HoldsAll(name[..], held, cp) && (rest == "" || rest[0] == '_')
    modifies name
    ensures b == Take(true, rest, '_', "") && held <= held' && Points(at, b, held')
    ensures mask' == AddIf(mask, b.found, CEN_REVISION)
    ensures HoldsAll(name[..], held', name.Length - 1) && name[name.Length - 1] == '\0'
  {
    hide Span, Holds;
    at, mask', held' := None, mask, held;
    b := Take(true, rest, '_', "");
    CursorChar(name[..], cp, rest);
    if name[cp] == '_' {
      SpanAll(rest[1..]);
      var start;
      start, held' := TakeLast(name, cp, rest, held);
      at := Some(start);
      mask' := mask | CEN_REVISION;
    }
  }

  /** What follows a part starts with one of the characters that end it. */
  lemma TakeRest(s: string, sep: char, stops: string)
    ensures var b := Take(true, s, sep, stops); b.rest == "" || b.rest[0] in stops || (b.rest == s && !Starts(s, sep))
  {
  }

  /** The CEN parts after the audience. */
  method ExplodeCen(name: array<char>, cp0: nat, mask0: bv8, ghost rest: string, ghost held0: set<Held>)
    returns (mask: bv8, special: Option<nat>, sponsor: Option<nat>, revision: Option<nat>, ghost held: set<Held>,
             ghost s: Bite, ghost p: Bite, ghost r: Bite)
    requires Cursor(name[..], cp0, rest) && HoldsAll(name[..], held0, cp0)
    requires rest == "" || rest[0] in "+,_"
    modifies name
    ensures s == Take(true, rest, '+', ",_") && p == Take(true, s.rest, ',', "_") && r == Take(true, p.rest, '_', "")
    ensures held0 <= held && Points(special, s, held) && Points(sponsor, p, held) && Points(revision, r, held)
    ensures HoldsAll(name[..], held, name.Length - 1) && name[name.Length - 1] == '\0'
    ensures mask == AddIf(AddIf(AddIf(mask0, s.found, CEN_SPECIAL), p.found, CEN_SPONSOR), r.found, CEN_REVISION)
  {
    hide Take, Points, Holds, HoldsAll, Cursor, AddIf;
    var cp;
    special, cp, mask, held, s := TakeIf(name, cp0, '+', ",_", mask0, CEN_SPECIAL, rest, held0);
    ghost var held1 := held;
    TakeRest(rest, '+', ",_");
    sponsor, cp, mask, held, p := TakeIf(name, cp, ',', "_", mask, CEN_SPONSOR, s.rest, held);
    TakeRest(s.rest, ',', "_");
    PointsMore(special, s, held1, held);
    ghost var held2 := held;
    revision, mask, held, r := TakeRevision(name, cp, mask, p.rest, held);
    PointsMore(special, s, held2, held);
    PointsMore(sponsor, p, held2, held);
  }

  lemma PointsMore(p: Option<nat>, b: Bite, held: set<Held>, more: set<Held>)
    requires Points(p, b, held) && held <= more
    ensures Points(p, b, more)
  {
  }

  /** The modifier or audience, and the CEN parts after it. */
  method ExplodeBack(name: array<char>, cp0: nat, mask0: bv8, xpg0: bool, ghost c: Bite, ghost held0: set<Held>)
    returns (mask: bv8, xpg: bool, modifier: Option<nat>, special: Option<nat>, sponsor: Option<nat>,
             revision: Option<nat>,
             ghost held: set<Held>, ghost m: Bite, ghost s: Bite, ghost p: Bite, ghost r: Bite)
    requires Cursor(name[..], cp0, c.rest) && HoldsAll(name[..], held0, cp0) && xpg0 == c.found
    requires c.rest == "" || c.rest[0] == '@' || (!c.found && c.rest[0] in "+,_")
    modifies name
    ensures m == TakeModifier(c) && xpg == (c.found || Starts(c.rest, '@'))
    ensures s == Take(!xpg, m.rest, '+', ",_") && p == Take(!xpg, s.rest, ',', "_") && r == Take(!xpg, p.rest, '_', "")
    ensures held0 <= held && Points(modifier, m, held)
    ensures Points(special, s, held) && Points(sponsor, p, held) && Points(revision, r, held)
    ensures HoldsAll(name[..], held, name.Length - 1) && name[name.Length - 1] == '\0'
    ensures mask == AddIf(AddIf(AddIf(AddIf(mask0, m.found, XPG_MODIFIER | CEN_AUDIENCE),
                                      s.found, CEN_SPECIAL), p.found, CEN_SPONSOR), r.found, CEN_REVISION)
  {
    hide Take, Holds, HoldsAll, Cursor, AddIf;
    modifier, special, sponsor, revision := None, None, None, None;
    mask, xpg, held := mask0, xpg0, held0;
    m := TakeModifier(c);
    s := Take(false, m.rest, '+', ",_");
    p := Take(false, s.rest, ',', "_");
    r := Take(false, p.rest, '_', "");
    var cp := cp0;
    CursorChar(name[..], cp, c.rest);
    TakeNone(c.rest, '+', "+,_");
    TakeNone(m.rest, '+', ",_");
    TakeNone(s.rest, ',', "_");
    TakeNone(p.rest, '_', "");
    if name[cp] == '@' {
      xpg := true;
      var start;
      start, held := TakeLast(name, cp, c.rest, held);
      TakeAll(c.rest, '@');
      modifier := Some(start);
      mask := mask | (XPG_MODIFIER | CEN_AUDIENCE);
      SetModifier(mask0);
      AddNone(mask);
    } else if !xpg {
      modifier, cp, mask, held, m := TakeIf(name, cp, '+', "+,_", mask, XPG_MODIFIER | CEN_AUDIENCE, c.rest, held);
      TakeRest(c.rest, '+', "+,_");
      ghost var held1 := held;
      mask, special, sponsor, revision, held, s, p, r := ExplodeCen(name, cp, mask, m.rest, held);
      PointsMore(modifier, m, held1, held);
    } else {
      CursorEnd(name[..], cp, c.rest);
      AddNone(mask);
    }
  }

  lemma SetModifier(mask: bv8)
    ensures AddIf(mask, true, XPG_MODIFIER | CEN_AUDIENCE) == mask | (XPG_MODIFIER | CEN_AUDIENCE)
  {
  }

  lemma TakeNone(s: string, sep: char, stops: string)
    ensures Take(false, s, sep, stops) == Bite(false, "", s)
  {
  }

  lemma TakeAll(s: string, sep: char)
    requires Starts(s, sep)
    ensures Take(true, s, sep, "") == Bite(true, s[1..], "")
  {
    SpanAll(s[1..]);
  }

  lemma CursorEnd(buf: string, cp: nat, rest: string)
    requires Cursor(buf, cp, rest) && rest == ""
    ensures cp == |buf| - 1 && buf[cp] == '\0'
  {
    assert buf[cp] == buf[cp..][0];
  }

  function DropIf(mask: bv8, off: bool, flags: bv8): bv8 { if off then mask & !flags else mask }

  lemma ClearedMask(t: bool, c: bool, n: bool, m: bool, s: bool, p: bool, r: bool, ct: bool, cc: bool, cm: bool)
    ensures DropIf(DropIf(DropIf(MaskOf(t, c, n, m, m, s, p, r), ct, TERRITORY), cc, XPG_CODESET), cm, XPG_MODIFIER) ==
            MaskOf(t && !ct, c && !cc, n, m && !cm, m, s, p, r)
  {
  }

  /** An empty part of X/Open syntax does not count. */
  method DropEmpty(name: array<char>, at: Option<nat>, mask: bv8, flags: bv8, ghost b: Bite) returns (mask': bv8)
    requires IsAt(name[..], at, b.part) && at.Some? == b.found
    ensures mask' == DropIf(mask, b.found && b.part == "", flags)
  {
    mask' := mask;
    if at.Some? {
      CStrHead(name[..], at.value);
      if name[at.value] == '\0' {
        mask' := mask & !flags;
      }
    }
  }

  lemma CStrHead(buf: string, p: nat)
    requires p < |buf|
    ensures CStr(buf[p..]) == "" <==> buf[p] == '\0'
  {
  }

  /** The C string a pointer shows; a part that is not there is empty. */
  ghost predicate IsAt(buf: string, at: Option<nat>, s: string) {
    if at.Some? then at.value < |buf| && CStr(buf[at.value..]) == s else s == ""
  }

  lemma PointsIsAt(buf: string, at: Option<nat>, b: Bite, held: set<Held>)
    requires buf != "" && Points(at, b, held) && HoldsAll(buf, held, |buf| - 1) && buf[|buf| - 1] == '\0'
    ensures IsAt(buf, at, b.part) && at.Some? == b.found
  {
    if at.Some? {
      HoldsIsText(buf, Held(at.value, b.part), |buf| - 1);
    }
  }

  /** The bites of a name that starts with a language. */
  ghost predicate AreBites(name: string, t: Bite, c: Bite, m: Bite, s: Bite, p: Bite, r: Bite, xpg: bool) {
    && Span(name, "_@+,") > 0
    && t == Take(true, name[Span(name, "_@+,")..], '_', ".@+,_") && c == Take(t.found, t.rest, '.', "@")
    && m == TakeModifier(c) && xpg == (c.found || Starts(c.rest, '@'))
    && s == Take(!xpg, m.rest, '+', ",_") && p == Take(!xpg, s.rest, ',', "_") && r == Take(!xpg, p.rest, '_', "")
  }

  /** What `_nl_explode_name` makes of them. */
  lemma ExplodeBites(name: string, t: Bite, c: Bite, m: Bite, s: Bite, p: Bite, r: Bite, xpg: bool)
    requires AreBites(name, t, c, m, s, p, r, xpg)
    ensures c.part != "" ==> c.found
    ensures c.found ==> xpg
    ensures var e := Explode(name);
      && e.mask == MaskOf(t.found && !(xpg && t.found && t.part == ""), c.found && !(xpg && c.found && c.part == ""),
                          !IsNormal(c),
                          m.found && !(xpg && m.found && m.part == ""), m.found, s.found, p.found, r.found)
      && e.parts.language == name[..Span(name, "_@+,")] && e.parts.territory == t.part && e.parts.codeset == c.part
      && (c.part != "" ==> e.parts.normalized == Normalize(c.part))
      && e.parts.modifier == m.part && e.parts.special == s.part && e.parts.sponsor == p.part
      && e.parts.revision == r.part
  {
    hide Span, Normalize, MaskOf;
  }

  /** What is left after the codeset can only be what the next steps look for. */
  lemma RestOfFront(name: string, t: Bite, c: Bite)
    requires t == Take(true, name[Span(name, "_@+,")..], '_', ".@+,_") && c == Take(t.found, t.rest, '.', "@")
    ensures c.rest == "" || c.rest[0] == '@' || (!c.found && c.rest[0] in "+,_")
  {
    hide Span;
    var l := Span(name, "_@+,");
    assert l < |name| ==> name[l..][0] == name[l];
    TakeRest(name[l..], '_', ".@+,_");
  }

  datatype Pointers = Pointers(territory: Option<nat>, codeset: Option<nat>, modifier: Option<nat>,
                               special: Option<nat>, sponsor: Option<nat>, revision: Option<nat>)

  /** The buffer shows the parts: the language at its start, the others at their pointers. */
  ghost predicate Shows(buf: string, at: Pointers, parts: Parts) {
    && CStr(buf) == parts.language
    && IsAt(buf, at.territory, parts.territory) && IsAt(buf, at.codeset, parts.codeset)
    && IsAt(buf, at.modifier, parts.modifier) && IsAt(buf, at.special, parts.special)
    && IsAt(buf, at.sponsor, parts.sponsor) && IsAt(buf, at.revision, parts.revision)
  }

  /** `_nl_explode_name`, which marks the end of each part in the name itself. */
  method ExplodeName(name: array<char>, ghost text: string) returns (mask: bv8, at: Pointers, normalized: array?<char>)
    requires '\0' !in text && name[..] == text + "\0"
    modifies name
    ensures mask == Explode(text).mask && Shows(name[..], at, Explode(text).parts)
    ensures Explode(text).parts.codeset != "" ==>
              normalized != null && fresh(normalized) && CStr(normalized[..]) == Explode(text).parts.normalized
  {
    hide Explode, Span, Holds, Normalize, MaskOf, IsAt, DropIf, AreBites, IsNormal;
    assert name[..][0..] == name[..];
    var cp := FindEnd(name, 0, "_@+,", text);
    if cp == 0 {
      SpanZero(text);
      CStrIs(name[..], text);
      NothingIsAt(name[..]);
      return 0, Pointers(None, None, None, None, None, None), null;
    }
    ghost var l := Span(text, "_@+,");
    NewPart(name[..], Held(0, text[..l]), text);
    var xpg;
    ghost var t, c, m, s, p, r;
    mask, xpg, at, normalized, t, c, m, s, p, r := ExplodeFrom(name, cp, text);
    ExplodeBites(text, t, c, m, s, p, r, xpg);
    if xpg {
      mask := DropEmpty(name, at.territory, mask, TERRITORY, t);
      mask := DropEmpty(name, at.codeset, mask, XPG_CODESET, c);
      mask := DropEmpty(name, at.modifier, mask, XPG_MODIFIER, m);
    }
    DropNone(MaskOf(t.found, c.found, !IsNormal(c), m.found, m.found, s.found, p.found, r.found));
    ClearedMask(t.found, c.found, !IsNormal(c), m.found, s.found, p.found, r.found,
                xpg && t.found && t.part == "", xpg && c.found && c.part == "", xpg && m.found && m.part == "");
  }

  /** All of it but the last step, for a name whose language ends at `cp0`. */
  method ExplodeFrom(name: array<char>, cp0: nat, ghost text: string)
    returns (mask: bv8, xpg: bool, at: Pointers, normalized: array?<char>,
             ghost t: Bite, ghost c: Bite, ghost m: Bite, ghost s: Bite, ghost p: Bite, ghost r: Bite)
    requires cp0 == Span(text, "_@+,") > 0
    requires Cursor(name[..], cp0, text[cp0..]) && Holds(name[..], Held(0, text[..cp0]), cp0)
    modifies name
    ensures AreBites(text, t, c, m, s, p, r, xpg)
    ensures CStr(name[..]) == text[..cp0]
    ensures IsAt(name[..], at.territory, t.part) && IsAt(name[..], at.codeset, c.part)
      && IsAt(name[..], at.modifier, m.part)
    ensures IsAt(name[..], at.special, s.part) && IsAt(name[..], at.sponsor, p.part)
      && IsAt(name[..], at.revision, r.part)
    ensures at.territory.Some? == t.found && at.codeset.Some? == c.found && at.modifier.Some? == m.found
    ensures mask == MaskOf(t.found, c.found, !IsNormal(c), m.found, m.found, s.found, p.found, r.found)
    ensures c.part != "" ==> normalized != null && fresh(normalized) && CStr(normalized[..]) == Normalize(c.part)
  {
    hide Take, Span, Holds, HoldsAll, Normalize, MaskOf, IsAt, AddIf, Points, TakeModifier, IsNormal;
    ghost var held, held1;
    var cp, territory, codeset, modifier, special, sponsor, revision;
    mask, cp, xpg, territory, codeset, normalized, held1, t, c := ExplodeFront(name, cp0, text[..cp0], text[cp0..]);
    RestOfFront(text, t, c);
    mask, xpg, modifier, special, sponsor, revision, held, m, s, p, r := ExplodeBack(name, cp, mask, xpg, c, held1);
    BackMask(t.found, c.found, !IsNormal(c), m.found, s.found, p.found, r.found);
    PointsMore(territory, t, held1, held);
    PointsMore(codeset, c, held1, held);
    at := Pointers(territory, codeset, modifier, special, sponsor, revision);
    ShowsAll(name[..], at, text[..cp0], t, c, m, s, p, r, held);
  }

  lemma DropNone(mask: bv8)
    ensures DropIf(DropIf(DropIf(mask, false, TERRITORY), false, XPG_CODESET), false, XPG_MODIFIER) == mask
  {
  }

  lemma SpanZero(text: string)
    requires Span(text, "_@+,") == 0
    ensures Explode(text) == Exploded(0, Parts(text, "", "", "", "", "", "", ""))
  {
  }

  lemma NothingIsAt(buf: string)
    ensures IsAt(buf, None, "")
  {
  }

  lemma ShowsAll(buf: string, at: Pointers, language: string, t: Bite, c: Bite, m: Bite, s: Bite, p: Bite, r: Bite,
                 held: set<Held>)
    requires buf != "" && Held(0, language) in held && HoldsAll(buf, held, |buf| - 1) && buf[|buf| - 1] == '\0'
    requires Points(at.territory, t, held) && Points(at.codeset, c, held) && Points(at.modifier, m, held)
    requires Points(at.special, s, held) && Points(at.sponsor, p, held) && Points(at.revision, r, held)
    ensures CStr(buf) == language
    ensures IsAt(buf, at.territory, t.part) && IsAt(buf, at.codeset, c.part) && IsAt(buf, at.modifier, m.part)
    ensures IsAt(buf, at.special, s.part) && IsAt(buf, at.sponsor, p.part) && IsAt(buf, at.revision, r.part)
    ensures at.territory.Some? == t.found && at.codeset.Some? == c.found && at.modifier.Some? == m.found
  {
    hide Points, Holds, IsAt;
    assert buf[0..] == buf;
    HoldsIsText(buf, Held(0, language), |buf| - 1);
    PointsIsAt(buf, at.territory, t, held);
    PointsIsAt(buf, at.codeset, c, held);
    PointsIsAt(buf, at.modifier, m, held);
    PointsIsAt(buf, at.special, s, held);
    PointsIsAt(buf, at.sponsor, p, held);
    PointsIsAt(buf, at.revision, r, held);
  }
}
