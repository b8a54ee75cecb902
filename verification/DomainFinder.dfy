/** Finding the node for a locale: what joins the parts of a locale name to the list of its files. */
module DomainFinder {
  import opened CStrings
  import opened LocaleFiles
  import opened LocaleList
  import opened LocaleMask
  import opened LocaleName
  import opened Wrappers

  /** The file of exactly that locale. */
  function Exact(dirname: string, locale: string, domainname: string): string {
    dirname + "/" + locale + "/" + domainname
  }

  function WholeName(locale: string): Parts { Parts(locale, "", "", "", "", "", "", "") }

  lemma WholeIs(dirname: string, locale: string, domainname: string)
    requires NoNul(dirname) && NoNul(locale) && NoNul(domainname)
    ensures CleanRequest(Request([dirname], 0, WholeName(locale), domainname))
    ensures FileName(Request([dirname], 0, WholeName(locale), domainname)) == Exact(dirname, locale, domainname)
  {
    assert Spell(WholeName(locale), 0) == locale;
  }

  /** What a locale name asks for. */
  function Asked(dirname: string, locale: string, domainname: string): Request {
    Request([dirname], Explode(locale).mask, Explode(locale).parts, domainname)
  }

  function AskedFile(dirname: string, locale: string, domainname: string): string
  {
    FileName(Asked(dirname, locale, domainname))
  }

  /** Neither the file of exactly that locale nor the one it asks for has a node. */
  ghost predicate IsNew(nodes: seq<L10nFile>, dirname: string, locale: string, domainname: string) {
    Exact(dirname, locale, domainname) !in Names(nodes) && AskedFile(dirname, locale, domainname) !in Names(nodes)
  }

  function PartAt(buf: string, at: Option<nat>): string {
    if at.Some? && at.value < |buf| then CStr(buf[at.value..]) else ""
  }

  /** The parts as the pointers into the name show them. */
  lemma PartsShown(buf: string, at: Pointers, parts: Parts, normalized: string)
    requires Shows(buf, at, parts) && NoNul(normalized) && normalized == parts.normalized
    ensures parts == Parts(CStr(buf), PartAt(buf, at.territory), PartAt(buf, at.codeset), normalized,
                           PartAt(buf, at.modifier),
                           PartAt(buf, at.special), PartAt(buf, at.sponsor), PartAt(buf, at.revision))
    ensures CleanParts(parts)
  {
  }

  /** `_nl_find_domain`, but for the loading of the files: the node of a locale, made with all it can be replaced by
      unless the locale's own file has a node already. */
  method FindDomain(list: L10nList, dirname: string, locale: array<char>, ghost text: string, domainname: string,
                    alias: Option<string>)
    returns (retval: L10nFile)
    requires list.Valid() && NoNul(dirname) && NoNul(text) && NoNul(domainname) && locale[..] == text + "\0"
    requires alias.Some? ==> NoNul(alias.value)
    modifies list, locale
    ensures list.Valid() && list.building == old(list.building) && retval in list.nodes
    ensures Exact(dirname, text, domainname) in Names(old(list.nodes)) ==>
              list.nodes == old(list.nodes) && retval.filename == Exact(dirname, text, domainname)
    ensures Exact(dirname, text, domainname) !in Names(old(list.nodes)) ==>
              var name := if alias.Some? then alias.value else text;
              var r, file := Asked(dirname, name, domainname), AskedFile(dirname, name, domainname);
              && retval.filename == file
              && (file in Names(old(list.nodes)) ==> list.nodes == old(list.nodes))
              && (file !in Names(old(list.nodes)) ==>
                    && (forall n | n in list.nodes && n !in old(list.nodes) :: Stems(n.origin, r))
                    && retval.origin == r && Names(list.nodes) == Names(old(list.nodes)) + {file} + Titles(r))
  {
    hide Explode, FileName, Titles, Names, Spell, Shows, CleanParts;
    WholeIs(dirname, text, domainname);
    ArgzOne(dirname, '\0');
    CStrIs(locale[..], text);
    var found := list.Make(dirname + "\0", 0, WholeName(CStr(locale[..])), domainname, false,
                           Request([dirname], 0, WholeName(text), domainname));
    if found != null {
      return found;
    }
    ghost var name := if alias.Some? then alias.value else text;
    var buf := locale;
    if alias.Some? {
      var value := alias.value + "\0";
      buf := new char[|value|](i requires 0 <= i < |value| => value[i]);
      assert buf[..] == value;
    }
    var mask, at, normalized := ExplodeName(buf, name);
    var codeset := PartAt(buf[..], at.codeset);
    ShownCodeset(buf[..], at, Explode(name).parts);
    var normal := "";
    if codeset != "" {
      normal := CStr(normalized[..]);
    }
    NormalOf(name);
    PartsShown(buf[..], at, Explode(name).parts, normal);
    found := list.Make(dirname + "\0", mask,
                       Parts(CStr(buf[..]), PartAt(buf[..], at.territory), codeset, normal,
                             PartAt(buf[..], at.modifier),
                             PartAt(buf[..], at.special), PartAt(buf[..], at.sponsor), PartAt(buf[..], at.revision)),
                       domainname, true, Asked(dirname, name, domainname));
    return found;
  }

  lemma ShownCodeset(buf: string, at: Pointers, parts: Parts)
    requires Shows(buf, at, parts)
    ensures PartAt(buf, at.codeset) == parts.codeset
  {
  }

  lemma NormalOf(name: string)
    ensures Explode(name).parts.codeset == "" ==> Explode(name).parts.normalized == ""
  {
    hide Span, Take, TakeModifier, MaskOf, Normalize, IsNormal;
  }

  // ----- X/Open names

  /** A successor before the end of the list. */
  ghost predicate Listed(n: L10nFile, i: nat)
    requires i < n.successor.Length
    reads n.successor
  {
    forall j | 0 <= j <= i :: n.successor[j] != null
  }

  /** The file is the node's own or that of one of its successors. */
  ghost predicate Reaches(n: L10nFile, file: string, nodes: seq<L10nFile>)
    reads n.successor
  {
    n.filename == file
    || exists i ::
         0 <= i < n.successor.Length && Listed(n, i) && n.successor[i] in nodes && n.successor[i].filename == file
  }

  /** An X/Open name asks for the file of exactly that name, or for files one of which it is. */
  lemma ExactIsAsked(dirname: string, language: string, territory: Option<string>, codeset: Option<string>,
                     modifier: Option<string>, domainname: string)
    requires IsXpg(language, territory, codeset, modifier)
    ensures
      var name := XpgName(language, territory, codeset, modifier);
      var r := Asked(dirname, name, domainname);
      && (AskedFile(dirname, name, domainname) == Exact(dirname, name, domainname) <==> Spell(r.parts, r.mask) == name)
      && (AskedFile(dirname, name, domainname) == Exact(dirname, name, domainname)
          || Exact(dirname, name, domainname) in Titles(r))
  {
    hide Explode, Spell, XpgName, IsXpg;
    var name := XpgName(language, territory, codeset, modifier);
    var r := Asked(dirname, name, domainname);
    XpgNameIsReached(language, territory, codeset, modifier);
    SameMiddle(dirname, Spell(r.parts, r.mask), name, domainname);
    if Spell(r.parts, r.mask) != name {
      var m :| m in Generalisations(r.mask, false) && Spell(r.parts, m) == name;
      PairsMember(Generalisations(r.mask, false), [dirname], Entry(dirname, m));
      assert Title(Entry(dirname, m), r.parts, r.filename) == Exact(dirname, name, domainname);
    }
  }

  lemma SameMiddle(a: string, s: string, t: string, b: string)
    ensures a + "/" + s + "/" + b == a + "/" + t + "/" + b ==> s == t
  {
    var x, y := a + "/" + s + "/" + b, a + "/" + t + "/" + b;
    assert x[|a| + 1..|a| + 1 + |s|] == s;
    assert |x| == |y| ==> y[|a| + 1..|a| + 1 + |s|] == t;
  }

  /** So its node reaches that file. */
  lemma NodeReachesExact(list: L10nList, n: L10nFile, dirname: string, language: string, territory: Option<string>,
                         codeset: Option<string>,
                         modifier: Option<string>, domainname: string)
    requires list.Valid() && n in list.nodes && n !in list.building && IsXpg(language, territory, codeset, modifier)
    requires n.origin == Asked(dirname, XpgName(language, territory, codeset, modifier), domainname)
    ensures n.filename == AskedFile(dirname, XpgName(language, territory, codeset, modifier), domainname)
    ensures Reaches(n, Exact(dirname, XpgName(language, territory, codeset, modifier), domainname), list.nodes)
  {
    hide Asked, XpgName, IsXpg, Expected, FileName;
    var name := XpgName(language, territory, codeset, modifier);
    ExactIsAsked(dirname, language, territory, codeset, modifier, domainname);
    if n.filename != Exact(dirname, name, domainname) {
      assert Complete(n, list.nodes);
      var e :| e in Wants(n) && WantedName(n, e) == Exact(dirname, name, domainname);
      var i :| 0 <= i < |Wants(n)| && Wants(n)[i] == e;
      assert n.successor[i].filename == WantedName(n, Wants(n)[i]);
    }
  }

  method CString(s: string) returns (a: array<char>)
    ensures fresh(a) && a[..] == s + "\0"
  {
    var value := s + "\0";
    a := new char[|value|](i requires 0 <= i < |value| => value[i]);
  }

  // ----- what the second search loses

  /** The mask of a name with a territory and a codeset that is not in normal form. */
  const SPELLED: bv8 := MaskOf(true, true, true, false, false, false, false, false)

  lemma SpelledBits(m: bv8)
    requires Submask(m, SPELLED)
    ensures !Has(m, XPG_MODIFIER | CEN_AUDIENCE) && !Has(m, CEN_SPECIAL) && !Has(m, CEN_SPONSOR | CEN_REVISION)
  {
  }

  lemma SpelledTail(p: Parts, m: bv8)
    requires Submask(m, SPELLED)
    ensures Spell(p, m) == p.language + Segment(Has(m, TERRITORY), '_', p.territory)
      + Segment(Has(m, XPG_CODESET), '.', p.codeset)
                           + Segment(Has(m, XPG_NORM_CODESET), '.', p.normalized)
  {
    hide Has, Submask;
    SpelledBits(m);
    var s := p.language + Segment(Has(m, TERRITORY), '_', p.territory) + Segment(Has(m, XPG_CODESET), '.', p.codeset)
             + Segment(Has(m, XPG_NORM_CODESET), '.', p.normalized);
    assert s + "" + "" + "" == s;
  }

  lemma Cancel(l: string, u: string, v: string)
    ensures l + u == l + v ==> u == v
  {
    assert (l + u)[|l|..] == u && (l + v)[|l|..] == v;
  }

  /** Which of the last two segments give `.c`, where `c` and `n` differ. */
  lemma LastSegments(c: string, n: string, hasC: bool, hasN: bool)
    requires c != n
    ensures Segment(hasC, '.', c) + Segment(hasN, '.', n) == "." + c ==> hasC && !hasN
    ensures !hasN ==> Segment(hasC, '.', c) + Segment(hasN, '.', n) != "." + n
  {
    Cancel(".", c, n);
    assert "" + Segment(hasN, '.', n) == Segment(hasN, '.', n) && Segment(hasC, '.', c) + "" == Segment(hasC, '.', c);
  }

  /** Which segments give `l_t.c`. */
  lemma SegmentsOf(l: string, t: string, c: string, n: string, hasT: bool, hasC: bool, hasN: bool)
    requires c != n
    ensures l + Segment(hasT, '_', t) + Segment(hasC, '.', c) + Segment(hasN, '.', n) == l + "_" + t + "." + c ==>
      hasT && hasC && !hasN
    ensures !hasN ==> l + Segment(hasT, '_', t) + Segment(hasC, '.', c) + Segment(hasN, '.', n) != l + "_" + t + "." + n
  {
    hide Segment;
    var tail := Segment(hasC, '.', c) + Segment(hasN, '.', n);
    assert l + Segment(hasT, '_', t) + Segment(hasC, '.', c) + Segment(hasN, '.', n) ==
      l + (Segment(hasT, '_', t) + tail);
    forall z ensures l + "_" + t + "." + z == l + ("_" + t + ("." + z)) {
    }
    LastSegments(c, n, hasC, hasN);
    Cancel(l, Segment(hasT, '_', t) + tail, "_" + t + ("." + c));
    Cancel(l, Segment(hasT, '_', t) + tail, "_" + t + ("." + n));
    FirstSegment(t, c, n, hasT, hasC, hasN);
    Cancel("_" + t, tail, "." + c);
    Cancel("_" + t, tail, "." + n);
  }

  lemma FirstSegment(t: string, c: string, n: string, hasT: bool, hasC: bool, hasN: bool)
    ensures var x := Segment(hasT, '_', t) + (Segment(hasC, '.', c) + Segment(hasN, '.', n));
      if hasT then Segment(hasT, '_', t) == "_" + t else x == "" || x[0] == '.'
  {
  }

  lemma LessNorm(m: bv8, top: bv8)
    requires Submask(m, top) && Submask(top, SPELLED)
    ensures Submask(m, SPELLED) && (!Has(top, XPG_NORM_CODESET) ==> !Has(m, XPG_NORM_CODESET))
  {
  }

  /** What such a name is taken apart into. */
  lemma SpelledParts(language: string, territory: string, codeset: string)
    requires IsXpg(language, Some(territory), Some(codeset), None) && codeset != Normalize(codeset)
    ensures
      var name := XpgName(language, Some(territory), Some(codeset), None);
      && name == language + "_" + territory + "." + codeset
      && Explode(name) == Exploded(SPELLED, Parts(language, territory, codeset, Normalize(codeset), "", "", "", ""))
  {
    hide Explode, XpgName, IsXpg, Normalize, MaskOf;
    XpgExplodes(language, Some(territory), Some(codeset), None);
    XpgFlat(language, Some(territory), Some(codeset), None);
    var t1, t2 := "_" + territory, "." + codeset;
    assert language + t1 + t2 + "" == language + "_" + territory + "." + codeset;
  }

  /** The mask that spells such a name is that of the name without the normal form, and none below it spells the normal
      form. */
  lemma PlainOnly(p: Parts, m: bv8)
    requires Submask(m, SPELLED) && p.codeset != p.normalized
    requires Spell(p, m) == p.language + "_" + p.territory + "." + p.codeset
    ensures forall e | Submask(e, m) :: Spell(p, e) != p.language + "_" + p.territory + "." + p.normalized
  {
    hide Spell, Has, Submask;
    SpelledTail(p, m);
    SegmentsOf(p.language, p.territory, p.codeset, p.normalized, Has(m, TERRITORY), Has(m, XPG_CODESET),
               Has(m, XPG_NORM_CODESET));
    forall e | Submask(e, m) ensures Spell(p, e) != p.language + "_" + p.territory + "." + p.normalized {
      LessNorm(e, m);
      SpelledTail(p, e);
      SegmentsOf(p.language, p.territory, p.codeset, p.normalized, Has(e, TERRITORY), Has(e, XPG_CODESET),
                 Has(e, XPG_NORM_CODESET));
    }
  }

  /** No mask below one that spells `plain` spells `lost`. */
  ghost predicate NeverSpelt(p: Parts, top: bv8, plain: string, lost: string) {
    forall m, e | Submask(m, top) && Submask(e, m) && Spell(p, m) == plain :: Spell(p, e) != lost
  }

  /** A node that was made for a request and has the file of `plain` does not lead to that of `lost`. */
  lemma NodeLoses(list: L10nList, n: L10nFile, dirname: string, mask: bv8, p: Parts, domainname: string, plain: string,
                  lost: string)
    requires list.Valid() && n in list.nodes && n !in list.building
      && Stems(n.origin, Request([dirname], mask, p, domainname))
    requires n.filename == Exact(dirname, plain, domainname) && NeverSpelt(p, mask, plain, lost)
    ensures !Reaches(n, Exact(dirname, lost, domainname), list.nodes)
  {
    hide Spell, Submask, Expected;
    assert Complete(n, list.nodes) && WellMade(n);
    assert n.origin.dirs == [dirname];
    SubmaskSelf(n.origin.mask);
    SameMiddle(dirname, Spell(p, n.origin.mask), plain, domainname);
    SameMiddle(dirname, Spell(p, n.origin.mask), lost, domainname);
    forall i | 0 <= i < n.successor.Length && Listed(n, i)
      ensures n.successor[i].filename != Exact(dirname, lost, domainname)
    {
      var e := Wants(n)[i];
      FitsBits(e.mask, n.origin.mask);
      ExpectedMeaning([dirname], n.origin.mask, e);
      SameMiddle(dirname, Spell(p, e.mask), lost, domainname);
    }
  }

  /** A node that was made for it leads to what its generalisations spell. */
  lemma NodeLeads(list: L10nList, n: L10nFile, dirname: string, mask: bv8, p: Parts, domainname: string, m: bv8)
    requires list.Valid() && n in list.nodes && n !in list.building
      && n.origin == Request([dirname], mask, p, domainname)
    requires Submask(m, mask) && Consistent(m) && m != mask
    ensures Reaches(n, Exact(dirname, Spell(p, m), domainname), list.nodes)
  {
    hide Spell, Expected, Submask, Consistent;
    var e := Entry(dirname, m);
    FitsBits(m, mask);
    ExpectedMeaning([dirname], mask, e);
    assert Complete(n, list.nodes) && WantedName(n, e) == Exact(dirname, Spell(p, m), domainname);
    var i :| 0 <= i < |Wants(n)| && Wants(n)[i] == e;
    assert Listed(n, i);
  }

  /** A node that was made for a name whose codeset is not in normal form, and has exactly its file, does not lead to
      the
      file of the normal form. */
  lemma NormalIsLost(list: L10nList, n: L10nFile, dirname: string, p: Parts, domainname: string)
    requires list.Valid() && n in list.nodes && n !in list.building && p.codeset != p.normalized
    requires Stems(n.origin, Request([dirname], SPELLED, p, domainname))
    requires n.filename == Exact(dirname, p.language + "_" + p.territory + "." + p.codeset, domainname)
    ensures !Reaches(n, Exact(dirname, p.language + "_" + p.territory + "." + p.normalized, domainname), list.nodes)
  {
    hide Spell, Submask, Stems, Reaches, Exact;
    var plain, lost := p.language + "_" + p.territory + "." + p.codeset, p.language + "_" + p.territory + "."
      + p.normalized;
    forall m, e | Submask(m, SPELLED) && Submask(e, m) && Spell(p, m) == plain ensures Spell(p, e) != lost {
      PlainOnly(p, m);
    }
    NodeLoses(list, n, dirname, SPELLED, p, domainname, plain, lost);
  }

  /** A node made for such a name leads to it. */
  lemma NormalIsAsked(list: L10nList, n: L10nFile, dirname: string, p: Parts, domainname: string)
    requires list.Valid() && n in list.nodes && n !in list.building
      && n.origin == Request([dirname], SPELLED, p, domainname)
    ensures Reaches(n, Exact(dirname, p.language + "_" + p.territory + "." + p.normalized, domainname), list.nodes)
  {
    hide Spell, Reaches, Exact;
    var m := MaskOf(true, false, true, false, false, false, false, false);
    assert Spell(p, m) == p.language + "_" + p.territory + "." + p.normalized by {
      SpelledTail(p, m);
    }
    NodeLeads(list, n, dirname, SPELLED, p, domainname, m);
  }

  /** With a modifier, it is the file of the modifier with a plus sign and without a codeset that is lost. */
  lemma PlusIsLost(list: L10nList, n: L10nFile, dirname: string, language: string, territory: Option<string>,
                   codeset: Option<string>,
                   modifier: string, domainname: string)
    requires list.Valid() && n in list.nodes && n !in list.building
      && IsXpg(language, territory, codeset, Some(modifier))
    requires Stems(n.origin, Request([dirname], XpgMask(territory, codeset, Some(modifier)),
                                     XpgParts(language, territory, codeset, Some(modifier)), domainname))
    requires n.filename == Exact(dirname, XpgName(language, territory, codeset, Some(modifier)), domainname)
    ensures !Reaches(n, PlusFile(dirname, language, territory, modifier, domainname), list.nodes)
  {
    hide Spell, Submask, Stems, Reaches, Exact, XpgName, XpgMask, XpgParts, IsXpg;
    var p, top := XpgParts(language, territory, codeset, Some(modifier)), XpgMask(territory, codeset, Some(modifier));
    var plain, lost := XpgName(language, territory, codeset, Some(modifier)), language + Tagged('_', territory) + "+"
      + modifier;
    forall m, e | Submask(m, top) && Submask(e, m) && Spell(p, m) == plain ensures Spell(p, e) != lost {
      AskedFlags(language, territory, codeset, modifier, m, e);
      SpellsAt(language, territory, codeset, modifier, m);
      NeverPlus(language, territory, codeset, modifier, e);
    }
    NodeLoses(list, n, dirname, top, p, domainname, plain, lost);
  }

  lemma AskedFlags(language: string, territory: Option<string>, codeset: Option<string>, modifier: string, m: bv8,
                   e: bv8)
    requires IsXpg(language, territory, codeset, Some(modifier))
      && Submask(m, XpgMask(territory, codeset, Some(modifier))) && Submask(e, m)
    ensures Submask(m, XPG_FLAGS) && Submask(e, XPG_FLAGS) && (!Has(m, CEN_AUDIENCE) ==> !Has(e, CEN_AUDIENCE))
    ensures territory.None? ==> !Has(e, TERRITORY) && !Has(e, XPG_CODESET) && !Has(e, XPG_NORM_CODESET)
  {
  }

  /** A node made for such a name leads to it. */
  lemma PlusIsAsked(list: L10nList, n: L10nFile, dirname: string, language: string, territory: Option<string>,
                    codeset: Option<string>,
                    modifier: string, domainname: string)
    requires list.Valid() && n in list.nodes && n !in list.building
    requires n.origin == Request([dirname], XpgMask(territory, codeset, Some(modifier)),
                                 XpgParts(language, territory, codeset, Some(modifier)), domainname)
    ensures Reaches(n, PlusFile(dirname, language, territory, modifier, domainname), list.nodes)
  {
    hide Spell, Reaches, Exact, Normalize;
    var m := MaskOf(territory.Some?, false, false, false, true, false, false, false);
    var p := XpgParts(language, territory, codeset, Some(modifier));
    PlusMask(territory, codeset, modifier);
    assert Spell(p, m) == language + Tagged('_', territory) + "+" + modifier by {
      XpgTail(p, m);
      MaskFlags(territory.Some?, false, false, false, true, false, false, false);
      var y := language + Tagged('_', territory);
      assert y + "" + "" + "+" + modifier == y + "+" + modifier;
    }
    NodeLeads(list, n, dirname, XpgMask(territory, codeset, Some(modifier)), p, domainname, m);
  }

  lemma PlusMask(territory: Option<string>, codeset: Option<string>, modifier: string)
    ensures
      var m, top := MaskOf(territory.Some?, false, false, false, true, false, false, false),
          XpgMask(territory, codeset, Some(modifier));
      Submask(m, top) && Consistent(m) && m != top && Submask(m, XPG_FLAGS)
  {
  }

  lemma OldNames(nodes: seq<L10nFile>, n: L10nFile)
    requires n.filename !in Names(nodes)
    ensures n !in nodes
  {
  }

  /** The file of the normal form of the codeset. */
  function NormalFile(dirname: string, language: string, territory: Option<string>, codeset: string,
                      domainname: string): string
  {
    Exact(dirname, language + "_" + Or(territory) + "." + Normalize(codeset), domainname)
  }

  /** The file of the modifier, as an audience, without a codeset. */
  function PlusFile(dirname: string, language: string, territory: Option<string>, modifier: string,
                    domainname: string): string
  {
    Exact(dirname, language + Tagged('_', territory) + "+" + modifier, domainname)
  }

  /** The file that the second search loses. */
  function LostFile(dirname: string, language: string, territory: Option<string>, codeset: Option<string>,
                    modifier: Option<string>, domainname: string): string
  {
    if modifier.Some? then PlusFile(dirname, language, territory, modifier.value, domainname)
    else NormalFile(dirname, language, territory, Or(codeset), domainname)
  }

  /** A name that is not the file name of its own node. */
  predicate Respelled(codeset: Option<string>, modifier: Option<string>) {
    modifier.Some? || (codeset.Some? && codeset.value != Normalize(codeset.value))
  }

  lemma LosesNormal(list: L10nList, first: L10nFile, second: L10nFile, dirname: string, language: string,
                    territory: Option<string>,
                    codeset: Option<string>, domainname: string)
    requires IsXpg(language, territory, codeset, None) && codeset.Some? && codeset.value != Normalize(codeset.value)
    requires list.Valid() && list.building == {} && first in list.nodes && second in list.nodes
    requires var name := XpgName(language, territory, codeset, None);
      && first.origin == Asked(dirname, name, domainname) && Stems(second.origin, Asked(dirname, name, domainname))
      && second.filename == Exact(dirname, name, domainname)
    ensures Reaches(first, NormalFile(dirname, language, territory, codeset.value, domainname), list.nodes)
    ensures !Reaches(second, NormalFile(dirname, language, territory, codeset.value, domainname), list.nodes)
  {
    hide Explode, XpgName, FileName, Titles, Names, Exact, Normalize, Reaches, Stems;
    SpelledParts(language, Or(territory), codeset.value);
    var parts := Explode(XpgName(language, territory, codeset, None)).parts;
    NormalIsAsked(list, first, dirname, parts, domainname);
    NormalIsLost(list, second, dirname, parts, domainname);
  }

  lemma LosesFile(list: L10nList, first: L10nFile, second: L10nFile, dirname: string, language: string,
                  territory: Option<string>,
                  codeset: Option<string>, modifier: Option<string>, domainname: string)
    requires IsXpg(language, territory, codeset, modifier) && Respelled(codeset, modifier)
    requires list.Valid() && list.building == {} && first in list.nodes && second in list.nodes
    requires var name := XpgName(language, territory, codeset, modifier);
      && first.origin == Asked(dirname, name, domainname) && Stems(second.origin, Asked(dirname, name, domainname))
      && second.filename == Exact(dirname, name, domainname)
    ensures Reaches(first, LostFile(dirname, language, territory, codeset, modifier, domainname), list.nodes)
    ensures !Reaches(second, LostFile(dirname, language, territory, codeset, modifier, domainname), list.nodes)
  {
    hide Explode, XpgName, XpgMask, XpgParts, Exact, Normalize, NormalFile, PlusFile, Reaches, Stems;
    if modifier.Some? {
      assert modifier == Some(modifier.value);
      XpgExplodes(language, territory, codeset, modifier);
      PlusIsAsked(list, first, dirname, language, territory, codeset, modifier.value, domainname);
      PlusIsLost(list, second, dirname, language, territory, codeset, modifier.value, domainname);
    } else {
      assert modifier == None;
      LosesNormal(list, first, second, dirname, language, territory, codeset, domainname);
    }
  }

  /** What two searches have found when the first one made the node. */
  lemma TwiceNew(list: L10nList, first: L10nFile, second: L10nFile, dirname: string, language: string,
                 territory: Option<string>,
                 codeset: Option<string>, modifier: Option<string>, domainname: string)
    requires IsXpg(language, territory, codeset, modifier)
    requires list.Valid() && list.building == {} && first in list.nodes && second in list.nodes
      && (first == second <==> first.filename == second.filename)
    requires var name := XpgName(language, territory, codeset, modifier);
      && first.origin == Asked(dirname, name, domainname) && Stems(second.origin, Asked(dirname, name, domainname))
      && second.filename == Exact(dirname, name, domainname)
    ensures Reaches(first, Exact(dirname, XpgName(language, territory, codeset, modifier), domainname), list.nodes)
    ensures first == second <==> !Respelled(codeset, modifier)
    ensures first == second <==> forall file :: Reaches(first, file, list.nodes) ==> Reaches(second, file, list.nodes)
    ensures first != second ==>
      var lost := LostFile(dirname, language, territory, codeset, modifier, domainname);
      Reaches(first, lost, list.nodes) && !Reaches(second, lost, list.nodes)
  {
    hide Explode, Spell, XpgName, Exact, Normalize, LostFile, Reaches, Stems, IsXpg;
    NodeReachesExact(list, first, dirname, language, territory, codeset, modifier, domainname);
    ExactIsAsked(dirname, language, territory, codeset, modifier, domainname);
    XpgSpellsItself(language, territory, codeset, modifier);
    if Respelled(codeset, modifier) {
      LosesFile(list, first, second, dirname, language, territory, codeset, modifier, domainname);
    }
  }

  /** Looking for a locale twice: the second search makes nothing and finds the node of exactly that file. It is the
      node found first if and only if the name has no modifier and its codeset, if any, is in normal form. If it is not,
      and only then, a file is lost: that of the modifier with a plus sign, or else that of the normal form. */
  method FindTwice(list: L10nList, dirname: string, language: string, territory: Option<string>,
                   codeset: Option<string>,
                   modifier: Option<string>, domainname: string)
    returns (first: L10nFile, second: L10nFile)
    requires list.Valid() && list.building == {} && IsXpg(language, territory, codeset, modifier)
    requires NoNul(dirname) && NoNul(domainname) && NoNul(XpgName(language, territory, codeset, modifier))
    modifies list
    ensures list.Valid() && first in list.nodes && second in list.nodes
    ensures
      var name := XpgName(language, territory, codeset, modifier);
      var r := Asked(dirname, name, domainname);
      var exact := Exact(dirname, name, domainname);
      && (exact in Names(old(list.nodes)) ==>
          list.nodes == old(list.nodes) && first == second && first.filename == exact)
      && (IsNew(old(list.nodes), dirname, name, domainname) ==>
            && Names(list.nodes) == Names(old(list.nodes)) + {AskedFile(dirname, name, domainname)} + Titles(r)
            && second.filename == exact && Reaches(first, exact, list.nodes)
            && (first == second <==> !Respelled(codeset, modifier))
            && (first == second <==>
                forall file :: Reaches(first, file, list.nodes) ==> Reaches(second, file, list.nodes))
            && (first != second ==>
                  var lost := LostFile(dirname, language, territory, codeset, modifier, domainname);
                  Reaches(first, lost, list.nodes) && !Reaches(second, lost, list.nodes)))
  {
    hide XpgName, Titles, Names, Exact, Normalize, LostFile, Respelled, Reaches, Stems, Asked, AskedFile, IsXpg;
    var name := XpgName(language, territory, codeset, modifier);
    var locale := CString(name);
    first := FindDomain(list, dirname, locale, name, domainname, None);
    ExactIsAsked(dirname, language, territory, codeset, modifier, domainname);
    locale := CString(name);
    second := FindDomain(list, dirname, locale, name, domainname, None);
    list.OneNode(first, second);
    if IsNew(old(list.nodes), dirname, name, domainname) {
      OldNames(old(list.nodes), second);
      TwiceNew(list, first, second, dirname, language, territory, codeset, modifier, domainname);
    }
  }
}
