/** The list of locale files: one node for each file name, with the nodes of the more general names
    as its successors. */
module LocaleFiles {
  import opened CStrings
  import opened LocaleMask
  import opened LocaleName
  import opened Wrappers

  /** What a node is asked for. */
  datatype Request = Request(dirs: seq<string>, mask: bv8, parts: Parts, filename: string)

  // ----- lists of directories, each one ended by a NUL

  function Argz(dirs: seq<string>, sep: char): string {
    if dirs == [] then "" else dirs[0] + [sep] + Argz(dirs[1..], sep)
  }

  predicate NoNul(s: string) { '\0' !in s }

  predicate Clean(dirs: seq<string>) { forall d | d in dirs :: NoNul(d) }

  lemma {:induction false} ArgzAppend(a: seq<string>, b: seq<string>, sep: char)
    ensures Argz(a + b, sep) == Argz(a, sep) + Argz(b, sep)
    decreases |a|
  {
    if a == [] {
      assert a + b == b;
    } else {
      assert (a + b)[1..] == a[1..] + b;
      ArgzAppend(a[1..], b, sep);
    }
  }

  lemma ArgzFirst(dirs: seq<string>, rest: string)
    requires dirs != [] && Clean(dirs)
    ensures CStr(Argz(dirs, '\0') + rest) == dirs[0]
    ensures Argz(dirs, '\0')[|dirs[0]| + 1..] == Argz(dirs[1..], '\0')
  {
    var d := Argz(dirs, '\0') + rest;
    assert dirs[0] in dirs && d[..|dirs[0]|] == dirs[0] && d[|dirs[0]|] == '\0';
    CStrIs(d, dirs[0]);
  }

  /** `argz_count__` */
  method ArgzCount(argz: string, ghost dirs: seq<string>) returns (count: nat)
    requires Clean(dirs) && argz == Argz(dirs, '\0')
    ensures count == |dirs|
  {
    hide Argz;
    var at: nat, len: nat := 0, |argz|;
    count := 0;
    ArgzEmpty(dirs, '\0');
    while len > 0
      invariant count <= |dirs| && at + len == |argz| && argz[at..] == Argz(dirs[count..], '\0')
      decreases len
    {
      ArgzEmpty(dirs[count..], '\0');
      ArgzFirst(dirs[count..], "");
      assert argz[at..] + "" == argz[at..];
      var part_len := |CStr(argz[at..])|;
      assert argz[at..][part_len + 1..] == argz[at + part_len + 1..];
      assert dirs[count..][1..] == dirs[count + 1..];
      at := at + part_len + 1;
      len := len - (part_len + 1);
      count := count + 1;
    }
    ArgzEmpty(dirs[count..], '\0');
  }

  lemma ArgzEmpty(dirs: seq<string>, sep: char)
    ensures |Argz(dirs, sep)| == 0 <==> dirs == []
    ensures dirs != [] ==> |Argz(dirs, sep)| > |dirs[0]|
    ensures dirs[0..] == dirs
  {
  }

  function Offset(dirs: seq<string>, k: nat): nat
    requires k <= |dirs|
  {
    |Argz(dirs[..k], '\0')|
  }

  lemma ArgzFrom(dirs: seq<string>, k: nat)
    requires k <= |dirs|
    ensures Offset(dirs, k) <= |Argz(dirs, '\0')| && Argz(dirs, '\0')[Offset(dirs, k)..] == Argz(dirs[k..], '\0')
    ensures k < |dirs| ==> Offset(dirs, k + 1) == Offset(dirs, k) + |dirs[k]| + 1
  {
    assert dirs[..k] + dirs[k..] == dirs;
    ArgzAppend(dirs[..k], dirs[k..], '\0');
    if k < |dirs| {
      assert dirs[..k] + [dirs[k]] == dirs[..k + 1];
      ArgzAppend(dirs[..k], [dirs[k]], '\0');
      ArgzOne(dirs[k], '\0');
    }
  }

  lemma ArgzOne(d: string, sep: char)
    ensures Argz([d], sep) == d + [sep]
  {
    assert [d][1..] == [];
  }

  /** `argz_next__`, which walks from one directory to the next. */
  method ArgzNext(argz: string, entry: Option<nat>, ghost dirs: seq<string>, ghost k: nat) returns (next: Option<nat>)
    requires Clean(dirs) && argz == Argz(dirs, '\0')
    requires entry.Some? ==> k < |dirs| && entry.value == Offset(dirs, k)
    ensures entry.None? ==> next == if dirs == [] then None else Some(0)
    ensures entry.Some? ==> next == if k + 1 < |dirs| then Some(Offset(dirs, k + 1)) else None
  {
    hide Argz;
    ArgzEmpty(dirs, '\0');
    if entry.Some? {
      ArgzFrom(dirs, k);
      ArgzFrom(dirs, k + 1);
      ArgzEmpty(dirs[k..], '\0');
      ArgzEmpty(dirs[k + 1..], '\0');
      ArgzFirst(dirs[k..], "");
      assert argz[entry.value..] + "" == argz[entry.value..];
      var after := entry.value;
      if entry.value < |argz| {
        after := entry.value + |CStr(argz[entry.value..])| + 1;
      }
      next := if after >= |argz| then None else Some(after);
    } else {
      next := if |argz| > 0 then Some(0) else None;
    }
  }

  /** The directories with `sep` between them. */
  function Joined(dirs: seq<string>, sep: char): string
    requires dirs != []
  {
    if |dirs| == 1 then dirs[0] else dirs[0] + [sep] + Joined(dirs[1..], sep)
  }

  lemma {:induction false} JoinedIsArgz(dirs: seq<string>, sep: char)
    requires dirs != []
    ensures Joined(dirs, sep) + [sep] == Argz(dirs, sep)
    decreases |dirs|
  {
    if |dirs| == 1 {
      assert dirs == [dirs[0]];
      ArgzOne(dirs[0], sep);
    } else {
      JoinedIsArgz(dirs[1..], sep);
      assert dirs[0] + [sep] + Joined(dirs[1..], sep) + [sep] == dirs[0] + [sep] + (Joined(dirs[1..], sep) + [sep]);
    }
  }

  lemma {:induction false} ArgzLength(dirs: seq<string>, sep: char, other: char)
    ensures |Argz(dirs, sep)| == |Argz(dirs, other)|
    decreases |dirs|
  {
    if dirs != [] {
      ArgzLength(dirs[1..], sep, other);
    }
  }

  lemma ArgzTaken(dirs: seq<string>, k: nat, sep: char)
    requires k < |dirs|
    ensures Argz(dirs[..k + 1], sep) == Argz(dirs[..k], sep) + dirs[k] + [sep]
  {
    assert dirs[..k] + [dirs[k]] == dirs[..k + 1];
    ArgzAppend(dirs[..k], [dirs[k]], sep);
    ArgzOne(dirs[k], sep);
    assert Argz(dirs[..k], sep) + (dirs[k] + [sep]) == Argz(dirs[..k], sep) + dirs[k] + [sep];
  }

  /** The first `k` directories are joined, the others are as they were. */
  ghost predicate Stage(buf: string, at: nat, total: nat, dirs: seq<string>, k: nat, sep: char) {
    && k < |dirs| && at < total <= |buf|
    && buf[..at] == Argz(dirs[..k], sep) && buf[at..total] == Argz(dirs[k..], '\0')
  }

  lemma StageLength(buf: string, at: nat, total: nat, dirs: seq<string>, k: nat, sep: char)
    requires Clean(dirs) && Stage(buf, at, total, dirs, k, sep)
    ensures CStr(buf[at..]) == dirs[k] && at + |dirs[k]| + 1 <= total
    ensures at + |dirs[k]| + 1 == total <==> k + 1 == |dirs|
    ensures buf[at..at + |dirs[k]|] == dirs[k]
    ensures buf[at + |dirs[k]| + 1..total] == Argz(dirs[k + 1..], '\0')
  {
    hide Argz;
    var n := |dirs[k]|;
    ArgzFirst(dirs[k..], buf[total..]);
    ArgzEmpty(dirs[k..], '\0');
    ArgzEmpty(dirs[k + 1..], '\0');
    assert buf[at..] == buf[at..total] + buf[total..];
    assert buf[at..total][n + 1..] == buf[at + n + 1..total];
    assert dirs[k..][1..] == dirs[k + 1..];
    assert buf[at..at + n] == buf[at..][..n];
  }

  /** One turn of the loop. */
  lemma StageNext(buf: string, at: nat, total: nat, dirs: seq<string>, k: nat, sep: char)
    requires Clean(dirs) && Stage(buf, at, total, dirs, k, sep)
    ensures at + |dirs[k]| < |buf|
    ensures k + 1 < |dirs| ==> Stage(buf[at + |dirs[k]| := sep], at + |dirs[k]| + 1, total, dirs, k + 1, sep)
    ensures k + 1 == |dirs| ==> buf[..total - 1] == Joined(dirs, sep)
  {
    hide Argz, Joined;
    var n := |dirs[k]|;
    StageLength(buf, at, total, dirs, k, sep);
    ArgzTaken(dirs, k, sep);
    var b := buf[at + n := sep];
    assert b[..at + n + 1] == buf[..at] + buf[at..at + n] + [sep];
    if k + 1 < |dirs| {
      assert b[at + n + 1..total] == buf[at + n + 1..total];
    } else {
      assert dirs[..k + 1] == dirs;
      JoinedIsArgz(dirs, sep);
      assert (Joined(dirs, sep) + [sep])[..total - 1] == Joined(dirs, sep);
      assert b[..at + n] == buf[..at + n];
    }
  }

  /** `argz_stringify__`: all the NULs but the last become `sep`. */
  method ArgzStringify(buf: array<char>, total: nat, sep: char, ghost dirs: seq<string>)
    requires total <= buf.Length && dirs != [] && Clean(dirs) && buf[..total] == Argz(dirs, '\0')
    modifies buf
    ensures total > 0 && buf[..total - 1] == Joined(dirs, sep)
  {
    hide Argz, Joined;
    var at: nat, len: nat := 0, total;
    ghost var k := 0;
    ArgzEmpty(dirs, '\0');
    ArgzEmpty([], sep);
    assert dirs[..0] == [];
    while len > 0
      invariant len > 0 ==> at + len == total && Stage(buf[..], at, total, dirs, k, sep)
      invariant len == 0 ==> buf[..total - 1] == Joined(dirs, sep)
      decreases len
    {
      hide Argz, Joined, Stage;
      StageLength(buf[..], at, total, dirs, k, sep);
      StageNext(buf[..], at, total, dirs, k, sep);
      ghost var now := buf[..];
      var part_len := |CStr(buf[at..])|;
      at := at + part_len;
      len := len - (part_len + 1);
      k := k + 1;
      if len > 0 {
        buf[at] := sep;
        assert buf[..] == now[at := sep];
        at := at + 1;
      }
    }
  }

  // ----- building a file name

  /** The directories, the locale and the file. */
  function FileName(r: Request): string
    requires r.dirs != []
  {
    Joined(r.dirs, ':') + "/" + Spell(r.parts, r.mask) + "/" + r.filename
  }

  predicate CleanParts(p: Parts) {
    && NoNul(p.language) && NoNul(p.territory) && NoNul(p.codeset) && NoNul(p.normalized)
    && NoNul(p.modifier) && NoNul(p.special) && NoNul(p.sponsor) && NoNul(p.revision)
  }

  predicate CleanRequest(r: Request) { r.dirs != [] && Clean(r.dirs) && CleanParts(r.parts) && NoNul(r.filename) }

  function Cost(present: bool, s: string): nat { if present then |s| + 1 else 0 }

  function FrontCost(mask: bv8, p: Parts): nat {
    |p.language|
    + Cost(Has(mask, TERRITORY), p.territory)
    + Cost(Has(mask, XPG_CODESET), p.codeset)
    + Cost(Has(mask, XPG_NORM_CODESET), p.normalized)
  }

  function SponsorshipCost(mask: bv8, p: Parts): nat {
    if Has(mask, CEN_SPONSOR) || Has(mask, CEN_REVISION)
    then 1 + Cost(Has(mask, CEN_SPONSOR), p.sponsor) + Cost(Has(mask, CEN_REVISION), p.revision)
    else 0
  }

  function BackCost(mask: bv8, p: Parts): nat {
    Cost(Has(mask, XPG_MODIFIER) || Has(mask, CEN_AUDIENCE), p.modifier)
    + Cost(Has(mask, CEN_SPECIAL), p.special)
    + SponsorshipCost(mask, p)
  }

  /** The room that is allocated for the name. */
  function AllocSize(dirlistLen: nat, mask: bv8, p: Parts, filename: string): nat {
    dirlistLen + FrontCost(mask, p) + BackCost(mask, p) + 1 + |filename| + 1
  }

  lemma HasEither(mask: bv8)
    ensures Has(mask, XPG_MODIFIER | CEN_AUDIENCE) == (Has(mask, XPG_MODIFIER) || Has(mask, CEN_AUDIENCE))
    ensures Has(mask, CEN_SPONSOR | CEN_REVISION) == (Has(mask, CEN_SPONSOR) || Has(mask, CEN_REVISION))
  {
  }

  /** `stpcpy`: copies the string with its NUL and returns where the NUL is. */
  method StpCpy(buf: array<char>, at: nat, src: string) returns (end: nat)
    requires at + |src| < buf.Length
    modifies buf
    ensures end == at + |src| && buf[end] == '\0' && buf[..end] == old(buf[..at]) + src
  {
    var i := 0;
    while i < |src|
      invariant i <= |src|
      invariant buf[..at + i] == old(buf[..at]) + src[..i]
    {
      buf[at + i] := src[i];
      i := i + 1;
    }
    end := at + i;
    buf[end] := '\0';
  }

  /** Writes a part with its separator, if it is in the mask. */
  method PutPart(buf: array<char>, at: nat, present: bool, sep: char, s: string) returns (end: nat)
    requires at + Cost(present, s) < buf.Length
    modifies buf
    ensures end == at + Cost(present, s) && buf[..end] == old(buf[..at]) + Segment(present, sep, s)
  {
    end := at;
    if present {
      buf[at] := sep;
      end := StpCpy(buf, at + 1, s);
    }
  }

  function SpellFront(p: Parts, mask: bv8): string {
    p.language
    + Segment(Has(mask, TERRITORY), '_', p.territory)
    + Segment(Has(mask, XPG_CODESET), '.', p.codeset)
    + Segment(Has(mask, XPG_NORM_CODESET), '.', p.normalized)
  }

  function SpellBack(p: Parts, mask: bv8): string {
    Segment(Has(mask, XPG_MODIFIER | CEN_AUDIENCE), ModifierSign(mask), p.modifier)
    + Segment(Has(mask, CEN_SPECIAL), '+', p.special)
    + Segment(Has(mask, CEN_SPONSOR | CEN_REVISION), ',', Sponsorship(p, mask))
  }

  lemma SpellHalves(p: Parts, mask: bv8)
    ensures Spell(p, mask) == SpellFront(p, mask) + SpellBack(p, mask)
  {
    hide Has, Segment, ModifierSign, Sponsorship;
    Halves(SpellFront(p, mask), Segment(Has(mask, XPG_MODIFIER | CEN_AUDIENCE), ModifierSign(mask), p.modifier),
           Segment(Has(mask, CEN_SPECIAL), '+', p.special),
           Segment(Has(mask, CEN_SPONSOR | CEN_REVISION), ',', Sponsorship(p, mask)));
  }

  lemma Halves(a: string, f: string, g: string, h: string)
    ensures a + f + g + h == a + (f + g + h)
  {
  }

  lemma Three(x: string, a: string, b: string, c: string)
    ensures x + a + b + c == x + (a + b + c)
  {
  }

  lemma Four(x: string, a: string, b: string, c: string, d: string)
    ensures x + a + b + c + d == x + (a + b + c + d)
  {
  }

  /** The directories and the slash after them. */
  method PutDirectories(buf: array<char>, dirlist: string, ghost dirs: seq<string>) returns (end: nat)
    requires dirs != [] && Clean(dirs) && dirlist == Argz(dirs, '\0') && |dirlist| <= buf.Length
    modifies buf
    ensures end == |dirlist| && buf[..end] == Joined(dirs, ':') + "/"
  {
    hide Argz, Joined;
    var i := 0;
    while i < |dirlist|
      invariant i <= |dirlist| && buf[..i] == dirlist[..i]
    {
      buf[i] := dirlist[i];
      i := i + 1;
    }
    assert dirlist[..i] == dirlist;
    ArgzStringify(buf, |dirlist|, ':', dirs);
    buf[|dirlist| - 1] := '/';
    end := |dirlist|;
  }

  /** The sponsor and the revision of CEN syntax. */
  method PutSponsorship(buf: array<char>, at: nat, mask: bv8, p: Parts) returns (end: nat)
    requires at + SponsorshipCost(mask, p) < buf.Length
    modifies buf
    ensures at <= end <= at + SponsorshipCost(mask, p)
    ensures buf[..end] == old(buf[..at]) + Segment(Has(mask, CEN_SPONSOR | CEN_REVISION), ',', Sponsorship(p, mask))
  {
    hide Has;
    HasEither(mask);
    end := at;
    if Has(mask, CEN_SPONSOR | CEN_REVISION) {
      ghost var front := buf[..at];
      buf[end] := ',';
      end := end + 1;
      assert buf[..end] == front + ",";
      if Has(mask, CEN_SPONSOR) {
        end := StpCpy(buf, end, p.sponsor);
      }
      ghost var sponsor := if Has(mask, CEN_SPONSOR) then p.sponsor else "";
      assert buf[..end] == front + "," + sponsor;
      end := PutPart(buf, end, Has(mask, CEN_REVISION), '_', p.revision);
      assert buf[..end] == front + "," + sponsor + Segment(Has(mask, CEN_REVISION), '_', p.revision);
      assert "," + (sponsor + Segment(Has(mask, CEN_REVISION), '_', p.revision)) == [','] + Sponsorship(p, mask);
    }
  }

  /** The parts up to the codeset. */
  method PutFront(buf: array<char>, at: nat, mask: bv8, p: Parts) returns (end: nat)
    requires at + FrontCost(mask, p) < buf.Length
    modifies buf
    ensures end == at + FrontCost(mask, p) && buf[..end] == old(buf[..at]) + SpellFront(p, mask)
  {
    hide Has, Segment, Cost;
    ghost var x := buf[..at];
    end := StpCpy(buf, at, p.language);
    end := PutPart(buf, end, Has(mask, TERRITORY), '_', p.territory);
    end := PutPart(buf, end, Has(mask, XPG_CODESET), '.', p.codeset);
    end := PutPart(buf, end, Has(mask, XPG_NORM_CODESET), '.', p.normalized);
    Four(x, p.language, Segment(Has(mask, TERRITORY), '_', p.territory),
         Segment(Has(mask, XPG_CODESET), '.', p.codeset),
         Segment(Has(mask, XPG_NORM_CODESET), '.', p.normalized));
  }

  /** The modifier or audience, and what follows it. */
  method PutBack(buf: array<char>, at: nat, mask: bv8, p: Parts) returns (end: nat)
    requires at + BackCost(mask, p) < buf.Length
    modifies buf
    ensures at <= end <= at + BackCost(mask, p) && buf[..end] == old(buf[..at]) + SpellBack(p, mask)
  {
    hide Has, Segment, Cost, SponsorshipCost, ModifierSign, Sponsorship;
    HasEither(mask);
    ghost var x := buf[..at];
    end := PutPart(buf, at, Has(mask, XPG_MODIFIER | CEN_AUDIENCE), if Has(mask, CEN_AUDIENCE) then '+' else '@',
                   p.modifier);
    SignOf(mask);
    end := PutPart(buf, end, Has(mask, CEN_SPECIAL), '+', p.special);
    end := PutSponsorship(buf, end, mask, p);
    Three(x, Segment(Has(mask, XPG_MODIFIER | CEN_AUDIENCE), ModifierSign(mask), p.modifier),
          Segment(Has(mask, CEN_SPECIAL), '+', p.special),
          Segment(Has(mask, CEN_SPONSOR | CEN_REVISION), ',', Sponsorship(p, mask)));
  }

  lemma SignOf(mask: bv8)
    ensures ModifierSign(mask) == if Has(mask, CEN_AUDIENCE) then '+' else '@'
  {
  }

  /** The part of `_nl_make_l10nflist` that builds the name; it fits in what was allocated for it. */
  method BuildName(dirlist: string, mask: bv8, p: Parts, filename: string, ghost r: Request) returns (buf: array<char>)
    requires CleanRequest(r) && r == Request(r.dirs, mask, p, filename) && dirlist == Argz(r.dirs, '\0')
    ensures fresh(buf) && buf.Length == AllocSize(|dirlist|, mask, p, filename)
    ensures |FileName(r)| < buf.Length && CStr(buf[..]) == FileName(r)
  {
    hide Spell, SpellFront, SpellBack, FrontCost, BackCost, Argz, Joined;
    buf := new char[AllocSize(|dirlist|, mask, p, filename)];
    var cp := PutDirectories(buf, dirlist, r.dirs);
    cp := PutFront(buf, cp, mask, p);
    cp := PutBack(buf, cp, mask, p);
    ghost var front := buf[..cp];
    buf[cp] := '/';
    cp := cp + 1;
    assert buf[..cp] == front + "/";
    cp := StpCpy(buf, cp, filename);
    SpellHalves(p, mask);
    var j := Joined(r.dirs, ':') + "/";
    assert j + SpellFront(p, mask) + SpellBack(p, mask) == j + Spell(p, mask);
    NameIsClean(r);
    CStrIs(buf[..], FileName(r));
  }

  lemma {:induction false} JoinedIsClean(dirs: seq<string>, sep: char)
    requires dirs != [] && Clean(dirs) && sep != '\0'
    ensures NoNul(Joined(dirs, sep))
    decreases |dirs|
  {
    assert dirs[0] in dirs;
    if |dirs| > 1 {
      JoinedIsClean(dirs[1..], sep);
    }
  }

  lemma NameIsClean(r: Request)
    requires CleanRequest(r)
    ensures NoNul(FileName(r))
  {
    hide Has, Joined;
    JoinedIsClean(r.dirs, ':');
    assert NoNul(Spell(r.parts, r.mask));
  }
}
