/** The list of locale files: one node for each file name, with the nodes of the more general names
    as its successors. */
module LocaleList {
  import opened CStrings
  import opened LocaleMask
  import opened LocaleName
  import opened LocaleFiles
  import opened Wrappers

  // ----- the successors a node must have

  /** A directory and the parts of the locale to look for in it. */
  datatype Entry = Entry(dir: string, mask: bv8)

  function InDirs(dirs: seq<string>, c: bv8): seq<Entry> {
    if dirs == [] then [] else [Entry(dirs[0], c)] + InDirs(dirs[1..], c)
  }

  function Pairs(masks: seq<bv8>, dirs: seq<string>): seq<Entry> {
    if masks == [] then [] else InDirs(dirs, masks[0]) + Pairs(masks[1..], dirs)
  }

  /** Every generalisation of the mask in decreasing order, each in all the directories. */
  function Expected(dirs: seq<string>, mask: bv8): seq<Entry> {
    Pairs(Generalisations(mask, |dirs| != 1), dirs)
  }

  function Title(e: Entry, p: Parts, filename: string): string {
    FileName(Request([e.dir], e.mask, p, filename))
  }

  lemma {:induction false} InDirsMember(dirs: seq<string>, c: bv8, e: Entry)
    ensures e in InDirs(dirs, c) <==> e.mask == c && e.dir in dirs
    ensures |InDirs(dirs, c)| == |dirs|
    decreases |dirs|
  {
    if dirs != [] {
      InDirsMember(dirs[1..], c, e);
      assert e.dir in dirs <==> e.dir == dirs[0] || e.dir in dirs[1..];
    }
  }

  lemma {:induction false} PairsMember(masks: seq<bv8>, dirs: seq<string>, e: Entry)
    ensures e in Pairs(masks, dirs) <==> e.mask in masks && e.dir in dirs
    decreases |masks|
  {
    if masks != [] {
      PairsMember(masks[1..], dirs, e);
      InDirsMember(dirs, masks[0], e);
      assert e.mask in masks <==> e.mask == masks[0] || e.mask in masks[1..];
    }
  }

  lemma {:induction false} PairsSize(masks: seq<bv8>, dirs: seq<string>)
    ensures |Pairs(masks, dirs)| == |masks| * |dirs|
    decreases |masks|
  {
    if masks != [] {
      PairsSize(masks[1..], dirs);
      InDirsMember(dirs, masks[0], Entry("", 0));
      assert |masks| * |dirs| == |dirs| + (|masks| - 1) * |dirs|;
    }
  }

  /** The successors and the terminator fit in what is allocated: one more than the directories times
      two to the power of the number of bits. */
  lemma ExpectedFits(dirs: seq<string>, mask: bv8)
    ensures |Expected(dirs, mask)| <= |dirs| * Pow2(Value(Pop(Wide(mask))))
  {
    hide Submasks, Pairs, Pow2, Value, Pop, Wide;
    var ms := Generalisations(mask, |dirs| != 1);
    PairsSize(ms, dirs);
    if mask != 0 || |dirs| != 1 {
      SubmasksBound(mask, if |dirs| != 1 then mask else mask - 1);
    }
    Times(|ms|, Pow2(Value(Pop(Wide(mask)))), |dirs|);
  }

  lemma Times(a: nat, b: nat, c: nat)
    requires a <= b
    ensures a * c <= c * b
  {
  }

  /** Exactly the sub-masks that mix no parts of the two syntaxes and have no two forms of the codeset, without the mask
      itself if there is one directory. */
  lemma ExpectedMeaning(dirs: seq<string>, mask: bv8, e: Entry)
    ensures e in Expected(dirs, mask) <==>
            && e.dir in dirs && e.mask & !mask == 0 && (|dirs| == 1 ==> e.mask != mask)
            && !(Has(e.mask, CEN_REVISION | CEN_SPONSOR | CEN_SPECIAL | CEN_AUDIENCE)
                 && Has(e.mask, XPG_CODESET | XPG_NORM_CODESET | XPG_MODIFIER))
            && !(Has(e.mask, XPG_CODESET) && Has(e.mask, XPG_NORM_CODESET))
  {
    hide Submasks, Pairs, Submask, Consistent;
    FitsBits(e.mask, mask);
    PairsMember(Generalisations(mask, |dirs| != 1), dirs, e);
    if |dirs| != 1 {
      SubmasksMember(mask, mask, e.mask);
      if Submask(e.mask, mask) {
        SubmaskIsLess(e.mask, mask);
      }
    } else if mask != 0 {
      SubmasksMember(mask, mask - 1, e.mask);
      if Submask(e.mask, mask) {
        SubmaskIsLess(e.mask, mask);
      }
      StrictlyLess(e.mask, mask);
    } else if Submask(e.mask, mask) {
      SubmaskIsLess(e.mask, mask);
    }
  }

  lemma FitsBits(m: bv8, mask: bv8)
    ensures Submask(m, mask) <==> m & !mask == 0
    ensures Consistent(m) <==>
            && !(Has(m, CEN_REVISION | CEN_SPONSOR | CEN_SPECIAL | CEN_AUDIENCE)
                 && Has(m, XPG_CODESET | XPG_NORM_CODESET | XPG_MODIFIER))
            && !(Has(m, XPG_CODESET) && Has(m, XPG_NORM_CODESET))
  {
  }

  lemma SubmaskIsLess(c: bv8, mask: bv8)
    requires Submask(c, mask)
    ensures c <= mask && (mask == 0 ==> c == 0)
  {
  }

  lemma StrictlyLess(c: bv8, mask: bv8)
    requires mask != 0
    ensures c <= mask - 1 <==> c <= mask && c != mask
  {
  }

  lemma SubmaskTransitive(a: bv8, b: bv8, c: bv8)
    requires Submask(a, b) && Submask(b, c)
    ensures Submask(a, c) && (a == c ==> b == c)
  {
  }

  /** What a successor expects is expected already. */
  lemma ExpectedIsClosed(dirs: seq<string>, mask: bv8, e: Entry, f: Entry)
    requires e in Expected(dirs, mask) && f in Expected([e.dir], e.mask)
    ensures f in Expected(dirs, mask)
  {
    hide Expected, Submask, Consistent;
    ExpectedMeaning(dirs, mask, e);
    ExpectedMeaning([e.dir], e.mask, f);
    ExpectedMeaning(dirs, mask, f);
    SubmaskTransitive(f.mask, e.mask, mask);
    assert f.dir == e.dir;
  }

  // ----- the list

  /** `struct loaded_l10nfile`; the request it was made for is kept for the proofs. */
  class L10nFile {
    const filename: string
    const decided: bool
    const successor: array<L10nFile?>
    ghost const origin: Request

    constructor (filename: string, decided: bool, capacity: nat, ghost origin: Request)
      ensures this.filename == filename && this.decided == decided && this.origin == origin
      ensures fresh(successor) && successor.Length == capacity
    {
      this.filename := filename;
      this.decided := decided;
      this.origin := origin;
      this.successor := new L10nFile?[capacity](_ => null);
    }
  }

  predicate Decided(r: Request) {
    |r.dirs| != 1 || (Has(r.mask, XPG_CODESET) && Has(r.mask, XPG_NORM_CODESET))
  }

  ghost function Wants(n: L10nFile): seq<Entry> { Expected(n.origin.dirs, n.origin.mask) }

  ghost function WantedName(n: L10nFile, e: Entry): string { Title(e, n.origin.parts, n.origin.filename) }

  /** A node is named and sized after its request. */
  ghost predicate WellMade(n: L10nFile) {
    && n.origin.dirs != [] && n.filename == FileName(n.origin) && n.decided == Decided(n.origin)
    && n.successor.Length == 1 + |n.origin.dirs| * Pow2(Value(Pop(Wide(n.origin.mask))))
  }

  /** The first `k` successors are nodes of the list, with the names wanted in these places. */
  ghost predicate Filled(n: L10nFile, k: nat, nodes: seq<L10nFile>)
    reads n.successor
  {
    && k <= |Wants(n)| < n.successor.Length
    && forall i | 0 <= i < k ::
         n.successor[i] != null && n.successor[i] in nodes && n.successor[i].filename == WantedName(n, Wants(n)[i])
  }

  ghost predicate Complete(n: L10nFile, nodes: seq<L10nFile>)
    reads n.successor
  {
    Filled(n, |Wants(n)|, nodes) && n.successor[|Wants(n)|] == null
  }

  ghost predicate Decreasing(nodes: seq<L10nFile>) {
    forall i, j | 0 <= i < j < |nodes| :: StrCmp(nodes[i].filename, nodes[j].filename) > 0
  }

  ghost function Names(nodes: seq<L10nFile>): set<string> {
    set n | n in nodes :: n.filename
  }

  lemma FilledMore(n: L10nFile, k: nat, nodes: seq<L10nFile>, more: seq<L10nFile>)
    requires Filled(n, k, nodes) && forall m | m in nodes :: m in more
    ensures Filled(n, k, more)
  {
  }

  lemma CompleteMore(n: L10nFile, nodes: seq<L10nFile>, more: seq<L10nFile>)
    requires Complete(n, nodes) && forall m | m in nodes :: m in more
    ensures Complete(n, more)
  {
    FilledMore(n, |Wants(n)|, nodes, more);
  }

  /** Where `name` is or belongs. */
  ghost predicate Place(nodes: seq<L10nFile>, i: nat, name: string) {
    && i <= |nodes|
    && (forall j | 0 <= j < i :: StrCmp(nodes[j].filename, name) > 0)
    && (i < |nodes| ==> StrCmp(nodes[i].filename, name) <= 0)
  }

  /** The early exit misses nothing. */
  lemma PlaceDecides(nodes: seq<L10nFile>, i: nat, name: string)
    requires Decreasing(nodes) && Place(nodes, i, name)
    ensures i < |nodes| && nodes[i].filename == name <==> name in Names(nodes)
  {
    forall j | 0 <= j < |nodes| && nodes[j].filename == name ensures j == i {
      StrCmpEqual(name, name);
    }
  }

  lemma InsertMembers(nodes: seq<L10nFile>, i: nat, n: L10nFile)
    requires Place(nodes, i, n.filename) && n.filename !in Names(nodes)
    ensures i <= |nodes| && n !in nodes
    ensures (set m | m in nodes[..i] + [n] + nodes[i..]) == (set m | m in nodes) + {n}
    ensures Names(nodes[..i] + [n] + nodes[i..]) == Names(nodes) + {n.filename}
    ensures forall m | m in nodes :: m in nodes[..i] + [n] + nodes[i..]
  {
    var more := nodes[..i] + [n] + nodes[i..];
    assert nodes == nodes[..i] + nodes[i..];
    forall m: L10nFile ensures m in more <==> m in nodes || m == n {
    }
  }

  lemma InsertDecreasing(nodes: seq<L10nFile>, i: nat, n: L10nFile)
    requires Decreasing(nodes) && Place(nodes, i, n.filename) && n.filename !in Names(nodes)
    ensures Decreasing(nodes[..i] + [n] + nodes[i..])
  {
    var more := nodes[..i] + [n] + nodes[i..];
    forall a, b | 0 <= a < b < |more| ensures StrCmp(more[a].filename, more[b].filename) > 0 {
      if a == i {
        InsertBefore(nodes, i, n, b - 1);
      }
    }
  }

  lemma InsertBefore(nodes: seq<L10nFile>, i: nat, n: L10nFile, b: nat)
    requires Decreasing(nodes) && Place(nodes, i, n.filename) && n.filename !in Names(nodes) && i <= b < |nodes|
    ensures StrCmp(n.filename, nodes[b].filename) > 0
  {
    StrCmpEqual(nodes[i].filename, n.filename);
    StrCmpFlips(nodes[i].filename, n.filename);
    if i < b {
      StrCmpFlips(nodes[i].filename, nodes[b].filename);
      StrCmpTransitive(nodes[b].filename, nodes[i].filename, n.filename);
      StrCmpFlips(nodes[b].filename, n.filename);
    }
  }

  /** The names of all the successors a request asks for. */
  ghost function Titles(r: Request): set<string> {
    set e | e in Expected(r.dirs, r.mask) :: Title(e, r.parts, r.filename)
  }

  function SubRequest(r: Request, e: Entry): Request { Request([e.dir], e.mask, r.parts, r.filename) }

  lemma TitlesClosed(r: Request, e: Entry)
    requires e in Expected(r.dirs, r.mask)
    ensures {FileName(SubRequest(r, e))} + Titles(SubRequest(r, e)) <= Titles(r)
  {
    hide Expected, FileName;
    assert Title(e, r.parts, r.filename) in Titles(r);
    forall f | f in Expected([e.dir], e.mask) ensures Title(f, r.parts, r.filename) in Titles(r) {
      ExpectedIsClosed(r.dirs, r.mask, e, f);
    }
  }

  /** The request itself, or one for fewer of its parts in one of its directories. */
  predicate Stems(o: Request, r: Request) {
    && o.parts == r.parts && o.filename == r.filename && Submask(o.mask, r.mask)
    && (o == r || exists d | d in r.dirs :: o.dirs == [d])
  }

  lemma StemsThrough(r: Request, e: Entry)
    requires e in Expected(r.dirs, r.mask)
    ensures Stems(r, r) && forall o | Stems(o, SubRequest(r, e)) :: Stems(o, r)
  {
    hide Expected;
    ExpectedMeaning(r.dirs, r.mask, e);
    SubmaskSelf(r.mask);
    forall o | Stems(o, SubRequest(r, e)) ensures Stems(o, r) {
      SubmaskChain(o.mask, e.mask, r.mask);
    }
  }

  lemma StemsOfSelf(r: Request)
    ensures Stems(r, r)
  {
  }

  lemma SubmaskSelf(m: bv8)
    ensures Submask(m, m)
  {
  }

  lemma SubmaskChain(a: bv8, b: bv8, c: bv8)
    requires Submask(a, b) && Submask(b, c)
    ensures Submask(a, c)
  {
  }

  lemma FilledTitles(n: L10nFile, nodes: seq<L10nFile>)
    requires Filled(n, |Wants(n)|, nodes)
    ensures Titles(n.origin) <= Names(nodes)
  {
    hide Expected, FileName;
    forall e | e in Expected(n.origin.dirs, n.origin.mask)
      ensures Title(e, n.origin.parts, n.origin.filename) in Names(nodes)
    {
      var i :| 0 <= i < |Wants(n)| && Wants(n)[i] == e;
      assert n.successor[i] in nodes;
    }
  }

  lemma WellMadeRoom(n: L10nFile)
    requires WellMade(n)
    ensures |Wants(n)| < n.successor.Length
  {
    hide Expected, FileName, Pow2, Pop, Value, Wide;
    ExpectedFits(n.origin.dirs, n.origin.mask);
  }

  lemma FilledNext(n: L10nFile, k: nat, nodes: seq<L10nFile>)
    requires Filled(n, k, nodes) && k < |Wants(n)|
    requires n.successor[k] != null && n.successor[k] in nodes && n.successor[k].filename == WantedName(n, Wants(n)[k])
    ensures Filled(n, k + 1, nodes)
  {
  }

  /** Writes a place after those that are filled. */
  method SetSuccessor(n: L10nFile, k: nat, x: L10nFile?, ghost nodes: seq<L10nFile>)
    requires Filled(n, k, nodes) && k < n.successor.Length
    modifies n.successor
    ensures Filled(n, k, nodes) && n.successor[k] == x
  {
    n.successor[k] := x;
  }

  lemma FilledNone(n: L10nFile, nodes: seq<L10nFile>)
    requires |Wants(n)| < n.successor.Length
    ensures Filled(n, 0, nodes) && Wants(n)[0..] == Wants(n)
  {
  }

  /** Where the loop over the masks starts. */
  lemma ExpectedStart(dirs: seq<string>, mask: bv8)
    ensures Expected(dirs, mask) ==
            Pairs(if |dirs| == 1 && mask == 0 then [] else Submasks(mask, if |dirs| == 1 then mask - 1 else mask), dirs)
  {
  }

  lemma PairsCons(c: bv8, masks: seq<bv8>, dirs: seq<string>)
    ensures Pairs([c] + masks, dirs) == InDirs(dirs, c) + Pairs(masks, dirs)
    ensures Pairs([], dirs) == []
  {
    assert ([c] + masks)[1..] == masks;
  }

  lemma PairsNext(mask: bv8, cnt: bv8, dirs: seq<string>)
    ensures
      var rest := if cnt == 0 then [] else Submasks(mask, cnt - 1);
      Pairs(Submasks(mask, cnt), dirs) ==
      if Submask(cnt, mask) && Consistent(cnt) then InDirs(dirs, cnt) + Pairs(rest, dirs) else Pairs(rest, dirs)
  {
    hide Submasks, Submask, Consistent, Pairs;
    var rest := if cnt == 0 then [] else Submasks(mask, cnt - 1);
    SubmasksUnfold(mask, cnt);
    PairsCons(cnt, rest, dirs);
    assert [cnt] + [] == [cnt];
  }

  /** `c < mask`, and how far `c` is from 0. */
  predicate Less(c: bv8, mask: bv8) { c < mask }

  ghost function Rank(c: bv8): nat { if c == 0 then 0 else Rank(c - 1) + 1 }

  lemma BelowIsLess(mask: bv8)
    requires mask != 0
    ensures Less(mask - 1, mask)
  {
  }

  lemma {:induction false} RankLess(c: bv8, mask: bv8)
    requires Less(c, mask)
    ensures Rank(c) < Rank(mask)
    decreases mask
  {
    BelowOrEqual(c, mask);
    if c != mask - 1 {
      RankLess(c, mask - 1);
    }
  }

  lemma BelowOrEqual(c: bv8, mask: bv8)
    requires Less(c, mask)
    ensures mask != 0 && mask - 1 < mask && (c == mask - 1 || Less(c, mask - 1))
  {
  }

  lemma StepDown(cnt: bv8, mask: bv8)
    requires cnt != 0
    ensures Rank(cnt - 1) < Rank(cnt) && (Less(cnt, mask) ==> Less(cnt - 1, mask))
  {
  }

  lemma WantsOf(n: L10nFile)
    ensures Wants(n) == Expected(n.origin.dirs, n.origin.mask)
  {
  }

  lemma InDirsFrom(dirs: seq<string>, k: nat, c: bv8)
    requires k < |dirs|
    ensures InDirs(dirs[k..], c) == [Entry(dirs[k], c)] + InDirs(dirs[k + 1..], c)
  {
    assert dirs[k..][1..] == dirs[k + 1..];
  }

  lemma SubDirectory(dirs: seq<string>, k: nat, dirlist: string)
    requires Clean(dirs) && k < |dirs| && dirlist == Argz(dirs, '\0')
    ensures Offset(dirs, k) < |dirlist|
    ensures var d := dirlist[Offset(dirs, k)..];
      |CStr(d)| < |d| && d[..|CStr(d)| + 1] == Argz([dirs[k]], '\0')
    ensures Clean([dirs[k]])
  {
    hide Argz;
    ArgzFrom(dirs, k);
    ArgzEmpty(dirs[k..], '\0');
    ArgzFirst(dirs[k..], "");
    var d := dirlist[Offset(dirs, k)..];
    assert d + "" == d;
    ArgzOne(dirs[k], '\0');
    assert dirs[k] in dirs;
  }

  class L10nList {
    var nodes: seq<L10nFile>
    /** The nodes whose successors are being made. */
    ghost var building: set<L10nFile>

    ghost predicate Valid()
      reads this, set n | n in nodes :: n.successor
    {
      && Decreasing(nodes)
      && (forall n | n in building :: n in nodes)
      && (forall n | n in nodes :: WellMade(n))
      && (forall n | n in nodes && n !in building :: Complete(n, nodes))
      && (forall n, m | n in nodes && m in nodes && n != m :: n.successor != m.successor)
    }

    constructor ()
      ensures Valid() && nodes == [] && building == {}
    {
      nodes := [];
      building := {};
    }

    /** No two nodes have the same name. */
    lemma OneNode(n: L10nFile, m: L10nFile)
      requires Valid() && n in nodes && m in nodes
      ensures n == m <==> n.filename == m.filename
    {
      hide WellMade, Complete;
      StrCmpEqual(n.filename, m.filename);
    }

    /** The search for a name: it stops at the first name that is not greater. */
    method Search(name: string) returns (found: L10nFile?, place: nat)
      requires Valid()
      ensures Place(nodes, place, name)
      ensures found == null <==> name !in Names(nodes)
      ensures found != null ==> found in nodes && found.filename == name
    {
      hide Complete, WellMade;
      place := 0;
      found := null;
      while place < |nodes|
        invariant place <= |nodes|
        invariant forall j | 0 <= j < place :: StrCmp(nodes[j].filename, name) > 0
      {
        var compare := StrCmp(nodes[place].filename, name);
        if compare <= 0 {
          break;
        }
        place := place + 1;
      }
      PlaceDecides(nodes, place, name);
      if place < |nodes| {
        StrCmpEqual(nodes[place].filename, name);
        if StrCmp(nodes[place].filename, name) == 0 {
          found := nodes[place];
        }
      }
    }

    /** Puts a new node where its name belongs. */
    method Insert(n: L10nFile, place: nat)
      requires Valid() && WellMade(n) && Place(nodes, place, n.filename) && n.filename !in Names(nodes)
      requires forall m | m in nodes :: m.successor != n.successor
      modifies this
      ensures Valid() && building == old(building) + {n}
      ensures (set m | m in nodes) == (set m | m in old(nodes)) + {n}
      ensures Names(nodes) == Names(old(nodes)) + {n.filename}
    {
      hide WellMade, Place, Complete, Decreasing, Names;
      InsertDecreasing(nodes, place, n);
      ghost var before := nodes;
      InsertMembers(nodes, place, n);
      nodes := nodes[..place] + [n] + nodes[place..];
      building := building + {n};
      forall m | m in nodes ensures m == n || m in before {
        assert m in set m | m in nodes;
      }
      forall m | m in before && m !in building ensures Complete(m, nodes) {
        CompleteMore(m, before, nodes);
      }
    }

    /** `_nl_make_l10nflist`: finds the node for a file name, or makes it and all it can be replaced by. */
    method Make(dirlist: string, mask: bv8, parts: Parts, filename: string, allocate: bool, ghost r: Request)
      returns (retval: L10nFile?)
      requires Valid() && CleanRequest(r) && r == Request(r.dirs, mask, parts, filename)
        && dirlist == Argz(r.dirs, '\0')
      modifies this
      ensures Valid() && building == old(building)
      ensures forall n | n in old(nodes) :: n in nodes
      ensures forall n | n in nodes && n !in old(nodes) :: fresh(n) && fresh(n.successor) && Stems(n.origin, r)
      ensures retval != null ==> retval in nodes && retval.filename == FileName(r)
      ensures retval == null <==> FileName(r) !in Names(old(nodes)) && !allocate
      ensures FileName(r) in Names(old(nodes)) || !allocate ==> nodes == old(nodes)
      ensures FileName(r) !in Names(old(nodes)) && allocate ==>
                retval.origin == r && Names(nodes) == Names(old(nodes)) + {FileName(r)} + Titles(r)
      decreases |r.dirs| != 1, Rank(mask)
    {
      hide Stems, WellMade, Complete, Filled, StrCmp, Decreasing, FileName, Argz, Expected, Place;
      var abs_filename := BuildName(dirlist, mask, parts, filename, r);
      var name := CStr(abs_filename[..]);
      var last;
      retval, last := Search(name);
      if retval != null || !allocate {
        return;
      }
      var count := ArgzCount(dirlist, r.dirs);
      StemsOfSelf(r);
      retval := Create(name, mask, count, r);
      Insert(retval, last);
      Fill(retval, dirlist, mask, parts, filename, count, r);
    }

    static method Create(name: string, mask: bv8, count: nat, ghost r: Request) returns (n: L10nFile)
      requires r.dirs != [] && name == FileName(r) && mask == r.mask && count == |r.dirs|
      ensures fresh(n) && fresh(n.successor) && WellMade(n) && n.origin == r && n.filename == name
    {
      hide Stems, FileName, Pow2, Pop, Value, Wide;
      var decided := count != 1 || (Has(mask, XPG_CODESET) && Has(mask, XPG_NORM_CODESET));
      n := new L10nFile(name, decided, 1 + count * Pow2(Value(Pop(Wide(mask)))), r);
    }

    /** Makes the successors of a new node. */
    method Fill(node: L10nFile, dirlist: string, mask: bv8, parts: Parts, filename: string, count: nat,
                ghost r: Request)
      requires Valid() && CleanRequest(r) && r == Request(r.dirs, mask, parts, filename)
        && dirlist == Argz(r.dirs, '\0')
      requires count == |r.dirs| && node in nodes && node in building && node.origin == r
      modifies this, node.successor
      ensures Valid() && building == old(building) - {node}
      ensures forall n | n in old(nodes) :: n in nodes
      ensures forall n | n in nodes && n !in old(nodes) :: fresh(n) && fresh(n.successor) && Stems(n.origin, r)
      ensures Names(nodes) == Names(old(nodes)) + Titles(r)
      decreases |r.dirs| != 1, Rank(mask), 4
    {
      hide Stems, Complete, Filled, FileName, Argz, Titles, Submasks, Pairs, Names, Wants, WellMade, Less;
      WellMadeRoom(node);
      FilledNone(node, nodes);
      PairsCons(0, [], r.dirs);
      ExpectedStart(r.dirs, mask);
      WantsOf(node);
      var entries := 0;
      if count != 1 {
        entries := FillFrom(node, mask, dirlist, mask, parts, filename, r);
      } else if mask != 0 {
        BelowIsLess(mask);
        entries := FillFrom(node, mask - 1, dirlist, mask, parts, filename, r);
      }
      Finish(node, entries);
    }

    /** The loop over the masks from `start` down to 0. */
    method FillFrom(node: L10nFile, start: bv8, dirlist: string, mask: bv8, parts: Parts, filename: string,
                    ghost r: Request)
      returns (entries: nat)
      requires Valid() && CleanRequest(r) && r == Request(r.dirs, mask, parts, filename)
        && dirlist == Argz(r.dirs, '\0')
      requires node in nodes && node in building && node.origin == r
      requires Filled(node, 0, nodes) && Wants(node) == Pairs(Submasks(mask, start), r.dirs)
      requires |r.dirs| == 1 ==> Less(start, mask)
      modifies this, node.successor
      ensures Valid() && building == old(building)
      ensures forall n | n in old(nodes) :: n in nodes
      ensures forall n | n in nodes && n !in old(nodes) :: fresh(n) && fresh(n.successor) && Stems(n.origin, r)
      ensures Names(old(nodes)) <= Names(nodes) <= Names(old(nodes)) + Titles(r)
      ensures entries == |Wants(node)| && Filled(node, entries, nodes)
      decreases |r.dirs| != 1, Rank(mask), 3
    {
      hide Stems, Complete, Filled, FileName, Argz, Titles, Submasks, Pairs, Names, Wants, WellMade, Less, Rank;
      var cnt, more := start, true;
      entries := 0;
      PairsCons(0, [], r.dirs);
      assert Wants(node)[0..] == Wants(node);
      while more
        invariant Valid() && building == old(building)
        invariant node in nodes && forall n | n in old(nodes) :: n in nodes
        invariant forall n | n in nodes && n !in old(nodes) :: fresh(n) && fresh(n.successor) && Stems(n.origin, r)
        invariant Names(old(nodes)) <= Names(nodes) <= Names(old(nodes)) + Titles(r)
        invariant entries <= |Wants(node)| && Filled(node, entries, nodes)
        invariant Wants(node)[entries..] == Pairs(if more then Submasks(mask, cnt) else [], r.dirs)
        invariant |r.dirs| == 1 ==> Less(cnt, mask)
        decreases more, Rank(cnt)
      {
        entries := FillMask(node, entries, dirlist, mask, cnt, parts, filename, r);
        if cnt == 0 {
          more := false;
        } else {
          StepDown(cnt, mask);
          cnt := cnt - 1;
        }
      }
    }

    /** Ends the successors of a node. */
    method Finish(node: L10nFile, entries: nat)
      requires Valid() && node in nodes && node in building
      requires entries == |Wants(node)| && Filled(node, entries, nodes)
      modifies this`building, node.successor
      ensures Valid() && building == old(building) - {node}
      ensures Titles(node.origin) <= Names(nodes)
    {
      hide Stems, WellMade, Complete, Filled, StrCmp, Decreasing, FileName, Expected, Titles, Wants;
      WellMadeRoom(node);
      FilledTitles(node, nodes);
      SetSuccessor(node, entries, null, nodes);
      CompleteAt(node, entries, nodes);
      building := building - {node};
    }

    /** The turn of the outer loop for the mask `c`. */
    method FillMask(node: L10nFile, start: nat, dirlist: string, mask: bv8, c: bv8, parts: Parts, filename: string,
                    ghost r: Request)
      returns (entries: nat)
      requires Valid() && CleanRequest(r) && r == Request(r.dirs, mask, parts, filename)
        && dirlist == Argz(r.dirs, '\0')
      requires node in nodes && node in building && node.origin == r
      requires start <= |Wants(node)| && Filled(node, start, nodes)
        && Wants(node)[start..] == Pairs(Submasks(r.mask, c), r.dirs)
      requires |r.dirs| == 1 ==> Less(c, r.mask)
      modifies this, node.successor
      ensures Valid() && building == old(building)
      ensures forall n | n in old(nodes) :: n in nodes
      ensures forall n | n in nodes && n !in old(nodes) :: fresh(n) && fresh(n.successor) && Stems(n.origin, r)
      ensures Names(old(nodes)) <= Names(nodes) <= Names(old(nodes)) + Titles(r)
      ensures entries <= |Wants(node)| && Filled(node, entries, nodes)
        && Wants(node)[entries..] == Pairs(if c == 0 then [] else Submasks(r.mask, c - 1), r.dirs)
      decreases |r.dirs| != 1, Rank(r.mask), 2
    {
      hide Stems, Complete, Filled, FileName, Argz, Submask, Consistent, Titles, Submasks, Pairs, InDirs, Names, Wants,
           WellMade, Less;
      entries := start;
      PairsNext(r.mask, c, r.dirs);
      if Submask(c, mask) && Consistent(c) {
        entries := FillDirs(node, start, dirlist, c, parts, filename, r,
                            Pairs(if c == 0 then [] else Submasks(r.mask, c - 1), r.dirs));
      }
    }

    /** One successor: the node for the mask `c` in the directory at `dir`. */
    method FillOne(node: L10nFile, entries: nat, dirlist: string, dir: nat, ghost k: nat, c: bv8, parts: Parts,
                   filename: string, ghost r: Request)
      requires Valid() && CleanRequest(r) && r == Request(r.dirs, r.mask, parts, filename)
        && dirlist == Argz(r.dirs, '\0')
      requires node in nodes && node in building && node.origin == r
      requires k < |r.dirs| && dir == Offset(r.dirs, k)
      requires entries < |Wants(node)| && Filled(node, entries, nodes) && Wants(node)[entries] == Entry(r.dirs[k], c)
      requires |r.dirs| == 1 ==> Less(c, r.mask)
      modifies this, node.successor
      ensures Valid() && building == old(building)
      ensures forall n | n in old(nodes) :: n in nodes
      ensures forall n | n in nodes && n !in old(nodes) :: fresh(n) && fresh(n.successor) && Stems(n.origin, r)
      ensures Names(old(nodes)) <= Names(nodes) <= Names(old(nodes)) + Titles(r)
      ensures Filled(node, entries + 1, nodes)
      decreases |r.dirs| != 1, Rank(r.mask), 0
    {
      hide Stems, WellMade, Complete, Filled, StrCmp, Decreasing, FileName, Argz, Titles, Offset, Names, Wants, Less,
           Rank;
      ghost var e := Entry(r.dirs[k], c);
      SubDirectory(r.dirs, k, dirlist);
      WellMadeRoom(node);
      WantsOf(node);
      TitlesClosed(r, e);
      StemsThrough(r, e);
      if |r.dirs| == 1 {
        RankLess(c, r.mask);
      }
      var d := dirlist[dir..];
      ghost var before := nodes;
      var next := Make(d[..|CStr(d)| + 1], c, parts, filename, true, SubRequest(r, e));
      FilledMore(node, entries, before, nodes);
      SetSuccessor(node, entries, next, nodes);
      FilledNext(node, entries, nodes);
    }

    /** The inner loop: the node for the mask `c` in every directory. */
    method FillDirs(node: L10nFile, start: nat, dirlist: string, c: bv8, parts: Parts, filename: string,
                    ghost r: Request, ghost rest: seq<Entry>)
      returns (entries: nat)
      requires Valid() && CleanRequest(r) && r == Request(r.dirs, r.mask, parts, filename)
        && dirlist == Argz(r.dirs, '\0')
      requires node in nodes && node in building && node.origin == r
      requires start <= |Wants(node)| && Filled(node, start, nodes) && Wants(node)[start..] == InDirs(r.dirs, c) + rest
      requires |r.dirs| == 1 ==> Less(c, r.mask)
      modifies this, node.successor
      ensures Valid() && building == old(building)
      ensures forall n | n in old(nodes) :: n in nodes
      ensures forall n | n in nodes && n !in old(nodes) :: fresh(n) && fresh(n.successor) && Stems(n.origin, r)
      ensures Names(old(nodes)) <= Names(nodes) <= Names(old(nodes)) + Titles(r)
      ensures entries <= |Wants(node)| && Filled(node, entries, nodes) && Wants(node)[entries..] == rest
      decreases |r.dirs| != 1, Rank(r.mask), 1
    {
      hide Stems, WellMade, Complete, Filled, StrCmp, Decreasing, FileName, Argz, Titles, Offset, InDirs, Names, Wants,
           Less, Rank, Submask, Consistent;
      entries := start;
      ghost var k := 0;
      InDirsEnds(r.dirs, c);
      OffsetZero(r.dirs);
      var dir := ArgzNext(dirlist, None, r.dirs, 0);
      while dir.Some?
        invariant Valid() && building == old(building)
        invariant node in nodes && forall n | n in old(nodes) :: n in nodes
        invariant forall n | n in nodes && n !in old(nodes) :: fresh(n) && fresh(n.successor) && Stems(n.origin, r)
        invariant Names(old(nodes)) <= Names(nodes) <= Names(old(nodes)) + Titles(r)
        invariant k <= |r.dirs| && dir == if k < |r.dirs| then Some(Offset(r.dirs, k)) else None
        invariant entries <= |Wants(node)| && Filled(node, entries, nodes)
        invariant Wants(node)[entries..] == InDirs(r.dirs[k..], c) + rest
        decreases |r.dirs| - k
      {
        InDirsFrom(r.dirs, k, c);
        ghost var e := Entry(r.dirs[k], c);
        NextWanted(Wants(node), entries, e, InDirs(r.dirs[k + 1..], c), rest);
        FillOne(node, entries, dirlist, dir.value, k, c, parts, filename, r);
        entries := entries + 1;
        dir := ArgzNext(dirlist, dir, r.dirs, k);
        k := k + 1;
      }
    }
  }

  lemma NextWanted(want: seq<Entry>, entries: nat, e: Entry, tail: seq<Entry>, rest: seq<Entry>)
    requires entries <= |want| && want[entries..] == ([e] + tail) + rest
    ensures entries < |want| && want[entries] == e && e in want && want[entries + 1..] == tail + rest
  {
    assert want[entries] == want[entries..][0];
    assert want[entries + 1..] == want[entries..][1..];
  }

  lemma InDirsEnds(dirs: seq<string>, c: bv8)
    ensures InDirs(dirs[|dirs|..], c) == [] && dirs[0..] == dirs
    ensures forall rest: seq<Entry> :: [] + rest == rest
  {
  }

  lemma OffsetZero(dirs: seq<string>)
    ensures Offset(dirs, 0) == 0
  {
  }

  lemma CompleteAt(n: L10nFile, k: nat, nodes: seq<L10nFile>)
    requires k == |Wants(n)| && Filled(n, k, nodes) && n.successor[k] == null
    ensures Complete(n, nodes)
  {
  }
}
