/** `_getopt_internal` and `exchange`: the scanner that permutes the argument vector in place as
    successive calls report its options. */
module Getopt {
  import opened GetoptDecode
  import opened GetoptWalk
  import opened Wrappers

  /** What has been found, together with what a PERMUTE scan from here finds, is what a scan of the
      original vector finds. */
  ghost predicate Leads(o: Options, args: seq<string>, i: nat, s: string, events: seq<Event>, opts: seq<string>,
                        nons: seq<string>, missing: bool)
  {
    && 1 <= i <= |args| && Inside(args, i, s)
    && var rest := Walk(o, args, i, s);
       Walk(o, args, 1, "") == After(events, opts, nons, rest.(missing := missing || rest.missing))
  }

  lemma LeadsFromStart(o: Options, args: seq<string>)
    requires args != []
    ensures Leads(o, args, 1, "", [], [], [], false)
  {
    var w := Walk(o, args, 1, "");
    assert [] + w.events == w.events && [] + w.opts == w.opts && [] + w.nons == w.nons;
  }

  lemma LeadsFixedFromStart(o: Options, all: bool, args: seq<string>)
    requires args != []
    ensures LeadsFixed(o, all, args, 1, "", [])
  {
    var (events, _) := WalkFixed(o, all, args, 1, "");
    assert [] + events == events;
  }

  lemma LeadsSkip(o: Options, args: seq<string>, i: nat, events: seq<Event>, opts: seq<string>, nons: seq<string>,
                  missing: bool)
    requires Leads(o, args, i, "", events, opts, nons, missing) && i < |args| && NonOption(args[i])
    ensures Leads(o, args, i + 1, "", events, opts, nons + [args[i]], missing)
  {
    WalkSkips(o, args, i);
    var rest := Walk(o, args, i + 1, "");
    assert nons + ([args[i]] + rest.nons) == (nons + [args[i]]) + rest.nons;
  }

  lemma LeadsDecode(o: Options, args: seq<string>, i: nat, s: string, events: seq<Event>, opts: seq<string>,
                    nons: seq<string>, missing: bool)
    requires Leads(o, args, i, s, events, opts, nons, missing) && i < |args| && s != ""
    ensures var d := Decode(o, args[i], s, Next(args, i));
            && i + d.consumed <= |args| && Inside(args, i + d.consumed, d.nextchar)
            && Leads(o, args, i + d.consumed, d.nextchar, events + [d.event], opts + args[i..i + d.consumed], nons,
                     missing || d.missing)
  {
    hide Decode;
    WalkDecodes(o, args, i, s);
    var d := Decode(o, args[i], s, Next(args, i));
    var rest := Walk(o, args, i + d.consumed, d.nextchar);
    assert events + ([d.event] + rest.events) == (events + [d.event]) + rest.events;
    assert opts + (args[i..i + d.consumed] + rest.opts) == (opts + args[i..i + d.consumed]) + rest.opts;
  }

  lemma LeadsDashes(o: Options, args: seq<string>, i: nat, events: seq<Event>, opts: seq<string>, nons: seq<string>,
                    missing: bool)
    requires Leads(o, args, i, "", events, opts, nons, missing) && i < |args| && args[i] == "--"
    ensures var w := Walk(o, args, 1, "");
            events == w.events && opts + args[i..i + 1] == w.opts && nons + args[i + 1..] == w.nons
              && missing == w.missing
  {
  }

  /** The same for a scan that leaves the vector as it is. */
  ghost predicate LeadsFixed(o: Options, all: bool, args: seq<string>, i: nat, s: string, events: seq<Event>) {
    && 1 <= i <= |args| && Inside(args, i, s)
    && var (more, end) := WalkFixed(o, all, args, i, s);
       WalkFixed(o, all, args, 1, "") == (events + more, end)
  }

  lemma LeadsFixedDecode(o: Options, all: bool, args: seq<string>, i: nat, s: string, events: seq<Event>)
    requires LeadsFixed(o, all, args, i, s, events) && i < |args| && s != ""
    ensures var d := Decode(o, args[i], s, Next(args, i));
            && i + d.consumed <= |args| && Inside(args, i + d.consumed, d.nextchar)
            && LeadsFixed(o, all, args, i + d.consumed, d.nextchar, events + [d.event])
  {
    hide Decode;
    var d := Decode(o, args[i], s, Next(args, i));
    var (more, _) := WalkFixed(o, all, args, i + d.consumed, d.nextchar);
    assert events + ([d.event] + more) == (events + [d.event]) + more;
  }

  lemma LeadsFixedReport(o: Options, args: seq<string>, i: nat, events: seq<Event>)
    requires LeadsFixed(o, true, args, i, "", events) && i < |args| && NonOption(args[i])
    ensures LeadsFixed(o, true, args, i + 1, "", events + [Event(1, Some(args[i]), None, None, None)])
  {
    var e := Event(1, Some(args[i]), None, None, None);
    var (more, _) := WalkFixed(o, true, args, i + 1, "");
    assert events + ([e] + more) == (events + [e]) + more;
  }

  /** The vector while it is scanned: elements [1,f) are options, [f,l) the skipped non-options,
      [l,e) the options scanned after them, and from `e` on nothing has been touched. */
  ghost predicate Arranged(a: seq<string>, args: seq<string>, f: nat, l: nat, e: nat, opts: seq<string>,
                           nons: seq<string>)
  {
    && 1 <= f <= l <= e <= |a| == |args| && multiset(a) == multiset(args) && a[0] == args[0]
    && opts == a[1..f] + a[l..e] && nons == a[f..l] && a[e..] == args[e..]
  }

  lemma ArrangedBounds(a: seq<string>, args: seq<string>, f: nat, l: nat, e: nat, opts: seq<string>, nons: seq<string>)
    requires Arranged(a, args, f, l, e, opts, nons)
    ensures 1 <= f <= l <= e <= |a| == |args|
  {
  }

  /** `a` with the blocks [f,l) and [l,e) exchanged. */
  function Exchanged(a: seq<string>, f: nat, l: nat, e: nat): seq<string>
    requires f <= l <= e <= |a|
  {
    a[..f] + a[l..e] + a[f..l] + a[e..]
  }

  lemma ExchangeArranges(a: seq<string>, args: seq<string>, f: nat, l: nat, e: nat, opts: seq<string>,
                         nons: seq<string>)
    requires Arranged(a, args, f, l, e, opts, nons)
    ensures Arranged(Exchanged(a, f, l, e), args, f + e - l, e, e, opts, nons)
  {
    var p, x, y, q := a[..f], a[f..l], a[l..e], a[e..];
    assert a == p + x + y + q;
    assert multiset(p + y + x + q) == multiset(a);
    Blocks4(p, y, x, q);
    assert p[1..] == a[1..f];
    assert Exchanged(a, f, l, e)[e..e] == [];
  }

  lemma Blocks4(p: seq<string>, y: seq<string>, x: seq<string>, q: seq<string>)
    requires p != []
    ensures var b, m, e := p + y + x + q, |p| + |y|, |p| + |y| + |x|;
      b[0] == p[0] && b[1..m] == p[1..] + y && b[m..e] == x && b[e..] == q
  {
  }

  /** Skipping the non-option at `e`. */
  lemma SkipArranges(a: seq<string>, args: seq<string>, f: nat, e: nat, opts: seq<string>, nons: seq<string>)
    requires Arranged(a, args, f, e, e, opts, nons) && e < |a|
    ensures a[e] == args[e] && Arranged(a, args, f, e + 1, e + 1, opts, nons + [a[e]])
  {
    assert a[e] == a[e..][0] && a[e + 1..] == a[e..][1..] && args[e + 1..] == args[e..][1..];
    assert a[e..e] == [] && a[e + 1..e + 1] == [];
  }

  /** Moving over `n` elements as options. */
  lemma TakeArranges(a: seq<string>, args: seq<string>, f: nat, l: nat, e: nat, opts: seq<string>, nons: seq<string>,
                     n: nat)
    requires Arranged(a, args, f, l, e, opts, nons) && e + n <= |a|
    ensures a[e..] == args[e..] && a[e..e + n] == args[e..e + n]
    ensures Arranged(a, args, f, l, e + n, opts + args[e..e + n], nons)
  {
    assert a[e..e + n] == a[e..][..n] && args[e..e + n] == args[e..][..n];
    assert a[l..e + n] == a[l..e] + a[e..e + n];
    assert a[e + n..] == a[e..][n..] && args[e + n..] == args[e..][n..];
  }

  /** Moving `--` before the skipped non-options and taking the rest as non-options. */
  lemma DashesArrange(a: seq<string>, args: seq<string>, f: nat, e: nat, opts: seq<string>, nons: seq<string>)
    requires Arranged(a, args, f, e, e, opts, nons) && e < |a|
    ensures var b := if f == e then a else Exchanged(a, f, e, e + 1);
            Arranged(b, args, f + 1, |b|, |b|, opts + args[e..e + 1], nons + args[e + 1..])
  {
    hide Exchanged, Arranged;
    ArrangedBounds(a, args, f, e, e, opts, nons);
    TakeArranges(a, args, f, e, e, opts, nons, 1);
    if f < e {
      ExchangeArranges(a, args, f, e, e + 1, opts + args[e..e + 1], nons);
      RestArranges(Exchanged(a, f, e, e + 1), args, f + 1, e + 1, opts + args[e..e + 1], nons);
    } else {
      NoneSkippedArranges(a, args, f, e + 1, opts + args[e..e + 1], nons);
      RestArranges(a, args, f + 1, e + 1, opts + args[e..e + 1], nons);
    }
  }

  lemma NoneSkippedArranges(a: seq<string>, args: seq<string>, f: nat, e: nat, opts: seq<string>, nons: seq<string>)
    requires Arranged(a, args, f, f, e, opts, nons)
    ensures Arranged(a, args, e, e, e, opts, nons)
  {
    assert a[1..e] == a[1..f] + a[f..e];
  }

  lemma RestArranges(a: seq<string>, args: seq<string>, f: nat, e: nat, opts: seq<string>, nons: seq<string>)
    requires Arranged(a, args, f, e, e, opts, nons)
    ensures Arranged(a, args, f, |a|, |a|, opts, nons + args[e..])
  {
    assert a[f..] == a[f..e] + a[e..];
    assert a[|a|..|a|] == [] && a[e..e] == [] && a[|a|..] == args[|a|..];
  }

  lemma ArrangedAtEnd(a: seq<string>, args: seq<string>, f: nat, opts: seq<string>, nons: seq<string>)
    requires Arranged(a, args, f, |a|, |a|, opts, nons)
    ensures a == [args[0]] + opts + nons && f == 1 + |opts|
  {
    assert a == [a[0]] + a[1..f] + a[f..];
  }

  /** `to` with `n` elements from index `j` on replaced by those of `from` from index `i` on. */
  function Copied(from: seq<string>, i: nat, to: seq<string>, j: nat, n: nat): seq<string>
    requires i + n <= |from| && j + n <= |to|
  {
    to[..j] + from[i..i + n] + to[j + n..]
  }

  /** `my_bcopy`: copies `n` elements, first to last; a target inside the same array lies before the source. */
  method Copy(from: array<string>, i: nat, to: array<string>, j: nat, n: nat)
    requires i + n <= from.Length && j + n <= to.Length && (from != to || j <= i)
    modifies to
    ensures to[..] == Copied(old(from[..]), i, old(to[..]), j, n)
  {
    ghost var block, before, behind := from[i..i + n], to[..j], to[j + n..];
    for k := 0 to n
      invariant to[..j] == before && to[j + n..] == behind
      invariant to[j..j + k] == block[..k]
      invariant from[i + k..i + n] == block[k..]
    {
      assert from[i + k] == from[i + k..i + n][0] == block[k];
      assert from[i + k..i + n][1..] == from[i + k + 1..i + n];
      to[j + k] := from[i + k];
      assert to[j..j + k + 1] == to[j..j + k] + [block[k]];
    }
    assert to[..] == to[..j] + to[j..j + n] + to[j + n..];
    assert before == old(to[..])[..j] && behind == old(to[..])[j + n..] && block == old(from[..])[i..i + n];
  }

  /** The three copies of `exchange`. */
  method ExchangeBlocks(argv: array<string>, f: nat, l: nat, e: nat)
    requires f <= l <= e <= argv.Length
    modifies argv
    ensures argv[..] == Exchanged(old(argv[..]), f, l, e)
  {
    hide Copied, Exchanged;
    ghost var a := argv[..];
    var temp := new string[l - f];
    ghost var t := temp[..];
    ThreeCopies(a, f, l, e, t);
    Copy(argv, f, temp, 0, l - f);
    assert argv[..] == a;
    Copy(argv, l, argv, f, e - l);
    Copy(temp, 0, argv, f + e - l, l - f);
  }

  lemma ThreeCopies(a: seq<string>, f: nat, l: nat, e: nat, t: seq<string>)
    requires f <= l <= e <= |a| && |t| == l - f
    ensures |Copied(a, f, t, 0, l - f)| == l - f && |Copied(a, l, a, f, e - l)| == |a|
    ensures Copied(Copied(a, f, t, 0, l - f), 0, Copied(a, l, a, f, e - l), f + e - l, l - f) == Exchanged(a, f, l, e)
  {
    var t1 := Copied(a, f, t, 0, l - f);
    var a1 := Copied(a, l, a, f, e - l);
    assert t1 == a[f..l] && t1[0..0 + (l - f)] == t1;
    assert a1[..f + e - l] == a[..f] + a[l..e] && a1[e..] == a[e..];
  }

  /** The static variables of getopt over one scan of `argv` with unchanging arguments. */
  class Scanner {
    const argv: array<string>
    const o: Options
    const ordering: Ordering
    var optind: nat
    var nextchar: string
    var first_nonopt: nat
    var last_nonopt: nat

    ghost const args: seq<string>      // the vector as the caller passed it
    ghost var events: seq<Event>       // what the calls have reported so far
    ghost var opts: seq<string>        // the elements scanned as options or their arguments
    ghost var nons: seq<string>        // the elements skipped as non-options
    ghost var missing: bool            // whether an argument was missing

    /** The first call will find `optind` 0 and initialise the other variables. */
    constructor (argv: array<string>, o: Options, ordering: Ordering)
      requires argv.Length >= 1
      ensures this.argv == argv && this.o == o && this.ordering == ordering && args == argv[..]
      ensures Valid() && events == []
    {
      this.argv, this.o, this.ordering := argv, o, ordering;
      optind, nextchar, first_nonopt, last_nonopt := 0, "", 0, 0;
      args, events, opts, nons, missing := argv[..], [], [], [], false;
    }

    ghost predicate Blocks()
      reads this, argv
    {
      Arranged(argv[..], args, first_nonopt, last_nonopt, optind, opts, nons)
    }

    /** What has been found together with what scanning on from here will find is what a scan of
        the original vector finds. */
    ghost predicate OnTrack()
      reads this
    {
      && 1 <= optind <= |args| && Inside(args, optind, nextchar)
      && if ordering == PERMUTE then Leads(o, args, optind, nextchar, events, opts, nons, missing)
         else LeadsFixed(o, ordering == RETURN_IN_ORDER, args, optind, nextchar, events)
    }

    ghost predicate Valid()
      reads this, argv
    {
      && argv.Length == |args| >= 1
      && if optind == 0 then argv[..] == args && events == [] && nextchar == "" && opts == [] && nons == [] && !missing
         else
           && OnTrack()
           && if ordering == PERMUTE then Blocks() else argv[..] == args && first_nonopt == last_nonopt == 1
    }

    ghost function ElementsLeft(): int
      reads this
    {
      if optind == 0 then |args| else |args| - optind
    }

    /** Characters not yet scanned of the element the scan stands on. */
    ghost function CharactersLeft(): nat
      reads this
    {
      if nextchar != "" then |nextchar| else if 1 <= optind < |args| then |args[optind]| else 0
    }

    /** The scan has ended: PERMUTE has put the options first, stably, and `optind` is the index
        of the first element the caller should take as a non-option. */
    ghost predicate Finished()
      reads this, argv
    {
      && 1 <= |args|
      && match ordering
         case PERMUTE =>
           var w := Walk(o, args, 1, "");
           events == w.events && argv[..] == Permuted(o, args) && optind == 1 + |w.opts| && missing == w.missing
         case _ =>
           (events, optind) == WalkFixed(o, ordering == RETURN_IN_ORDER, args, 1, "") && argv[..] == args
    }

    /** `exchange`: swaps the skipped non-options with the options scanned after them. */
    method Exchange()
      requires first_nonopt <= last_nonopt <= optind <= argv.Length
      modifies this`first_nonopt, this`last_nonopt, argv
      ensures argv[..] == Exchanged(old(argv[..]), old(first_nonopt), old(last_nonopt), optind)
      ensures first_nonopt == old(first_nonopt) + (optind - old(last_nonopt)) && last_nonopt == optind
    {
      ExchangeBlocks(argv, first_nonopt, last_nonopt, optind);
      first_nonopt := first_nonopt + (optind - last_nonopt);
      last_nonopt := optind;
    }

    /** The beginning of a call in PERMUTE mode at an element boundary: the options scanned since
        the last skipped non-options are moved before them, and further non-options are skipped. */
    method SkipNonOptions()
      requires ordering == PERMUTE && nextchar == "" && optind > 0 && Valid()
      modifies this, argv
      ensures Valid() && nextchar == "" && last_nonopt == optind >= old(optind) && events == old(events)
      ensures optind < argv.Length ==> !NonOption(argv[optind])
    {
      hide Walk, WalkFixed, Leads, Arranged, Exchanged, Inside;
      ArrangedBounds(argv[..], args, first_nonopt, last_nonopt, optind, opts, nons);
      if first_nonopt != last_nonopt && last_nonopt != optind {
        ExchangeArranges(argv[..], args, first_nonopt, last_nonopt, optind, opts, nons);
        Exchange();
      } else if last_nonopt != optind {
        NoneSkippedArranges(argv[..], args, first_nonopt, optind, opts, nons);
        first_nonopt := optind;
      }
      SkipMore();
      last_nonopt := optind;
    }

    /** The loop over the non-options. */
    method SkipMore()
      requires ordering == PERMUTE && nextchar == "" && OnTrack() && argv.Length == |args|
      requires Arranged(argv[..], args, first_nonopt, optind, optind, opts, nons)
      modifies this`optind, this`nons
      ensures OnTrack() && optind >= old(optind) && Arranged(argv[..], args, first_nonopt, optind, optind, opts, nons)
      ensures optind < argv.Length ==> !NonOption(argv[optind])
    {
      hide Walk, WalkFixed, Leads, Arranged, Inside;
      while optind < argv.Length && NonOption(argv[optind])
        invariant old(optind) <= optind && OnTrack()
          && Arranged(argv[..], args, first_nonopt, optind, optind, opts, nons)
      {
        InsideAfter(args, optind);
        SkipArranges(argv[..], args, first_nonopt, optind, opts, nons);
        LeadsSkip(o, args, optind, events, opts, nons, missing);
        nons := nons + [args[optind]];
        optind := optind + 1;
      }
    }

    lemma InsideAfter(args: seq<string>, i: nat)
      requires i < |args|
      ensures Inside(args, i + 1, "")
    {
    }

    /** The elements from `optind` on have not been moved. */
    lemma HereUntouched()
      requires Valid() && 1 <= optind < argv.Length
      ensures argv[optind] == args[optind] && (optind + 1 < argv.Length ==> argv[optind + 1] == args[optind + 1])
      ensures ordering == PERMUTE ==> 1 <= first_nonopt <= last_nonopt <= optind
    {
      if ordering == PERMUTE {
        assert argv[..][optind..] == args[optind..];
        assert argv[optind] == argv[..][optind..][0];
        assert optind + 1 < argv.Length ==> argv[optind + 1] == argv[..][optind..][1];
      }
    }

    /** Entering an option element. */
    lemma Enters(s: string)
      requires OnTrack() && optind < |args| && nextchar == "" && args[optind] != "--" && !NonOption(args[optind])
      requires s == Start(o, args[optind])
      ensures s != "" && Inside(args, optind, s)
      ensures if ordering == PERMUTE then Leads(o, args, optind, s, events, opts, nons, missing)
              else LeadsFixed(o, ordering == RETURN_IN_ORDER, args, optind, s, events)
    {
      WalkEnters(o, args, optind);
    }

    /** The scan has met `--` or the end of the vector: everything before the non-options is scanned. */
    ghost predicate AtEnd()
      reads this, argv
    {
      && first_nonopt <= last_nonopt == optind == argv.Length == |args| && |args| >= 1
      && match ordering
         case PERMUTE =>
           var w := Walk(o, args, 1, "");
           Blocks() && events == w.events && opts == w.opts && nons == w.nons && missing == w.missing
         case _ =>
           && argv[..] == args
           && (events, if first_nonopt != last_nonopt then first_nonopt else optind) ==
              WalkFixed(o, ordering == RETURN_IN_ORDER, args, 1, "")
    }

    lemma DashesStop()
      requires Valid() && ordering != PERMUTE && 1 <= optind < argv.Length && nextchar == "" && argv[optind] == "--"
      ensures (events, optind + 1) == WalkFixed(o, ordering == RETURN_IN_ORDER, args, 1, "")
    {
      assert events + [] == events;
    }

    /** Skips `--` like an option and everything after it like non-options. */
    method EndOfOptions()
      requires Valid() && 1 <= optind < argv.Length && nextchar == "" && argv[optind] == "--"
      requires ordering == PERMUTE ==> last_nonopt == optind
      modifies this, argv
      ensures AtEnd() && events == old(events)
    {
      hide Walk, WalkFixed, Leads, LeadsFixed, Arranged;
      HereUntouched();
      ghost var a, f, e := argv[..], first_nonopt, optind;
      if ordering == PERMUTE {
        DashesArrange(a, args, f, e, opts, nons);
        LeadsDashes(o, args, e, events, opts, nons, missing);
        opts, nons := opts + args[e..e + 1], nons + args[e + 1..];
      } else {
        DashesStop();
      }
      optind := optind + 1;
      if first_nonopt != last_nonopt && last_nonopt != optind {
        Exchange();
      } else if first_nonopt == last_nonopt {
        first_nonopt := optind;
      }
      ghost var b := argv[..];
      last_nonopt := argv.Length;
      optind := argv.Length;
      assert argv[..] == b && b == if ordering != PERMUTE || f == e then a else Exchanged(a, f, e, e + 1);
      assert first_nonopt == if ordering == PERMUTE then f + 1 else e + 1;
      if ordering == PERMUTE {
        assert |b| == argv.Length;
        assert Arranged(b, args, f + 1, |b|, |b|, opts, nons);
        assert Blocks();
        assert events == Walk(o, args, 1, "").events;
        assert missing == Walk(o, args, 1, "").missing;
        assert opts == Walk(o, args, 1, "").opts;
        assert nons == Walk(o, args, 1, "").nons;
      } else {
        assert argv[..] == args;
        assert (events, e + 1) == WalkFixed(o, ordering == RETURN_IN_ORDER, args, 1, "");
      }
    }

    /** The first call of a scan. */
    method Initialise()
      requires Valid() && optind == 0
      modifies this
      ensures Valid() && optind == 1 && nextchar == "" && events == old(events)
    {
      first_nonopt, last_nonopt, optind := 1, 1, 1;
      nextchar := "";
      LeadsFromStart(o, args);
      LeadsFixedFromStart(o, ordering == RETURN_IN_ORDER, args);
      assert argv[1..1] == [];
    }

    /** The scan has met the end of the vector. */
    lemma EndMet()
      requires Valid() && optind == argv.Length && nextchar == ""
      requires ordering == PERMUTE ==> last_nonopt == optind
      ensures ordering == PERMUTE ==> AtEnd()
      ensures ordering != PERMUTE ==>
        argv[..] == args && (events, optind) == WalkFixed(o, ordering == RETURN_IN_ORDER, args, 1, "")
    {
      assert events + [] == events && opts + [] == opts && nons + [] == nons;
    }

    /** A scan in REQUIRE_ORDER mode stops at the first non-option. */
    lemma NonOptionStops()
      requires Valid() && ordering == REQUIRE_ORDER && 1 <= optind < argv.Length && nextchar == ""
        && NonOption(argv[optind])
      requires argv[optind] != "--"
      ensures Finished()
    {
      assert events + [] == events;
    }

    /** Backs over the non-options that were skipped and permuted. */
    method Finish()
      requires AtEnd() || (ordering != PERMUTE && Valid() && optind == argv.Length && nextchar == "")
      modifies this`optind
      ensures Finished()
    {
      if !AtEnd() {
        EndMet();
      }
      if ordering == PERMUTE {
        ArrangedAtEnd(argv[..], args, first_nonopt, opts, nons);
      }
      if first_nonopt != last_nonopt {
        optind := first_nonopt;
      }
    }

    /** What the scan has found when the next option is decoded as `d`. */
    lemma Decodes(d: Decoded)
      requires Valid() && optind > 0 && nextchar != ""
      requires optind < |args| && d == Decode(o, args[optind], nextchar, Next(args, optind))
      ensures 1 <= optind + d.consumed <= |args| && Inside(args, optind + d.consumed, d.nextchar)
      ensures ordering == PERMUTE ==>
        && Leads(o, args, optind + d.consumed, d.nextchar, events + [d.event], opts + args[optind..optind + d.consumed],
                 nons, missing || d.missing)
        && Arranged(argv[..], args, first_nonopt, last_nonopt, optind + d.consumed,
                    opts + args[optind..optind + d.consumed], nons)
      ensures ordering != PERMUTE ==>
        LeadsFixed(o, ordering == RETURN_IN_ORDER, args, optind + d.consumed, d.nextchar, events + [d.event])
    {
      hide Walk, WalkFixed, Decode, Leads, LeadsFixed, Arranged;
      if ordering == PERMUTE {
        LeadsDecode(o, args, optind, nextchar, events, opts, nons, missing);
        TakeArranges(argv[..], args, first_nonopt, last_nonopt, optind, opts, nons, d.consumed);
      } else {
        LeadsFixedDecode(o, ordering == RETURN_IN_ORDER, args, optind, nextchar, events);
      }
    }

    /** Decodes the next option character or long option of the element entered. */
    method TakeOption() returns (r: Option<Event>)
      requires Valid() && optind > 0 && nextchar != ""
      modifies this
      ensures Valid() && r.Some? && events == old(events) + [r.value]
      ensures optind >= old(optind) && (optind == old(optind) ==> 0 < |nextchar| < old(|nextchar|))
    {
      hide Walk, WalkFixed, Decode, Leads, LeadsFixed, Arranged, Inside;
      StandsInside();
      HereUntouched();
      var d := DecodeCall(o, argv[optind], nextchar, if optind + 1 < argv.Length then Some(argv[optind + 1]) else None);
      Decodes(d);
      if ordering == PERMUTE {
        opts := opts + args[optind..optind + d.consumed];
        missing := missing || d.missing;
      }
      events := events + [d.event];
      nextchar := d.nextchar;
      optind := optind + d.consumed;
      r := Some(d.event);
    }

    lemma StandsInside()
      requires Valid() && optind > 0 && nextchar != ""
      ensures optind < argv.Length && !NonOption(args[optind]) && optind < |args|
    {
    }

    /** `_getopt_internal`: reports the next option, or nothing (EOF) when the options are used up. */
    method Call() returns (r: Option<Event>)
      requires Valid()
      modifies this, argv
      ensures r.Some? ==> Valid() && optind > 0 && events == old(events) + [r.value]
      ensures r.Some? ==>
                ElementsLeft() < old(ElementsLeft()) ||
                (ElementsLeft() == old(ElementsLeft()) && CharactersLeft() < old(CharactersLeft()))
      ensures r.None? ==> Finished() && events == old(events)
    {
      hide Walk, WalkFixed, Decode, Leads, LeadsFixed, Arranged;
      if optind == 0 {
        Initialise();
      }
      if nextchar == "" {
        if ordering == PERMUTE {
          SkipNonOptions();
        }
        if optind != argv.Length && argv[optind] == "--" {
          EndOfOptions();
          Finish();
          return None;
        }
        if optind == argv.Length {
          if ordering == PERMUTE {
            EndMet();
          }
          Finish();
          return None;
        }
        if NonOption(argv[optind]) {
          if ordering == REQUIRE_ORDER {
            NonOptionStops();
            return None;
          }
          r := Some(Event(1, Some(argv[optind]), None, None, None));
          LeadsFixedReport(o, args, optind, events);
          events := events + [r.value];
          optind := optind + 1;
          return;
        }
        HereUntouched();
        Enters(Start(o, argv[optind]));
        nextchar := Start(o, argv[optind]);
      }
      r := TakeOption();
    }

    /** A caller's loop: calls getopt until it reports EOF. */
    method Drain()
      requires Valid()
      modifies this, argv
      ensures Finished()
    {
      var r := Call();
      while r.Some?
        invariant r.Some? ==> Valid()
        invariant r.None? ==> Finished()
        decreases r.Some?, ElementsLeft(), CharactersLeft()
      {
        r := Call();
      }
    }
  }

  /** Scanning a vector in PERMUTE mode and the permuted vector again in REQUIRE_ORDER mode: the
      second scan reports the same and stops at the same index iff no argument was missing at the
      end of the options while non-options had been skipped. */
  method ScanTwice(argv: array<string>, o: Options) returns (first: Scanner, second: Scanner)
    requires argv.Length >= 1
    modifies argv
    ensures first.events == Walk(o, old(argv[..]), 1, "").events && argv[..] == Permuted(o, old(argv[..]))
    ensures var w := Walk(o, old(argv[..]), 1, "");
            (second.events == first.events && second.optind == first.optind) <==> (!w.missing || w.nons == [])
  {
    ghost var a := argv[..];
    first := new Scanner(argv, o, PERMUTE);
    first.Drain();
    second := new Scanner(argv, o, REQUIRE_ORDER);
    second.Drain();
    PermuteRefinesOrder(o, a);
  }
}
