/** What the options written on a command line are reported as. */
module GetoptMeaning {
  import opened GetoptDecode
  import opened GetoptWalk
  import opened Wrappers

  // ----- long options

  lemma {:induction false} NameEnds(n: string, tail: string)
    requires '=' !in n && (tail == "" || tail[0] == '=')
    ensures NameLength(n + tail) == |n|
    decreases |n|
  {
    if n == "" {
      assert n + tail == tail;
    } else {
      assert n[0] in n && (n + tail)[1..] == n[1..] + tail;
      NameEnds(n[1..], tail);
    }
  }

  /** Option `k` is the first of that name, or the only one whose name begins so. */
  ghost predicate Means(opts: seq<LongOption>, n: string, k: nat) {
    k < |opts| &&
    (|| (opts[k].name == n && forall j | 0 <= j < k :: opts[j].name != n)
     || (n <= opts[k].name && forall j | 0 <= j < |opts| && j != k :: !(n <= opts[j].name)))
  }

  lemma MeansMatches(opts: seq<LongOption>, n: string, k: nat)
    requires Means(opts, n, k)
    ensures Matched(opts, n, |opts|) == Exact(k) || Matched(opts, n, |opts|) == Abbrev(k)
  {
    hide Matched;
    MatchedMeaning(opts, n, |opts|);
    assert Abbreviates(opts, n, k);
  }

  /** No name is `n`, and none is the only one that begins so. */
  ghost predicate MeansNone(opts: seq<LongOption>, n: string) {
    && (forall j | 0 <= j < |opts| :: opts[j].name != n)
    && forall j | 0 <= j < |opts| && n <= opts[j].name :: exists k | 0 <= k < |opts| :: k != j && n <= opts[k].name
  }

  lemma NothingMatches(opts: seq<LongOption>, n: string)
    requires MeansNone(opts, n)
    ensures Matched(opts, n, |opts|) == NoMatch || Matched(opts, n, |opts|) == Ambiguous
    ensures (forall j | 0 <= j < |opts| :: !(n <= opts[j].name)) ==> Matched(opts, n, |opts|) == NoMatch
  {
    hide Matched, Abbreviates;
    MatchedMeaning(opts, n, |opts|);
    AbbreviatesIs(opts, n);
  }

  lemma AbbreviatesIs(opts: seq<LongOption>, n: string)
    ensures forall j | 0 <= j < |opts| :: Abbreviates(opts, n, j) <==> n <= opts[j].name
  {
  }

  /** Where an element is read as a long option: after two dashes, or after one if long options may have one only. */
  lemma LongEnters(o: Options, args: seq<string>, i: nat, dashes: string, s: string)
    requires o.longopts.Some? && i < |args| && args[i] == dashes + s && s != ""
    requires dashes == "--" || (o.long_only && dashes == "-" && s[0] != '-')
    ensures !NonOption(args[i]) && Walk(o, args, i, "") == Walk(o, args, i, s)
    ensures args[i][1] == '-' || o.long_only
  {
    assert args[i][|dashes|..] == s;
  }

  lemma LongDecodes(o: Options, elem: string, s: string, next: Option<string>, n: string, tail: string, k: nat)
    requires o.longopts.Some? && !NonOption(elem) && (elem[1] == '-' || o.long_only)
    requires n != "" && '=' !in n && (tail == "" || tail[0] == '=') && s == n + tail
    requires k < |o.longopts.value| && Means(o.longopts.value, n, k)
    ensures Decode(o, elem, s, next) == DecodeLong(o, k, s, next)
    ensures NameLength(s) == |n| && s[|n|..] == tail
  {
    hide Matched, DecodeLong, DecodeShort, Means;
    NameEnds(n, tail);
    assert s[..|n|] == n && s[|n|..] == tail;
    MeansMatches(o.longopts.value, n, k);
  }

  /** A long option, written in full or shortened so that no other begins so, is reported with its index and its value,
      and with the argument written behind an equals sign or, if one is required, as the next element. */
  lemma LongOptionMeaning(o: Options, args: seq<string>, i: nat, opts: seq<LongOption>, k: nat, dashes: string,
                          n: string)
    requires o.longopts == Some(opts) && i < |args| && n != "" && '=' !in n
    requires dashes == "--" || (o.long_only && dashes == "-" && n[0] != '-')
    requires k < |opts|
    requires || (opts[k].name == n && forall j | 0 <= j < k :: opts[j].name != n)
             || (n <= opts[k].name && forall j | 0 <= j < |opts| && j != k :: !(n <= opts[j].name))
    ensures
      var p := opts[k];
      var ret, stored := if p.flag then 0 else p.val, if p.flag then Some(p.val) else None;
      var w := Walk(o, args, i, "");
      && (args[i] == dashes + n && p.has_arg != 1 ==>
            var rest := Walk(o, args, i + 1, "");
            w == Found([Event(ret, None, Some(k), stored, None)] + rest.events, [args[i]] + rest.opts, rest.nons,
                       rest.dashed, rest.missing))
      && (forall v | args[i] == dashes + n + "=" + v && p.has_arg != 0 ::
            var rest := Walk(o, args, i + 1, "");
            w == Found([Event(ret, Some(v), Some(k), stored, None)] + rest.events, [args[i]] + rest.opts, rest.nons,
                       rest.dashed, rest.missing))
      && (args[i] == dashes + n && p.has_arg == 1 && i + 1 < |args| ==>
            var rest := Walk(o, args, i + 2, "");
            w == Found([Event(ret, Some(args[i + 1]), Some(k), stored, None)] + rest.events,
                       [args[i], args[i + 1]] + rest.opts, rest.nons, rest.dashed, rest.missing))
  {
    hide Walk, Decode, NonOption, Means, NameLength;
    var next := Next(args, i);
    assert Means(opts, n, k) by {
      MeansIs(opts, n, k);
    }
    if args[i] == dashes + n {
      LongEnters(o, args, i, dashes, n);
      assert n + "" == n;
      LongDecodes(o, args[i], n, next, n, "", k);
      LongReports(o, args, i, n, k);
    }
    forall v | args[i] == dashes + n + "=" + v && opts[k].has_arg != 0
      ensures
        var rest := Walk(o, args, i + 1, "");
        Walk(o, args, i, "") ==
          Found([Event(if opts[k].flag then 0 else opts[k].val, Some(v), Some(k),
                       if opts[k].flag then Some(opts[k].val) else None, None)] + rest.events,
                [args[i]] + rest.opts, rest.nons, rest.dashed, rest.missing)
    {
      var s := n + ("=" + v);
      assert args[i] == dashes + s && s[0] == n[0];
      LongEnters(o, args, i, dashes, s);
      LongDecodes(o, args[i], s, next, n, "=" + v, k);
      assert s[|n| + 1..] == v;
      LongReports(o, args, i, s, k);
    }
  }

  lemma MeansIs(opts: seq<LongOption>, n: string, k: nat)
    requires k < |opts|
    requires || (opts[k].name == n && forall j | 0 <= j < k :: opts[j].name != n)
             || (n <= opts[k].name && forall j | 0 <= j < |opts| && j != k :: !(n <= opts[j].name))
    ensures Means(opts, n, k)
  {
  }

  /** What a walk makes of the long option it stands on. */
  lemma LongReports(o: Options, args: seq<string>, i: nat, s: string, k: nat)
    requires o.longopts.Some? && k < |o.longopts.value| && i < |args| && s != "" && !NonOption(args[i])
    requires Decode(o, args[i], s, Next(args, i)) == DecodeLong(o, k, s, Next(args, i))
    ensures
      var p, l := o.longopts.value[k], NameLength(s);
      var ret, stored := if p.flag then 0 else p.val, if p.flag then Some(p.val) else None;
      && (l == |s| && p.has_arg != 1 ==>
            var rest := Walk(o, args, i + 1, "");
            Walk(o, args, i, s) ==
              Found([Event(ret, None, Some(k), stored, None)] + rest.events, [args[i]] + rest.opts, rest.nons,
                    rest.dashed,
                    rest.missing))
      && (l < |s| && p.has_arg != 0 ==>
            var rest := Walk(o, args, i + 1, "");
            Walk(o, args, i, s) ==
              Found([Event(ret, Some(s[l + 1..]), Some(k), stored, None)] + rest.events, [args[i]] + rest.opts,
                    rest.nons,
                    rest.dashed, rest.missing))
      && (l == |s| && p.has_arg == 1 && i + 1 < |args| ==>
            var rest := Walk(o, args, i + 2, "");
            Walk(o, args, i, s) ==
              Found([Event(ret, Some(args[i + 1]), Some(k), stored, None)] + rest.events,
                    [args[i], args[i + 1]] + rest.opts, rest.nons, rest.dashed, rest.missing))
  {
    hide Walk, Decode, NonOption, NameLength;
    assert Inside(args, i, s);
    WalkDecodes(o, args, i, s);
    OneOrTwo(args, i);
  }

  lemma OneOrTwo(args: seq<string>, i: nat)
    requires i < |args|
    ensures args[i..i + 1] == [args[i]] && (i + 1 < |args| ==> args[i..i + 2] == [args[i], args[i + 1]])
    ensures args[i..i] == []
  {
  }

  lemma UnknownDecodes(o: Options, elem: string, s: string, next: Option<string>, opts: seq<LongOption>, n: string,
                       tail: string)
    requires !NonOption(elem) && elem[1] == '-' && o.longopts == Some(opts)
    requires n != "" && '=' !in n && (tail == "" || tail[0] == '=') && s == n + tail && MeansNone(opts, n)
    ensures Decode(o, elem, s, next) == Decoded(Plain('?' as int), "", 1, false)
  {
    hide Matched, DecodeShort, DecodeLong, MeansNone, NameLength;
    NameEnds(n, tail);
    assert s[..|n|] == n;
    NothingMatches(opts, n);
  }

  lemma NobodyMeant(opts: seq<LongOption>, n: string)
    requires forall j | 0 <= j < |opts| :: opts[j].name != n
    requires forall j | 0 <= j < |opts| && n <= opts[j].name :: exists k | 0 <= k < |opts| ::
      k != j && n <= opts[k].name
    ensures MeansNone(opts, n)
  {
  }

  /** What is no long option, and what begins several but is none in full, is reported with a question mark. */
  lemma UnknownLongOption(o: Options, args: seq<string>, i: nat, opts: seq<LongOption>, n: string, tail: string)
    requires o.longopts == Some(opts) && i < |args| && n != "" && '=' !in n && args[i] == "--" + n + tail
    requires tail == "" || tail[0] == '='
    requires forall j | 0 <= j < |opts| :: opts[j].name != n
    requires forall j | 0 <= j < |opts| && n <= opts[j].name :: exists k | 0 <= k < |opts| ::
      k != j && n <= opts[k].name
    ensures
      var rest := Walk(o, args, i + 1, "");
      Walk(o, args, i, "") ==
        Found([Event('?' as int, None, None, None, None)] + rest.events, [args[i]] + rest.opts, rest.nons, rest.dashed,
              rest.missing)
  {
    hide Walk, NonOption, Decode, MeansNone;
    OneOrTwo(args, i);
    NobodyMeant(opts, n);
    var s := n + tail;
    assert args[i] == "--" + s;
    LongEnters(o, args, i, "--", s);
    DashDash(args[i], s);
    UnknownDecodes(o, args[i], s, Next(args, i), opts, n, tail);
    WalkDecodes(o, args, i, s);
  }

  /** So is one that has an argument it does not take. */
  lemma UnwantedArgument(o: Options, args: seq<string>, i: nat, opts: seq<LongOption>, k: nat, n: string, v: string)
    requires o.longopts == Some(opts) && i < |args| && n != "" && '=' !in n && args[i] == "--" + n + "=" + v
    requires k < |opts| && opts[k].name == n && (forall j | 0 <= j < k :: opts[j].name != n) && opts[k].has_arg == 0
    ensures
      var rest := Walk(o, args, i + 1, "");
      Walk(o, args, i, "") ==
        Found([Event('?' as int, None, None, None, None)] + rest.events, [args[i]] + rest.opts, rest.nons, rest.dashed,
              rest.missing)
  {
    hide Walk, Decode, NonOption, NameLength, Means;
    OneOrTwo(args, i);
    MeansIs(opts, n, k);
    var s := n + ("=" + v);
    assert args[i] == "--" + s;
    LongEnters(o, args, i, "--", s);
    LongDecodes(o, args[i], s, Next(args, i), n, "=" + v, k);
    WalkDecodes(o, args, i, s);
  }

  /** One that lacks the argument it requires is reported with a question mark, or with a colon if the option string
      begins with one. */
  lemma MissingLongArgument(o: Options, args: seq<string>, i: nat, opts: seq<LongOption>, k: nat, n: string)
    requires o.longopts == Some(opts) && n != "" && '=' !in n && i + 1 == |args| && args[i] == "--" + n
    requires k < |opts| && opts[k].name == n && (forall j | 0 <= j < k :: opts[j].name != n) && opts[k].has_arg == 1
    ensures
      var ret := if o.optstring != "" && o.optstring[0] == ':' then ':' as int else '?' as int;
      Walk(o, args, i, "") == Found([Event(ret, None, None, None, None)], [args[i]], [], false, true)
  {
    hide Walk, Decode, NonOption, NameLength, Means;
    OneOrTwo(args, i);
    MeansIs(opts, n, k);
    LongEnters(o, args, i, "--", n);
    assert n + "" == n;
    LongDecodes(o, args[i], n, Next(args, i), n, "", k);
    WalkDecodes(o, args, i, n);
    WalkStops(o, args, i + 1);
  }

  lemma DashDash(elem: string, n: string)
    requires elem == "--" + n && n != ""
    ensures !NonOption(elem) && elem[1] == '-'
  {
  }

  // ----- short options

  /** Where `c` comes first in the option string. */
  lemma {:induction false} IndexIs(pre: string, c: char, post: string)
    requires c !in pre
    ensures Index(pre + [c] + post, c) == Some(|pre|)
    ensures (pre + [c] + post)[|pre| + 1..] == post
    decreases |pre|
  {
    if pre != "" {
      assert pre[0] in pre && (pre + [c] + post)[1..] == pre[1..] + [c] + post;
      IndexIs(pre[1..], c, post);
    }
  }

  /** The element is read as short options from `c` on: it is no long option, and none that has one dash only begins
      so. */
  ghost predicate ReadShort(o: Options, elem: string, c: char) {
    && |elem| >= 2 && elem[0] == '-'
    && (o.longopts.Some? ==>
          && elem[1] != '-'
          && (o.long_only ==>
              c != '=' && c in o.optstring && forall p | p in o.longopts.value :: p.name == "" || p.name[0] != c))
  }

  lemma ShortDecodes(o: Options, elem: string, s: string, next: Option<string>)
    requires s != "" && ReadShort(o, elem, s[0])
    ensures !NonOption(elem) && Decode(o, elem, s, next) == DecodeShort(o, s, next)
  {
    hide DecodeShort, DecodeLong, Matched;
    if o.longopts.Some? && o.long_only {
      var opts, n := o.longopts.value, s[..NameLength(s)];
      assert n[0] == s[0];
      forall j | 0 <= j < |opts| ensures !(n <= opts[j].name) {
        assert opts[j] in opts;
      }
      assert forall j | 0 <= j < |opts| :: opts[j].name != n;
      NothingMatches(opts, n);
    }
  }

  /** An element of short options is read from behind its dash. */
  lemma ShortEnters(o: Options, args: seq<string>, i: nat)
    requires i < |args| && |args[i]| >= 2 && args[i][0] == '-' && args[i] != "--"
      && (o.longopts.Some? ==> args[i][1] != '-')
    ensures Walk(o, args, i, "") == Walk(o, args, i, args[i][1..])
  {
  }

  /** What a short option is reported as. `s` is what is left of the element, from the option on: the whole of it behind
      the dash, or less. An option that takes no argument leaves the rest of the element to the next one; one that does
      takes the rest, or, if that is empty and the argument is required, the next element. */
  lemma ShortOptionMeaning(o: Options, args: seq<string>, i: nat, c: char, rest: string, pre: string, post: string)
    requires i < |args| && |args[i]| >= 2 && args[i][0] == '-'
    requires o.longopts.Some? ==>
      && args[i][1] != '-'
      && (o.long_only ==> c != '=' && forall p | p in o.longopts.value :: p.name == "" || p.name[0] != c)
    requires o.optstring == pre + [c] + post && c !in pre && c != ':'
    ensures
      var w := Walk(o, args, i, [c] + rest);
      var next := Walk(o, args, i + 1, "");
      && (post == "" || post[0] != ':' ==>
            && (rest == "" ==>
                  w == Found([Event(c as int, None, None, None, None)] + next.events, [args[i]] + next.opts, next.nons,
                             next.dashed, next.missing))
            && (rest != "" ==>
                  var more := Walk(o, args, i, rest);
                  w == Found([Event(c as int, None, None, None, None)] + more.events, more.opts, more.nons, more.dashed,
                             more.missing)))
      && (post != "" && post[0] == ':' && rest != "" ==>
            w == Found([Event(c as int, Some(rest), None, None, None)] + next.events, [args[i]] + next.opts, next.nons,
                       next.dashed, next.missing))
      && (|post| >= 2 && post[0] == post[1] == ':' && rest == "" ==>
            w == Found([Event(c as int, None, None, None, None)] + next.events, [args[i]] + next.opts, next.nons,
                       next.dashed, next.missing))
      && (post != "" && post[0] == ':' && (|post| == 1 || post[1] != ':') && rest == "" ==>
            if i + 1 < |args| then
              var after := Walk(o, args, i + 2, "");
              w == Found([Event(c as int, Some(args[i + 1]), None, None, None)] + after.events,
                         [args[i], args[i + 1]] + after.opts, after.nons, after.dashed, after.missing)
            else
              var ret := if o.optstring[0] == ':' then ':' as int else '?' as int;
              w == Found([Event(ret, None, None, None, Some(c))], [args[i]], [], false, true))
  {
    hide Walk, Decode, NonOption, Index;
    var s := [c] + rest;
    IndexIs(pre, c, post);
    assert s[1..] == rest && o.optstring[|pre|] == c;
    ShortDecodes(o, args[i], s, Next(args, i));
    WalkDecodes(o, args, i, s);
    OneOrTwo(args, i);
    if i + 1 == |args| {
      WalkStops(o, args, i + 1);
    }
    if rest != "" {
      var more := Walk(o, args, i, rest);
      assert [] + more.opts == more.opts;
    }
  }

  /** A character that the option string does not have, and a colon, is reported with a question mark and stored in
      `optopt`; the rest of the element goes on. */
  lemma UnknownShortOption(o: Options, args: seq<string>, i: nat, c: char, rest: string)
    requires i < |args| && |args[i]| >= 2 && args[i][0] == '-'
      && (o.longopts.Some? ==> args[i][1] != '-' && !o.long_only)
    requires c !in o.optstring || c == ':'
    ensures
      var w := Walk(o, args, i, [c] + rest);
      && (rest == "" ==>
            var next := Walk(o, args, i + 1, "");
            w == Found([Event('?' as int, None, None, None, Some(c))] + next.events, [args[i]] + next.opts, next.nons,
                       next.dashed, next.missing))
      && (rest != "" ==>
            var more := Walk(o, args, i, rest);
            w == Found([Event('?' as int, None, None, None, Some(c))] + more.events, more.opts, more.nons, more.dashed,
                       more.missing))
  {
    hide Walk, Decode, NonOption, Index;
    var s := [c] + rest;
    assert s[1..] == rest;
    ShortDecodes(o, args[i], s, Next(args, i));
    assert c !in o.optstring ==> Index(o.optstring, c) == None;
    WalkDecodes(o, args, i, s);
    OneOrTwo(args, i);
    if rest != "" {
      var more := Walk(o, args, i, rest);
      assert [] + more.opts == more.opts;
    }
  }

  // ----- other elements

  /** What does not begin with a dash, and a single dash, is no option and is left for the caller. */
  lemma NonOptionMeaning(o: Options, args: seq<string>, i: nat)
    requires i < |args| && (args[i] == "" || args[i][0] != '-' || args[i] == "-")
    ensures
      var rest := Walk(o, args, i + 1, "");
      Walk(o, args, i, "") == Found(rest.events, rest.opts, [args[i]] + rest.nons, rest.dashed, rest.missing)
  {
    WalkSkips(o, args, i);
  }

  /** Two dashes end the options; they count as one. */
  lemma DashesMeaning(o: Options, args: seq<string>, i: nat)
    requires i < |args| && args[i] == "--"
    ensures Walk(o, args, i, "") == Found([], ["--"], args[i + 1..], true, false)
  {
  }

  // ----- scans that permute nothing

  /** What a non-option is reported as when options and non-options are returned in order. */
  function InPlace(elems: seq<string>): seq<Event> {
    seq(|elems|, k requires 0 <= k < |elems| => Event(1, Some(elems[k]), None, None, None))
  }

  /** The marks tell the events of the scan in order that report options from those that report what it passed. */
  ghost predicate Merged(events: seq<Event>, end: nat, w: Found, args: seq<string>, marks: seq<bool>,
                         passed: seq<string>)
  {
    && |marks| == |events| && Select(events, marks, true) == w.events && Select(events, marks, false) == InPlace(passed)
    && end <= |args| && w.nons == passed + args[end..]
    && (if w.dashed then 0 < end && args[end - 1] == "--" else end == |args|)
  }

  lemma MergedDecodes(o: Options, args: seq<string>, i: nat, s: string, marks: seq<bool>, passed: seq<string>)
    requires i < |args| && Inside(args, i, s) && s != ""
    requires
      var d := Decode(o, args[i], s, Next(args, i));
      var (events, end) := WalkFixed(o, true, args, i + d.consumed, d.nextchar);
      Merged(events, end, Walk(o, args, i + d.consumed, d.nextchar), args, marks, passed)
    ensures
      var (events, end) := WalkFixed(o, true, args, i, s);
      Merged(events, end, Walk(o, args, i, s), args, [true] + marks, passed)
  {
    hide Decode, Select, Walk, InPlace;
    WalkDecodes(o, args, i, s);
    var d := Decode(o, args[i], s, Next(args, i));
    SelectFirst(d.event, WalkFixed(o, true, args, i + d.consumed, d.nextchar).0, true, marks);
  }

  lemma MergedPasses(o: Options, args: seq<string>, i: nat, marks: seq<bool>, passed: seq<string>)
    requires i < |args| && NonOption(args[i])
    requires
      var (events, end) := WalkFixed(o, true, args, i + 1, "");
      Merged(events, end, Walk(o, args, i + 1, ""), args, marks, passed)
    ensures
      var (events, end) := WalkFixed(o, true, args, i, "");
      Merged(events, end, Walk(o, args, i, ""), args, [false] + marks, [args[i]] + passed)
  {
    hide Decode, Select, Walk;
    WalkSkips(o, args, i);
    var event := Event(1, Some(args[i]), None, None, None);
    SelectFirst(event, WalkFixed(o, true, args, i + 1, "").0, false, marks);
    assert InPlace([args[i]] + passed) == [event] + InPlace(passed);
  }

  lemma MergedStops(o: Options, args: seq<string>, i: nat)
    requires i == |args| || (i < |args| && args[i] == "--")
    ensures
      var (events, end) := WalkFixed(o, true, args, i, "");
      Merged(events, end, Walk(o, args, i, ""), args, [], [])
  {
    hide Walk, Select;
    WalkStops(o, args, i);
    SelectNone<Event>(true);
    SelectNone<Event>(false);
  }

  lemma MergedEnters(o: Options, args: seq<string>, i: nat)
    requires i < |args| && args[i] != "--" && !NonOption(args[i])
    ensures WalkFixed(o, true, args, i, "") == WalkFixed(o, true, args, i, Start(o, args[i]))
  {
  }

  /** A scan that returns all elements in order reports the options that a permuting scan reports, and between them each
      non-option it passes; it ends after two dashes or at the end. */
  lemma {:induction false} InOrderMeaning(o: Options, args: seq<string>, i: nat, s: string)
    returns (marks: seq<bool>, passed: seq<string>)
    requires i <= |args| && Inside(args, i, s)
    ensures
      var (events, end) := WalkFixed(o, true, args, i, s);
      var w := Walk(o, args, i, s);
      && |marks| == |events| && Select(events, marks, true) == w.events
      && Select(events, marks, false) == InPlace(passed)
      && end <= |args| && w.nons == passed + args[end..]
      && (if w.dashed then 0 < end && args[end - 1] == "--" else end == |args|)
    decreases |args| - i, if s == "" then 1 else 0, |s|
  {
    hide Decode, Select, Walk, WalkFixed, InPlace;
    if s != "" {
      var d := Decode(o, args[i], s, Next(args, i));
      marks, passed := InOrderMeaning(o, args, i + d.consumed, d.nextchar);
      MergedDecodes(o, args, i, s, marks, passed);
      marks := [true] + marks;
    } else if i == |args| || args[i] == "--" {
      MergedStops(o, args, i);
      marks, passed := [], [];
    } else if NonOption(args[i]) {
      marks, passed := InOrderMeaning(o, args, i + 1, "");
      MergedPasses(o, args, i, marks, passed);
      marks, passed := [false] + marks, [args[i]] + passed;
    } else {
      WalkEnters(o, args, i);
      MergedEnters(o, args, i);
      marks, passed := InOrderMeaning(o, args, i, Start(o, args[i]));
    }
  }
}
