/** What a whole scan of an argument vector should report, in the two orders, and the refinement
    between them: permuting the arguments first and stopping at the first non-option afterwards. */
module GetoptWalk {
  import opened GetoptDecode
  import opened Wrappers

  /** Everything a PERMUTE scan finds: its events, the elements that are options or their
      arguments (with `--`), and the others; whether `--` ended it, and whether a required
      argument was missing. */
  datatype Found = Found(events: seq<Event>, opts: seq<string>, nons: seq<string>, dashed: bool, missing: bool)

  function After(events: seq<Event>, opts: seq<string>, nons: seq<string>, rest: Found): Found {
    Found(events + rest.events, opts + rest.opts, nons + rest.nons, rest.dashed, rest.missing)
  }

  /** `s` can be what is left of element `i`. */
  predicate Inside(args: seq<string>, i: nat, s: string) {
    s != "" ==> i < |args| && !NonOption(args[i])
  }

  function Next(args: seq<string>, i: nat): Option<string> {
    if i + 1 < |args| then Some(args[i + 1]) else None
  }

  /** A PERMUTE scan from element `i`, of which `s` is left ("" if it is not yet entered). */
  function Walk(o: Options, args: seq<string>, i: nat, s: string): Found
    requires i <= |args| && Inside(args, i, s)
    decreases |args| - i, if s == "" then 1 else 0, |s|
  {
    if s != "" then
      var d := Decode(o, args[i], s, Next(args, i));
      var rest := Walk(o, args, i + d.consumed, d.nextchar);
      After([d.event], args[i..i + d.consumed], [], rest.(missing := d.missing || rest.missing))
    else if i == |args| then Found([], [], [], false, false)
    else if args[i] == "--" then Found([], ["--"], args[i + 1..], true, false)
    else if NonOption(args[i]) then After([], [], [args[i]], Walk(o, args, i + 1, ""))
    else Walk(o, args, i, Start(o, args[i]))
  }

  /** A scan that leaves the arguments where they are: its events and the index it ends at.
      REQUIRE_ORDER stops at the first non-option; RETURN_IN_ORDER (`all`) reports the
      non-options as arguments of an option with code 1. */
  function WalkFixed(o: Options, all: bool, args: seq<string>, i: nat, s: string): (seq<Event>, nat)
    requires i <= |args| && Inside(args, i, s)
    decreases |args| - i, if s == "" then 1 else 0, |s|
  {
    if s != "" then
      var d := Decode(o, args[i], s, Next(args, i));
      var (events, end) := WalkFixed(o, all, args, i + d.consumed, d.nextchar);
      ([d.event] + events, end)
    else if i == |args| then ([], i)
    else if args[i] == "--" then ([], i + 1)
    else if !NonOption(args[i]) then WalkFixed(o, all, args, i, Start(o, args[i]))
    else if all then
      var (events, end) := WalkFixed(o, all, args, i + 1, "");
      ([Event(1, Some(args[i]), None, None, None)] + events, end)
    else ([], i)
  }

  lemma WalkEnters(o: Options, args: seq<string>, i: nat)
    requires i < |args| && args[i] != "--" && !NonOption(args[i])
    ensures Walk(o, args, i, "") == Walk(o, args, i, Start(o, args[i]))
  {
  }

  lemma WalkSkips(o: Options, args: seq<string>, i: nat)
    requires i < |args| && args[i] != "--" && NonOption(args[i])
    ensures Walk(o, args, i, "") == Walk(o, args, i + 1, "").(nons := [args[i]] + Walk(o, args, i + 1, "").nons)
  {
    var w := Walk(o, args, i + 1, "");
    assert [] + w.events == w.events && [] + w.opts == w.opts;
  }

  lemma WalkDecodes(o: Options, args: seq<string>, i: nat, s: string)
    requires i < |args| && Inside(args, i, s) && s != ""
    ensures var d := Decode(o, args[i], s, Next(args, i));
            var rest := Walk(o, args, i + d.consumed, d.nextchar);
            Walk(o, args, i, s) == Found([d.event] + rest.events, args[i..i + d.consumed] + rest.opts, rest.nons,
                                         rest.dashed, d.missing || rest.missing)
  {
    var d := Decode(o, args[i], s, Next(args, i));
    var rest := Walk(o, args, i + d.consumed, d.nextchar);
    assert [] + rest.nons == rest.nons;
  }

  lemma WalkStops(o: Options, args: seq<string>, i: nat)
    requires i == |args| || (i < |args| && args[i] == "--")
    ensures Walk(o, args, i, "") ==
            if i == |args| then Found([], [], [], false, false) else Found([], ["--"], args[i + 1..], true, false)
  {
  }

  // ----- the partition

  /** The elements of `s` whose mark is `b`, in order. */
  function Select<T>(s: seq<T>, marks: seq<bool>, b: bool): seq<T>
    requires |s| == |marks|
  {
    if s == [] then []
    else (if marks[0] == b then [s[0]] else []) + Select(s[1..], marks[1..], b)
  }

  lemma {:induction false} SelectAppend(s: seq<string>, t: seq<string>, m: seq<bool>, n: seq<bool>, b: bool)
    requires |s| == |m| && |t| == |n|
    ensures Select(s + t, m + n, b) == Select(s, m, b) + Select(t, n, b)
    decreases |s|
  {
    if s == [] {
      assert s + t == t && m + n == n;
    } else {
      assert (s + t)[1..] == s[1..] + t && (m + n)[1..] == m[1..] + n;
      SelectAppend(s[1..], t, m[1..], n, b);
    }
  }

  lemma {:induction false} SelectUniform(s: seq<string>, b: bool)
    ensures Select(s, seq(|s|, _ => b), b) == s && Select(s, seq(|s|, _ => b), !b) == []
    decreases |s|
  {
    if s != [] {
      assert seq(|s|, _ => b)[1..] == seq(|s[1..]|, _ => b);
      SelectUniform(s[1..], b);
    }
  }

  lemma SelectTaken(taken: seq<string>, rest: seq<string>, marks: seq<bool>)
    requires |rest| == |marks|
    ensures Select(taken + rest, seq(|taken|, _ => true) + marks, true) == taken + Select(rest, marks, true)
    ensures Select(taken + rest, seq(|taken|, _ => true) + marks, false) == Select(rest, marks, false)
  {
    SelectUniform(taken, true);
    SelectAppend(taken, rest, seq(|taken|, _ => true), marks, true);
    SelectAppend(taken, rest, seq(|taken|, _ => true), marks, false);
  }

  lemma SelectFirst<T>(x: T, rest: seq<T>, b: bool, marks: seq<bool>)
    requires |rest| == |marks|
    ensures Select([x] + rest, [b] + marks, b) == [x] + Select(rest, marks, b)
    ensures Select([x] + rest, [b] + marks, !b) == Select(rest, marks, !b)
  {
    assert ([x] + rest)[1..] == rest && ([b] + marks)[1..] == marks;
  }

  lemma SelectNone<T>(b: bool)
    ensures Select<T>([], [], b) == []
  {
  }

  lemma PartitionDashes(args: seq<string>, i: nat) returns (marks: seq<bool>)
    requires i < |args| && args[i] == "--"
    ensures |marks| == |args| - i && Select(args[i..], marks, true) == ["--"]
      && Select(args[i..], marks, false) == args[i + 1..]
  {
    hide Select;
    SelectUniform(args[i + 1..], false);
    var rest := seq(|args[i + 1..]|, _ => false);
    SelectFirst("--", args[i + 1..], true, rest);
    marks := [true] + rest;
    assert args[i..] == ["--"] + args[i + 1..];
  }

  /** A scan splits the elements into two groups without reordering either of them. */
  lemma {:induction false} StablePartition(o: Options, args: seq<string>, i: nat, s: string) returns (marks: seq<bool>)
    requires i <= |args| && Inside(args, i, s)
    ensures |marks| == |args| - i
    ensures Select(args[i..], marks, true) == Walk(o, args, i, s).opts
    ensures Select(args[i..], marks, false) == Walk(o, args, i, s).nons
    decreases |args| - i, if s == "" then 1 else 0, |s|
  {
    hide Decode, Walk, Select;
    if s != "" {
      WalkDecodes(o, args, i, s);
      var d := Decode(o, args[i], s, Next(args, i));
      var rest := StablePartition(o, args, i + d.consumed, d.nextchar);
      var taken := args[i..i + d.consumed];
      marks := seq(|taken|, _ => true) + rest;
      SelectTaken(taken, args[i + d.consumed..], rest);
      assert args[i..] == taken + args[i + d.consumed..];
    } else if i == |args| {
      WalkStops(o, args, i);
      SelectNone<string>(true);
      SelectNone<string>(false);
      marks := [];
    } else if args[i] == "--" {
      WalkStops(o, args, i);
      marks := PartitionDashes(args, i);
    } else if NonOption(args[i]) {
      WalkSkips(o, args, i);
      var rest := StablePartition(o, args, i + 1, "");
      SelectFirst(args[i], args[i + 1..], false, rest);
      marks := [false] + rest;
      assert args[i..] == [args[i]] + args[i + 1..];
      SkippedOnly(o, args, i);
    } else {
      WalkEnters(o, args, i);
      marks := StablePartition(o, args, i, Start(o, args[i]));
    }
  }

  lemma SkippedOnly(o: Options, args: seq<string>, i: nat)
    requires i < |args| && args[i] != "--" && NonOption(args[i])
    ensures Walk(o, args, i, "").opts == Walk(o, args, i + 1, "").opts
    ensures Walk(o, args, i, "").nons == [args[i]] + Walk(o, args, i + 1, "").nons
  {
    WalkSkips(o, args, i);
  }

  /** What comes first among the non-options, and what a missing argument means. */
  ghost predicate EndsWell(w: Found, args: seq<string>, i: nat, s: string) {
    && i <= |args| && Inside(args, i, s) && MayFollow(w, w.nons)
    && (w.missing ==> !w.dashed && w.events != [])
    && (s != "" ==> w.opts != [] && w.opts[0] == args[i])
    && |w.opts| + |w.nons| == |args| - i
  }

  /** `n` may follow the options of `w` as the rest of a permuted vector. */
  predicate MayFollow(w: Found, n: seq<string>) { w.dashed || n == [] || NonOption(n[0]) }

  lemma {:induction false} WalkEnds(o: Options, args: seq<string>, i: nat, s: string)
    requires i <= |args| && Inside(args, i, s)
    ensures EndsWell(Walk(o, args, i, s), args, i, s)
    decreases |args| - i, if s == "" then 1 else 0, |s|
  {
    hide Decode, Walk;
    if s != "" {
      WalkDecodes(o, args, i, s);
      var d := Decode(o, args[i], s, Next(args, i));
      WalkEnds(o, args, i + d.consumed, d.nextchar);
      if d.missing {
        WalkStops(o, args, i + 1);
      }
    } else if i == |args| || args[i] == "--" {
      WalkStops(o, args, i);
    } else if NonOption(args[i]) {
      WalkSkips(o, args, i);
      WalkEnds(o, args, i + 1, "");
    } else {
      WalkEnters(o, args, i);
      WalkEnds(o, args, i, Start(o, args[i]));
    }
  }

  // ----- the refinement

  /** One call in the middle of an option element, in a vector that has the same element there
      and the same element after it, or none that the call would look at. */
  lemma SameDecode(o: Options, args: seq<string>, i: nat, b: seq<string>, j: nat, s: string)
    requires i < |args| && j < |b| && Inside(args, i, s) && s != "" && b[j] == args[i]
    requires var d := Decode(o, args[i], s, Next(args, i));
             && (d.consumed == 2 ==> Next(b, j) == Next(args, i))
             && (d.missing ==> Next(b, j) == None)
    ensures Decode(o, b[j], s, Next(b, j)) == Decode(o, args[i], s, Next(args, i))
  {
    DecodeNext(o, args[i], s, Next(args, i), Next(b, j));
  }

  /** Scanning in order what a PERMUTE scan put first gives the same events. */
  lemma {:induction false} RescanAgrees(o: Options, args: seq<string>, i: nat, s: string, p: seq<string>,
                                        n: seq<string>)
    requires i <= |args| && Inside(args, i, s)
    requires MayFollow(Walk(o, args, i, s), n) && (Walk(o, args, i, s).missing ==> n == [])
    ensures Rescans(o, Walk(o, args, i, s), s, p, n)
    decreases |args| - i, if s == "" then 1 else 0, |s|
  {
    hide Decode, Rescans;
    if s != "" {
      RescanStep(o, args, i, s, p, n);
      var d := Decode(o, args[i], s, Next(args, i));
      RescanAgrees(o, args, i + d.consumed, d.nextchar, p + args[i..i + d.consumed], n);
      RescanDecoded(o, args, i, s, p, n);
    } else if i < |args| && args[i] != "--" {
      if NonOption(args[i]) {
        WalkSkips(o, args, i);
        RescanAgrees(o, args, i + 1, "", p, n);
        RescanSkipped(o, Walk(o, args, i + 1, ""), p, n, args[i]);
      } else {
        WalkEnters(o, args, i);
        WalkEnds(o, args, i, Start(o, args[i]));
        RescanAgrees(o, args, i, Start(o, args[i]), p, n);
        RescanEntered(o, Walk(o, args, i, ""), Start(o, args[i]), p, n);
      }
    } else {
      RescanStops(o, args, i, p, n);
    }
  }

  /** `w.opts` and then `n`, after `p`, rescanned in order. */
  ghost predicate Rescans(o: Options, w: Found, s: string, p: seq<string>, n: seq<string>) {
    Inside(p + w.opts + n, |p|, s) &&
    WalkFixed(o, false, p + w.opts + n, |p|, s) == (w.events, |p| + |w.opts|)
  }

  lemma RescanDecoded(o: Options, args: seq<string>, i: nat, s: string, p: seq<string>, n: seq<string>)
    requires i < |args| && Inside(args, i, s) && s != "" && (!Decode(o, args[i], s, Next(args, i)).missing || n == [])
    requires var d := Decode(o, args[i], s, Next(args, i));
             Rescans(o, Walk(o, args, i + d.consumed, d.nextchar), d.nextchar, p + args[i..i + d.consumed], n)
    ensures Rescans(o, Walk(o, args, i, s), s, p, n)
  {
    hide Decode, Walk;
    RescanStep(o, args, i, s, p, n);
  }

  lemma RescanSkipped(o: Options, w: Found, p: seq<string>, n: seq<string>, x: string)
    requires Rescans(o, w, "", p, n)
    ensures Rescans(o, w.(nons := [x] + w.nons), "", p, n)
  {
  }

  lemma RescanEntered(o: Options, w: Found, s: string, p: seq<string>, n: seq<string>)
    requires Rescans(o, w, s, p, n) && w.opts != [] && !NonOption(w.opts[0]) && w.opts[0] != "--"
      && s == Start(o, w.opts[0])
    ensures Rescans(o, w, "", p, n)
  {
    assert (p + w.opts + n)[|p|] == w.opts[0];
  }

  lemma RescanStops(o: Options, args: seq<string>, i: nat, p: seq<string>, n: seq<string>)
    requires i == |args| || (i < |args| && args[i] == "--")
    requires MayFollow(Walk(o, args, i, ""), n)
    ensures Rescans(o, Walk(o, args, i, ""), "", p, n)
  {
    var b := p + Walk(o, args, i, "").opts + n;
    if i < |args| {
      assert b[|p|] == "--";
    }
  }

  /** The parts of the vector that is scanned in order. */
  lemma RescanVector(p: seq<string>, taken: seq<string>, opts: seq<string>, n: seq<string>)
    requires taken != []
    ensures p + (taken + opts) + n == (p + taken) + opts + n
    ensures var b := p + (taken + opts) + n;
      |b| == |p| + |taken| + |opts| + |n| && forall k | 0 <= k < |taken| :: b[|p| + k] == taken[k]
  {
  }

  lemma RescanStep(o: Options, args: seq<string>, i: nat, s: string, p: seq<string>, n: seq<string>)
    requires i < |args| && Inside(args, i, s) && s != ""
    requires !Decode(o, args[i], s, Next(args, i)).missing || n == []
    ensures var d := Decode(o, args[i], s, Next(args, i));
            var w, w' := Walk(o, args, i, s), Walk(o, args, i + d.consumed, d.nextchar);
            var b := p + w.opts + n;
            && Inside(b, |p|, s) && w.events == [d.event] + w'.events
            && w.missing == (d.missing || w'.missing) && w.dashed == w'.dashed
            && b == (p + args[i..i + d.consumed]) + w'.opts + n
            && |w.opts| == d.consumed + |w'.opts|
            && Decode(o, b[|p|], s, Next(b, |p|)) == d
  {
    hide Decode, Walk, WalkFixed, NonOption;
    WalkDecodes(o, args, i, s);
    WalkEnds(o, args, i, s);
    var d := Decode(o, args[i], s, Next(args, i));
    var w' := Walk(o, args, i + d.consumed, d.nextchar);
    var taken := args[i..i + d.consumed];
    var opts := Walk(o, args, i, s).opts;
    var b := p + opts + n;
    if d.consumed > 0 {
      RescanVector(p, taken, w'.opts, n);
      assert taken[0] == args[i];
    } else {
      assert taken == [] && [] + w'.opts == w'.opts && p + [] == p;
    }
    assert b[|p|] == opts[0] == args[i];
    if d.consumed == 2 {
      assert b[|p| + 1] == taken[1] == args[i + 1];
    } else if d.missing {
      WalkEnds(o, args, i + 1, "");
      assert |b| == |p| + 1;
    }
    SameDecode(o, args, i, b, |p|, s);
  }

  /** If an argument was missing, it is found when something follows: the events differ. */
  lemma {:induction false} RescanFindsArgument(o: Options, args: seq<string>, i: nat, s: string, p: seq<string>,
                                               n: seq<string>)
    requires i <= |args| && Inside(args, i, s)
    requires Walk(o, args, i, s).missing && n != []
    ensures RescanDiffers(o, Walk(o, args, i, s), s, p, n)
    decreases |args| - i, if s == "" then 1 else 0, |s|
  {
    hide Decode, RescanDiffers;
    if s != "" {
      var d := Decode(o, args[i], s, Next(args, i));
      if d.missing {
        FoundArgument(o, args, i, s, p, n);
      } else {
        RescanStep(o, args, i, s, p, n);
        RescanFindsArgument(o, args, i + d.consumed, d.nextchar, p + args[i..i + d.consumed], n);
        StillDiffers(o, args, i, s, p, n);
      }
    } else if NonOption(args[i]) {
      WalkSkips(o, args, i);
      RescanFindsArgument(o, args, i + 1, "", p, n);
      SkippedDiffers(o, Walk(o, args, i + 1, ""), p, n, args[i]);
    } else {
      WalkEnters(o, args, i);
      WalkEnds(o, args, i, Start(o, args[i]));
      RescanFindsArgument(o, args, i, Start(o, args[i]), p, n);
      EnteredDiffers(o, Walk(o, args, i, ""), Start(o, args[i]), p, n);
    }
  }

  ghost predicate RescanDiffers(o: Options, w: Found, s: string, p: seq<string>, n: seq<string>) {
    Inside(p + w.opts + n, |p|, s) && WalkFixed(o, false, p + w.opts + n, |p|, s).0 != w.events
  }

  lemma StillDiffers(o: Options, args: seq<string>, i: nat, s: string, p: seq<string>, n: seq<string>)
    requires i < |args| && Inside(args, i, s) && s != "" && !Decode(o, args[i], s, Next(args, i)).missing
    requires var d := Decode(o, args[i], s, Next(args, i));
             RescanDiffers(o, Walk(o, args, i + d.consumed, d.nextchar), d.nextchar, p + args[i..i + d.consumed], n)
    ensures RescanDiffers(o, Walk(o, args, i, s), s, p, n)
  {
    hide Decode, Walk;
    RescanStep(o, args, i, s, p, n);
    var d := Decode(o, args[i], s, Next(args, i));
    var b := p + Walk(o, args, i, s).opts + n;
    assert WalkFixed(o, false, b, |p|, s).0[1..] == WalkFixed(o, false, b, |p| + d.consumed, d.nextchar).0;
    assert Walk(o, args, i, s).events[1..] == Walk(o, args, i + d.consumed, d.nextchar).events;
  }

  lemma SkippedDiffers(o: Options, w: Found, p: seq<string>, n: seq<string>, x: string)
    requires RescanDiffers(o, w, "", p, n)
    ensures RescanDiffers(o, w.(nons := [x] + w.nons), "", p, n)
  {
  }

  lemma EnteredDiffers(o: Options, w: Found, s: string, p: seq<string>, n: seq<string>)
    requires RescanDiffers(o, w, s, p, n) && w.opts != [] && !NonOption(w.opts[0]) && w.opts[0] != "--"
      && s == Start(o, w.opts[0])
    ensures RescanDiffers(o, w, "", p, n)
  {
    assert (p + w.opts + n)[|p|] == w.opts[0];
  }

  lemma FoundArgument(o: Options, args: seq<string>, i: nat, s: string, p: seq<string>, n: seq<string>)
    requires i < |args| && Inside(args, i, s) && s != "" && n != []
    requires Decode(o, args[i], s, Next(args, i)).missing
    ensures RescanDiffers(o, Walk(o, args, i, s), s, p, n)
  {
    hide Decode;
    WalkDecodes(o, args, i, s);
    WalkEnds(o, args, i, s);
    WalkEnds(o, args, i + 1, "");
    var opts := Walk(o, args, i, s).opts;
    var b := p + opts + n;
    assert b[|p|] == opts[0] == args[i];
    assert Next(b, |p|).Some?;
    DecodeNext(o, args[i], s, Next(args, i), Next(b, |p|));
    assert WalkFixed(o, false, b, |p|, s).0[0] != Walk(o, args, i, s).events[0];
  }

  /** The vector as a PERMUTE scan leaves it. */
  function Permuted(o: Options, args: seq<string>): seq<string>
    requires args != []
  {
    var w := Walk(o, args, 1, "");
    [args[0]] + w.opts + w.nons
  }

  /** Rerunning getopt in REQUIRE_ORDER mode on the permuted vector reports the same options and
      stops at the same index iff no required argument was missing at the end of the options
      while there were non-options. */
  lemma PermuteRefinesOrder(o: Options, args: seq<string>)
    requires args != []
    ensures var w := Walk(o, args, 1, "");
            WalkFixed(o, false, Permuted(o, args), 1, "") == (w.events, 1 + |w.opts|) <==> (!w.missing || w.nons == [])
  {
    var w := Walk(o, args, 1, "");
    WalkEnds(o, args, 1, "");
    if !w.missing || w.nons == [] {
      RescanAgrees(o, args, 1, "", [args[0]], w.nons);
    } else {
      RescanFindsArgument(o, args, 1, "", [args[0]], w.nons);
    }
  }
}
