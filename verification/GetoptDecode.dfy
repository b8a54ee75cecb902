/** What one call of getopt makes of the option element it stands on: long options with their
    abbreviations, clusters of short options, and their arguments. */
module GetoptDecode {
  import opened Wrappers

  /** `struct option`; `flag` says whether its flag pointer is set. */
  datatype LongOption = LongOption(name: string, has_arg: int, flag: bool, val: int)

  datatype Ordering = REQUIRE_ORDER | PERMUTE | RETURN_IN_ORDER

  /** The arguments of the calls of one scan. */
  datatype Options = Options(optstring: string, longopts: Option<seq<LongOption>>, long_only: bool)

  /** What a call reports: its value, `optarg`, `*longind`, the value stored through the option's
      flag pointer, and `optopt`. */
  datatype Event = Event(ret: int, optarg: Option<string>, longind: Option<nat>, stored: Option<int>,
                         optopt: Option<char>)

  /** `nextchar` after the call ("" also stands for NULL), the elements the call moves over,
      and whether a required argument was missing. */
  datatype Decoded = Decoded(event: Event, nextchar: string, consumed: nat, missing: bool)

  const QUESTION := '?' as int
  const COLON := ':' as int

  function Plain(ret: int): Event { Event(ret, None, None, None, None) }

  /** A C string's first character, NUL if it is empty. */
  function Head(s: string): char { if s == "" then '\0' else s[0] }

  /** Not an option element: it does not start with `-`, or it is exactly `-`. */
  predicate NonOption(elem: string) { !(|elem| >= 2 && elem[0] == '-') }

  // ----- long options

  datatype LongMatch = NoMatch | Abbrev(i: nat) | Ambiguous | Exact(i: nat)

  /** The match loop over the first `n` long options. */
  function Matched(opts: seq<LongOption>, name: string, n: nat): LongMatch
    requires n <= |opts|
  {
    if n == 0 then NoMatch
    else
      var m := Matched(opts, name, n - 1);
      if m.Exact? || !(name <= opts[n - 1].name) then m
      else if name == opts[n - 1].name then Exact(n - 1)
      else if m == NoMatch then Abbrev(n - 1)
      else Ambiguous
  }

  /** `name` abbreviates option `i`. */
  predicate Abbreviates(opts: seq<LongOption>, name: string, i: nat) {
    i < |opts| && name <= opts[i].name
  }

  /** An exact match wins (the first one); otherwise an abbreviation must be unique. */
  lemma {:induction false} MatchedMeaning(opts: seq<LongOption>, name: string, n: nat)
    requires n <= |opts|
    ensures match Matched(opts, name, n)
            case Exact(i) => i < n && opts[i].name == name && forall j | 0 <= j < i :: opts[j].name != name
            case Abbrev(i) =>
              && i < n && Abbreviates(opts, name, i) && (forall j | 0 <= j < n :: opts[j].name != name)
              && (forall j | 0 <= j < n && Abbreviates(opts, name, j) :: j == i)
            case NoMatch => forall j | 0 <= j < n :: !Abbreviates(opts, name, j) && opts[j].name != name
            case Ambiguous =>
              && (forall j | 0 <= j < n :: opts[j].name != name)
              && exists i, j | 0 <= i < j < n :: Abbreviates(opts, name, i) && Abbreviates(opts, name, j)
  {
    if n > 0 {
      MatchedMeaning(opts, name, n - 1);
      if name <= opts[n - 1].name {
        assert Abbreviates(opts, name, n - 1);
      }
    }
  }

  /** Position of the first `=` in `s`, or its length. */
  function NameLength(s: string): (k: nat)
    ensures k <= |s| && (k < |s| ==> s[k] == '=') && forall j | 0 <= j < k :: s[j] != '='
  {
    if s == "" || s[0] == '=' then 0 else 1 + NameLength(s[1..])
  }

  function MissingArgument(o: Options): int { if Head(o.optstring) == ':' then COLON else QUESTION }

  /** A long option that was found; `s` is the element without its dashes. */
  function DecodeLong(o: Options, i: nat, s: string, next: Option<string>): Decoded
    requires o.longopts.Some? && i < |o.longopts.value|
  {
    var p := o.longopts.value[i];
    var k := NameLength(s);
    if k < |s| && p.has_arg == 0 then Decoded(Plain(QUESTION), "", 1, false)
    else if k == |s| && p.has_arg == 1 && next == None then Decoded(Plain(MissingArgument(o)), "", 1, true)
    else
      var optarg := if k < |s| then Some(s[k + 1..]) else if p.has_arg == 1 then next else None;
      var consumed := if k == |s| && p.has_arg == 1 then 2 else 1;
      Decoded(Event(if p.flag then 0 else p.val, optarg, Some(i), if p.flag then Some(p.val) else None, None),
              "", consumed, false)
  }

  // ----- short options

  /** Where `c` first occurs in `s`. */
  function Index(s: string, c: char): (i: Option<nat>)
    ensures i.Some? ==> i.value < |s| && s[i.value] == c && forall j | 0 <= j < i.value :: s[j] != c
    ensures i.None? ==> c !in s
  {
    if s == "" then None
    else if s[0] == c then Some(0)
    else match Index(s[1..], c) case None => None case Some(i) => Some(i + 1)
  }

  /** The option character at the start of `s`. */
  function DecodeShort(o: Options, s: string, next: Option<string>): Decoded
    requires s != ""
  {
    var c, rest := s[0], s[1..];
    var temp := Index(o.optstring, c);
    var last := if rest == "" then 1 else 0;
    if temp == None || c == ':' then
      Decoded(Event(QUESTION, None, None, None, Some(c)), rest, last, false)
    else
      var colons := o.optstring[temp.value + 1..];
      if Head(colons) != ':' then Decoded(Plain(c as int), rest, last, false)
      else if Head(colons[1..]) == ':' then
        Decoded(Event(c as int, if rest == "" then None else Some(rest), None, None, None), "", 1, false)
      else if rest != "" then Decoded(Event(c as int, Some(rest), None, None, None), "", 1, false)
      else if next == None then Decoded(Event(MissingArgument(o), None, None, None, Some(c)), "", 1, true)
      else Decoded(Event(c as int, next, None, None, None), "", 2, false)
  }

  // ----- one call

  /** Where scanning of an option element starts. */
  function Start(o: Options, elem: string): string
    requires !NonOption(elem)
  {
    if o.longopts.Some? && elem[1] == '-' then elem[2..] else elem[1..]
  }

  /** One call on element `elem` with `s` left of it; `next` is the element that follows. */
  function Decode(o: Options, elem: string, s: string, next: Option<string>): (d: Decoded)
    requires !NonOption(elem) && s != ""
    ensures |d.nextchar| < |s| && d.consumed <= 2
    ensures d.consumed == 0 <==> d.nextchar != ""
    ensures d.consumed == 2 ==> next.Some? && d.event.optarg == next
    ensures d.missing ==> next.None? && d.consumed == 1 && d.event.optarg == None
  {
    if o.longopts.Some? && (elem[1] == '-' || o.long_only) then
      match Matched(o.longopts.value, s[..NameLength(s)], |o.longopts.value|)
      case Ambiguous => Decoded(Plain(QUESTION), "", 1, false)
      case Exact(i) =>
        MatchedMeaning(o.longopts.value, s[..NameLength(s)], |o.longopts.value|); DecodeLong(o, i, s, next)
      case Abbrev(i) =>
        MatchedMeaning(o.longopts.value, s[..NameLength(s)], |o.longopts.value|); DecodeLong(o, i, s, next)
      case NoMatch =>
        if !o.long_only || elem[1] == '-' || Index(o.optstring, s[0]) == None then
          Decoded(Plain(QUESTION), "", 1, false)
        else DecodeShort(o, s, next)
    else DecodeShort(o, s, next)
  }

  /** A call that takes no argument from the next element does not look at it, and a missing
      argument is taken from the next element if there is one. */
  lemma DecodeNext(o: Options, elem: string, s: string, next: Option<string>, other: Option<string>)
    requires !NonOption(elem) && s != ""
    ensures var d := Decode(o, elem, s, next);
            && (d.consumed < 2 && !d.missing ==> Decode(o, elem, s, other) == d)
            && (d.missing && other.Some? ==> Decode(o, elem, s, other).event.optarg == other)
  {
  }

  // ----- the loops of a call

  /** `while (*s && *s != '=') s++`. */
  method ScanName(s: string) returns (k: nat)
    ensures k == NameLength(s)
  {
    k := 0;
    while k < |s| && s[k] != '='
      invariant k <= |s| && NameLength(s) == k + NameLength(s[k..])
    {
      assert s[k..][1..] == s[k + 1..];
      k := k + 1;
    }
  }

  /** `my_index`. */
  method MyIndex(s: string, c: char) returns (i: Option<nat>)
    ensures i == Index(s, c)
  {
    var k := 0;
    while k < |s|
      invariant k <= |s|
      invariant Index(s, c) == match Index(s[k..], c) case None => None case Some(j) => Some(k + j)
    {
      if s[k] == c {
        return Some(k);
      }
      assert s[k..][1..] == s[k + 1..];
      k := k + 1;
    }
    return None;
  }

  /** Tests all long options for an exact or an abbreviated match. */
  method FindLong(opts: seq<LongOption>, name: string) returns (pfound: Option<nat>, exact: bool, ambig: bool)
    ensures match Matched(opts, name, |opts|)
            case Exact(i) => exact && pfound == Some(i)
            case Abbrev(i) => !exact && !ambig && pfound == Some(i)
            case Ambiguous => !exact && ambig
            case NoMatch => !exact && !ambig && pfound == None
  {
    pfound, exact, ambig := None, false, false;
    var p := 0;
    while p < |opts|
      invariant p <= |opts| && !exact
      invariant match Matched(opts, name, p)
                case Exact(_) => false
                case Abbrev(i) => !ambig && pfound == Some(i)
                case Ambiguous => ambig && pfound.Some?
                case NoMatch => !ambig && pfound == None
    {
      if name <= opts[p].name {
        if |name| == |opts[p].name| {
          MatchedStays(opts, name, p + 1, |opts|);
          return Some(p), true, ambig;
        } else if pfound == None {
          pfound := Some(p);
        } else {
          ambig := true;
        }
      }
      p := p + 1;
    }
  }

  lemma {:induction false} MatchedStays(opts: seq<LongOption>, name: string, n: nat, m: nat)
    requires n <= m <= |opts| && Matched(opts, name, n).Exact?
    ensures Matched(opts, name, m) == Matched(opts, name, n)
  {
    if n < m {
      MatchedStays(opts, name, n, m - 1);
    }
  }

  /** The part of a call that decodes an option element, up to the return. */
  method DecodeCall(o: Options, elem: string, s: string, next: Option<string>) returns (d: Decoded)
    requires !NonOption(elem) && s != ""
    ensures d == Decode(o, elem, s, next)
  {
    if o.longopts.Some? && (elem[1] == '-' || o.long_only) {
      var longopts := o.longopts.value;
      var k := ScanName(s);
      var pfound, exact, ambig := FindLong(longopts, s[..k]);
      MatchedMeaning(longopts, s[..k], |longopts|);
      if ambig && !exact {
        return Decoded(Plain(QUESTION), "", 1, false);
      }
      if pfound.Some? {
        var p := longopts[pfound.value];
        var optarg, consumed := None, 1;
        if k < |s| {
          if p.has_arg != 0 {
            optarg := Some(s[k + 1..]);
          } else {
            return Decoded(Plain(QUESTION), "", 1, false);
          }
        } else if p.has_arg == 1 {
          if next.Some? {
            optarg, consumed := next, 2;
          } else {
            return Decoded(Plain(MissingArgument(o)), "", 1, true);
          }
        }
        if p.flag {
          return Decoded(Event(0, optarg, pfound, Some(p.val), None), "", consumed, false);
        }
        return Decoded(Event(p.val, optarg, pfound, None, None), "", consumed, false);
      }
      var known := MyIndex(o.optstring, s[0]);
      if !o.long_only || elem[1] == '-' || known == None {
        return Decoded(Plain(QUESTION), "", 1, false);
      }
    }
    var c, nextchar := s[0], s[1..];
    var temp := MyIndex(o.optstring, c);
    var consumed := if nextchar == "" then 1 else 0;
    if temp == None || c == ':' {
      return Decoded(Event(QUESTION, None, None, None, Some(c)), nextchar, consumed, false);
    }
    var after := o.optstring[temp.value + 1..];
    if Head(after) == ':' {
      if Head(after[1..]) == ':' {
        var optarg := if nextchar != "" then Some(nextchar) else None;
        return Decoded(Event(c as int, optarg, None, None, None), "", 1, false);
      } else if nextchar != "" {
        return Decoded(Event(c as int, Some(nextchar), None, None, None), "", 1, false);
      } else if next == None {
        return Decoded(Event(MissingArgument(o), None, None, None, Some(c)), "", 1, true);
      } else {
        return Decoded(Event(c as int, next, None, None, None), "", 2, false);
      }
    }
    return Decoded(Plain(c as int), nextchar, consumed, false);
  }
}
