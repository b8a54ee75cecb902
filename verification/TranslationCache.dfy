/** Bindings of message domains, and the cache of translations that are valid for one generation
    of the bindings: a cached lookup answers what the uncached path would. */
module TranslationCache {
  import opened CStrings
  import opened Wrappers

  const DEFAULT_DOMAIN := "messages"

  /** `struct binding`. */
  datatype Binding = Binding(domainname: string, dirname: string, codeset: Option<string>, codeset_cntr: nat)

  /** What identifies a known translation. */
  datatype Key = Key(msgid: string, domainname: string, category: int)

  /** A translation: the catalog it was found in and its (plural) strings. */
  datatype Found = Found(catalog: int, text: string)

  /** `struct known_translation_t` without its key. */
  datatype Known = Known(counter: nat, found: Found)

  /** What does not change: the default directory, the working directory, the locale list of each
      category, whether the process is privileged, the catalogs (by directory, locale, category,
      domain, codeset and its counter, and identifier) and the plural variants of what they hold. */
  datatype Environment = Environment(
    default_dirname: string,
    cwd: Option<string>,
    locales: int -> string,
    secure: bool,
    catalogs: (string, string, int, string, Option<Binding>, string) -> Option<Found>,
    variant: (Found, nat) -> string)

  // ----- the order of the search tree

  /** `transcmp`. */
  function TransCmp(a: Key, b: Key): int {
    if StrCmp(a.msgid, b.msgid) != 0 then StrCmp(a.msgid, b.msgid)
    else if StrCmp(a.domainname, b.domainname) != 0 then StrCmp(a.domainname, b.domainname)
    else a.category - b.category
  }

  /** The search tree's order is a strict total order, so its keys behave like those of a map. */
  lemma TransCmpIsOrder(a: Key, b: Key, c: Key)
    ensures TransCmp(a, b) == 0 <==> a == b
    ensures TransCmp(a, b) < 0 <==> TransCmp(b, a) > 0
    ensures TransCmp(a, b) < 0 && TransCmp(b, c) < 0 ==> TransCmp(a, c) < 0
  {
    StrCmpEqual(a.msgid, b.msgid);
    StrCmpEqual(a.domainname, b.domainname);
    StrCmpFlips(a.msgid, b.msgid);
    StrCmpFlips(a.domainname, b.domainname);
    StrCmpEqual(b.msgid, c.msgid);
    StrCmpEqual(b.domainname, c.domainname);
    StrCmpEqual(a.msgid, c.msgid);
    StrCmpEqual(a.domainname, c.domainname);
    if StrCmp(a.msgid, b.msgid) <= 0 && StrCmp(b.msgid, c.msgid) <= 0 {
      StrCmpTransitive(a.msgid, b.msgid, c.msgid);
    }
    if StrCmp(a.domainname, b.domainname) <= 0 && StrCmp(b.domainname, c.domainname) <= 0 {
      StrCmpTransitive(a.domainname, b.domainname, c.domainname);
    }
  }

  // ----- the binding list

  ghost predicate Ascending(bs: seq<Binding>) {
    forall i, j | 0 <= i < j < |bs| :: StrCmp(bs[i].domainname, bs[j].domainname) < 0
  }

  /** The binding of a domain. */
  ghost function BindingOf(bs: seq<Binding>, domain: string): Option<Binding> {
    if bs == [] then None
    else if bs[0].domainname == domain then Some(bs[0])
    else BindingOf(bs[1..], domain)
  }

  lemma {:induction false} BindingOfAt(bs: seq<Binding>, i: nat)
    requires Ascending(bs) && i < |bs|
    ensures BindingOf(bs, bs[i].domainname) == Some(bs[i])
    decreases |bs|
  {
    if i > 0 {
      StrCmpEqual(bs[0].domainname, bs[i].domainname);
      assert bs[i] == bs[1..][i - 1];
      BindingOfAt(bs[1..], i - 1);
    }
  }

  lemma {:induction false} BindingOfNone(bs: seq<Binding>, domain: string)
    requires forall i | 0 <= i < |bs| :: bs[i].domainname != domain
    ensures BindingOf(bs, domain) == None
    decreases |bs|
  {
    if bs != [] {
      assert forall i | 0 <= i < |bs[1..]| :: bs[1..][i] == bs[i + 1];
      BindingOfNone(bs[1..], domain);
    }
  }

  /** The search of the sorted list, which stops early at a greater name. */
  method FindBinding(bs: seq<Binding>, domain: string) returns (at: Option<nat>)
    requires Ascending(bs)
    ensures at.Some? ==>
      at.value < |bs| && bs[at.value].domainname == domain && BindingOf(bs, domain) == Some(bs[at.value])
    ensures at.None? ==> BindingOf(bs, domain) == None && forall i | 0 <= i < |bs| :: bs[i].domainname != domain
  {
    var i := 0;
    while i < |bs|
      invariant 0 <= i <= |bs|
      invariant forall k | 0 <= k < i :: bs[k].domainname != domain
    {
      var compare := StrCmp(domain, bs[i].domainname);
      StrCmpEqual(domain, bs[i].domainname);
      if compare == 0 {
        BindingOfAt(bs, i);
        return Some(i);
      }
      if compare < 0 {
        forall k | i < k < |bs| ensures bs[k].domainname != domain {
          StrCmpTransitive(domain, bs[i].domainname, bs[k].domainname);
          StrCmpEqual(domain, bs[k].domainname);
        }
        break;
      }
      i := i + 1;
    }
    BindingOfNone(bs, domain);
    return None;
  }

  /** Enqueues a binding at its place in the list. */
  method Enqueue(bs: seq<Binding>, b: Binding) returns (bs': seq<Binding>, ghost at: nat)
    requires Ascending(bs) && forall i | 0 <= i < |bs| :: bs[i].domainname != b.domainname
    ensures at <= |bs| && bs' == bs[..at] + [b] + bs[at..] && Ascending(bs')
  {
    at := 0;
    if bs == [] || StrCmp(b.domainname, bs[0].domainname) < 0 {
      bs' := [b] + bs;
    } else {
      var i := 0;
      StrCmpEqual(b.domainname, bs[0].domainname);
      while i + 1 < |bs| && StrCmp(b.domainname, bs[i + 1].domainname) > 0
        invariant 0 <= i < |bs| && StrCmp(b.domainname, bs[i].domainname) > 0
      {
        i := i + 1;
      }
      bs' := bs[..i + 1] + [b] + bs[i + 1..];
      at := i + 1;
    }
    if at > 0 {
      StrCmpFlips(bs[at - 1].domainname, b.domainname);
    }
    if at < |bs| {
      StrCmpEqual(b.domainname, bs[at].domainname);
    }
    InsertAscends(bs, b, at);
  }

  lemma InsertAscends(bs: seq<Binding>, b: Binding, at: nat)
    requires Ascending(bs) && at <= |bs|
    requires at > 0 ==> StrCmp(bs[at - 1].domainname, b.domainname) < 0
    requires at < |bs| ==> StrCmp(b.domainname, bs[at].domainname) < 0
    ensures Ascending(bs[..at] + [b] + bs[at..])
  {
    forall k | 0 <= k < at ensures StrCmp(bs[k].domainname, b.domainname) < 0 {
      if k < at - 1 {
        StrCmpTransitive(bs[k].domainname, bs[at - 1].domainname, b.domainname);
      }
    }
    forall k | at <= k < |bs| ensures StrCmp(b.domainname, bs[k].domainname) < 0 {
      if k > at {
        StrCmpTransitive(b.domainname, bs[at].domainname, bs[k].domainname);
      }
    }
  }

  /** A binding is found iff it is in the list. */
  lemma BindingOfMember(bs: seq<Binding>, domain: string)
    requires Ascending(bs)
    ensures match BindingOf(bs, domain)
            case Some(b) => b in bs && b.domainname == domain
            case None => forall i | 0 <= i < |bs| :: bs[i].domainname != domain
  {
    if i :| 0 <= i < |bs| && bs[i].domainname == domain {
      BindingOfAt(bs, i);
    } else {
      BindingOfNone(bs, domain);
    }
  }

  /** Two lists with the same bindings of a domain find the same. */
  lemma SameBinding(bs: seq<Binding>, bs': seq<Binding>, domain: string)
    requires Ascending(bs) && Ascending(bs')
    requires forall b: Binding | b.domainname == domain :: b in bs <==> b in bs'
    ensures BindingOf(bs, domain) == BindingOf(bs', domain)
  {
    BindingOfMember(bs, domain);
    BindingOfMember(bs', domain);
    if BindingOf(bs, domain).Some? {
      var i :| 0 <= i < |bs'| && bs'[i] == BindingOf(bs, domain).value;
      BindingOfAt(bs', i);
    }
  }

  lemma InsertBinds(bs: seq<Binding>, b: Binding, at: nat)
    requires Ascending(bs) && at <= |bs| && Ascending(bs[..at] + [b] + bs[at..])
    ensures var bs' := bs[..at] + [b] + bs[at..];
            BindingOf(bs', b.domainname) == Some(b) &&
            forall d: string | d != b.domainname :: BindingOf(bs', d) == BindingOf(bs, d)
  {
    var bs' := bs[..at] + [b] + bs[at..];
    BindingOfAt(bs', at);
    forall d: string | d != b.domainname ensures BindingOf(bs', d) == BindingOf(bs, d) {
      assert bs == bs[..at] + bs[at..];
      SameBinding(bs', bs, d);
    }
  }

  lemma ReplaceBinds(bs: seq<Binding>, b: Binding, at: nat)
    requires Ascending(bs) && at < |bs| && bs[at].domainname == b.domainname
    ensures var bs' := bs[at := b];
            Ascending(bs') && BindingOf(bs', b.domainname) == Some(b) &&
            forall d: string | d != b.domainname :: BindingOf(bs', d) == BindingOf(bs, d)
  {
    var bs' := bs[at := b];
    assert forall i | 0 <= i < |bs| :: bs'[i].domainname == bs[i].domainname;
    BindingOfAt(bs', at);
    forall d: string | d != b.domainname ensures BindingOf(bs', d) == BindingOf(bs, d) {
      assert forall x | x in bs' && x.domainname == d :: x in bs;
      assert forall i | 0 <= i < |bs| && bs[i].domainname == d :: bs'[i] == bs[i];
      SameBinding(bs', bs, d);
    }
  }

  // ----- the uncached path

  predicate IsAbsolute(path: string) { path != "" && path[0] == '/' }

  /** The directory of a domain's catalogs; nothing if it is relative and there is no working directory. */
  function Directory(env: Environment, binding: Option<Binding>): Option<string> {
    match binding
    case None => Some(env.default_dirname)
    case Some(b) =>
      if IsAbsolute(b.dirname) then Some(b.dirname)
      else match env.cwd case None => None case Some(cwd) => Some(cwd + "/" + b.dirname)
  }

  /** The first element of a colon-separated list, and the rest. */
  function FirstLocale(value: string): (r: (string, string))
    ensures |r.1| <= |value| && (value != "" && value[0] != ':' ==> |r.1| < |value|)
    ensures value == r.0 + r.1
  {
    if value == "" || value[0] == ':' then ("", value)
    else
      var (l, rest) := FirstLocale(value[1..]);
      ([value[0]] + l, rest)
  }

  /** The translation in the first catalog of the locale list that has one; "C" ends the list. */
  function Search(env: Environment, k: Key, dirname: string, binding: Option<Binding>, value: string): Option<Found>
    decreases |value|
  {
    if value == "" then None
    else if value[0] == ':' then Search(env, k, dirname, binding, value[1..])
    else
      var (locale, rest) := FirstLocale(value);
      if env.secure && '/' in locale then Search(env, k, dirname, binding, rest)
      else if locale == "C" || locale == "POSIX" then None
      else match env.catalogs(dirname, locale, k.category, k.domainname, binding, k.msgid)
        case Some(f) => Some(f)
        case None => Search(env, k, dirname, binding, rest)
  }

  /** A list of locales with colons between them; an empty one stands for a colon too many. */
  function Colons(locales: seq<string>): string {
    if locales == [] then "" else if |locales| == 1 then locales[0] else locales[0] + ":" + Colons(locales[1..])
  }

  /** The locale is passed over: it is empty, or a privileged process must not look into directories for it. */
  predicate PassedOver(env: Environment, locale: string) { locale == "" || (env.secure && '/' in locale) }

  /** Locale `i` is the one whose catalog has the translation: no locale before it has one or ends the list. */
  ghost predicate Supplies(env: Environment, k: Key, dirname: string, binding: Option<Binding>, locales: seq<string>,
                           i: nat, f: Found)
  {
    && i < |locales| && env.catalogs(dirname, locales[i], k.category, k.domainname, binding, k.msgid) == Some(f)
    && locales[i] != "" && locales[i] != "C" && locales[i] != "POSIX" && !(env.secure && '/' in locales[i])
    && forall j | 0 <= j < i ::
         || locales[j] == "" || (env.secure && '/' in locales[j])
         || (locales[j] != "C" && locales[j] != "POSIX"
             && env.catalogs(dirname, locales[j], k.category, k.domainname, binding, k.msgid) == None)
  }

  lemma FirstOfColons(locales: seq<string>)
    requires locales != [] && forall l | l in locales :: ':' !in l
    ensures var (l, rest) := FirstLocale(Colons(locales));
      l == locales[0] && rest == if |locales| == 1 then "" else ":" + Colons(locales[1..])
  {
    assert ':' !in locales[0];
    var rest := if |locales| == 1 then "" else ":" + Colons(locales[1..]);
    assert Colons(locales) == locales[0] + rest;
    FirstUntil(locales[0], rest);
  }

  lemma {:induction false} FirstUntil(l: string, rest: string)
    requires ':' !in l && (rest == "" || rest[0] == ':')
    ensures FirstLocale(l + rest) == (l, rest)
    decreases |l|
  {
    if l == "" {
      assert l + rest == rest;
    } else {
      assert l[0] in l && (l + rest)[1..] == l[1..] + rest;
      FirstUntil(l[1..], rest);
      assert [l[0]] + l[1..] == l;
    }
  }

  /** The search of a list of locales finds what the first of them supplies that has a translation, unless `C` or
      `POSIX` comes before it. */
  lemma {:induction false} SearchMeaning(env: Environment, k: Key, dirname: string, binding: Option<Binding>,
                                         locales: seq<string>, f: Found)
    requires forall l | l in locales :: ':' !in l
    ensures Search(env, k, dirname, binding, Colons(locales)) == Some(f) <==>
            exists i :: 0 <= i < |locales| && Supplies(env, k, dirname, binding, locales, i, f)
    decreases |locales|
  {
    hide Search, Colons, Supplies;
    if locales == [] {
      NoLocale(env, k, dirname, binding);
    } else {
      var rest := locales[1..];
      SearchMeaning(env, k, dirname, binding, rest, f);
      SearchRest(env, k, dirname, binding, locales);
      SuppliesFirst(env, k, dirname, binding, locales, f);
      forall i | 0 <= i < |rest|
        ensures Supplies(env, k, dirname, binding, rest, i, f) && GoesOn(env, k, dirname, binding, locales[0]) ==>
                  Supplies(env, k, dirname, binding, locales, i + 1, f)
      {
        SuppliesLater(env, k, dirname, binding, locales, i, f);
      }
      if i :| 0 < i < |locales| && Supplies(env, k, dirname, binding, locales, i, f) {
        SuppliesLater(env, k, dirname, binding, locales, i - 1, f);
      }
    }
  }

  lemma NoLocale(env: Environment, k: Key, dirname: string, binding: Option<Binding>)
    ensures Search(env, k, dirname, binding, Colons([])) == None
  {
  }

  /** The search goes on after a locale. */
  ghost predicate GoesOn(env: Environment, k: Key, dirname: string, binding: Option<Binding>, locale: string) {
    || PassedOver(env, locale)
    || (locale != "C" && locale != "POSIX"
        && env.catalogs(dirname, locale, k.category, k.domainname, binding, k.msgid) == None)
  }

  lemma SuppliesFirst(env: Environment, k: Key, dirname: string, binding: Option<Binding>, locales: seq<string>,
                      f: Found)
    requires locales != []
    ensures Supplies(env, k, dirname, binding, locales, 0, f) <==>
            && !PassedOver(env, locales[0]) && locales[0] != "C" && locales[0] != "POSIX"
            && env.catalogs(dirname, locales[0], k.category, k.domainname, binding, k.msgid) == Some(f)
  {
  }

  lemma SuppliesLater(env: Environment, k: Key, dirname: string, binding: Option<Binding>, locales: seq<string>,
                      i: nat, f: Found)
    requires locales != []
    ensures Supplies(env, k, dirname, binding, locales, i + 1, f) <==>
            Supplies(env, k, dirname, binding, locales[1..], i, f) && GoesOn(env, k, dirname, binding, locales[0])
  {
    if i + 1 < |locales| {
      assert locales[1..][i] == locales[i + 1];
      assert forall j | 0 <= j < i :: locales[1..][j] == locales[j + 1];
      if Supplies(env, k, dirname, binding, locales[1..], i, f) {
        forall j | 0 < j < i + 1 ensures locales[j] == locales[1..][j - 1] {
        }
      }
    }
  }

  /** What the head of the list decides. */
  lemma SearchRest(env: Environment, k: Key, dirname: string, binding: Option<Binding>, locales: seq<string>)
    requires locales != [] && forall l | l in locales :: ':' !in l
    ensures
      var l, rest := locales[0], Search(env, k, dirname, binding, Colons(locales[1..]));
      Search(env, k, dirname, binding, Colons(locales)) ==
      if PassedOver(env, l) then rest
      else if l == "C" || l == "POSIX" then None
      else match env.catalogs(dirname, l, k.category, k.domainname, binding, k.msgid)
        case Some(f) => Some(f)
        case None => rest
  {
    FirstOfColons(locales);
    var value := Colons(locales);
    var tail := if |locales| == 1 then "" else ":" + Colons(locales[1..]);
    assert value == locales[0] + tail;
    assert Search(env, k, dirname, binding, tail) == Search(env, k, dirname, binding, Colons(locales[1..])) by {
      if |locales| > 1 {
        assert tail[1..] == Colons(locales[1..]);
      }
    }
    if locales[0] == "" {
      assert value == tail;
    } else {
      assert value[0] == locales[0][0] && locales[0][0] in locales[0];
    }
  }

  /** Where the catalogs of a domain are: where it is bound, below the working directory if that is no absolute path,
      and
      by default if it is not bound. */
  lemma DirectoryMeaning(env: Environment, b: Binding)
    ensures Directory(env, None) == Some(env.default_dirname)
    ensures b.dirname != "" && b.dirname[0] == '/' ==> Directory(env, Some(b)) == Some(b.dirname)
    ensures b.dirname == "" || b.dirname[0] != '/' ==>
      Directory(env, Some(b)) == match env.cwd case None => None case Some(cwd) => Some(cwd + ['/'] + b.dirname)
  {
  }

  /** What a lookup that ignores the cache finds. */
  ghost function Uncached(env: Environment, bs: seq<Binding>, k: Key): Option<Found> {
    var binding := BindingOf(bs, k.domainname);
    match Directory(env, binding)
    case None => None
    case Some(dirname) => Search(env, k, dirname, binding, env.locales(k.category))
  }

  /** The string returned for what was found; the Germanic plural rule if nothing was. */
  function Answer(env: Environment, found: Option<Found>, msgid1: string, msgid2: string, plural: bool, n: nat): string
  {
    match found
    case Some(f) => if plural then env.variant(f, n) else CStr(f.text)
    case None => if !plural || n == 1 then msgid1 else msgid2
  }

  // ----- the global state

  /** The binding of a domain after new values for its directory and codeset. */
  function Rebound(domain: string, old_binding: Option<Binding>, dirname: Option<string>, codeset: Option<string>,
                   default_dirname: string): Option<Binding>
  {
    match old_binding
    case None =>
      if dirname == None && codeset == None then None
      else
        Some(Binding(domain, match dirname case None => default_dirname case Some(d) => d, codeset,
                     if codeset.Some? then 1 else 0))
    case Some(b) =>
      Some(Binding(b.domainname,
                   match dirname case None => b.dirname case Some(d) => d,
                   if codeset.Some? then codeset else b.codeset,
                   if codeset.Some? && codeset != b.codeset then b.codeset_cntr + 1 else b.codeset_cntr))
  }

  function Given(p: Option<Option<string>>): Option<string> { if p.Some? then p.value else None }

  /** New values for a domain that is bound already; equal values change nothing. */
  method UpdateBinding(old_binding: Binding, dirnamep: Option<Option<string>>, codesetp: Option<Option<string>>,
                       ghost default_dirname: string)
    returns (b: Binding, dirname: Option<string>, codeset: Option<string>, modified: bool)
    ensures Some(b) == Rebound(b.domainname, Some(old_binding), Given(dirnamep), Given(codesetp), default_dirname)
    ensures modified <==> b != old_binding
    ensures dirnamep.Some? ==> dirname == Some(b.dirname)
    ensures codesetp.Some? ==> codeset == b.codeset
  {
    b, dirname, codeset, modified := old_binding, None, None, false;
    if dirnamep.Some? {
      if dirnamep.value.Some? && dirnamep.value.value != b.dirname {
        b := b.(dirname := dirnamep.value.value);
        modified := true;
      }
      dirname := Some(b.dirname);
    }
    if codesetp.Some? {
      if codesetp.value.Some? && (b.codeset == None || codesetp.value != b.codeset) {
        b := b.(codeset := codesetp.value, codeset_cntr := b.codeset_cntr + 1);
        modified := true;
      }
      codeset := b.codeset;
    }
  }

  /** A binding for a domain that is not bound yet. */
  method NewBinding(domain: string, dirnamep: Option<Option<string>>, codesetp: Option<Option<string>>,
                    default_dirname: string)
    returns (b: Binding, dirname: Option<string>, codeset: Option<string>)
    requires Given(dirnamep).Some? || Given(codesetp).Some?
    ensures Some(b) == Rebound(domain, None, Given(dirnamep), Given(codesetp), default_dirname)
    ensures dirnamep.Some? ==> dirname == Some(b.dirname)
    ensures codesetp.Some? ==> codeset == b.codeset
  {
    dirname, codeset := None, None;
    var new_dirname, new_codeset, codeset_cntr := default_dirname, None, 0;
    if dirnamep.Some? {
      if dirnamep.value.Some? {
        new_dirname := dirnamep.value.value;
      }
      dirname := Some(new_dirname);
    }
    if codesetp.Some? {
      if codesetp.value.Some? {
        codeset_cntr := codeset_cntr + 1;
      }
      new_codeset, codeset := codesetp.value, codesetp.value;
    }
    b := Binding(domain, new_dirname, new_codeset, codeset_cntr);
  }

  class Gettext {
    const env: Environment
    var bindings: seq<Binding>         // _nl_domain_bindings
    var msg_cat_cntr: nat              // _nl_msg_cat_cntr
    var current_default_domain: string // _nl_current_default_domain
    var root: map<Key, Known>          // the search tree of known translations

    constructor (env: Environment)
      ensures Valid() && this.env == env
    {
      this.env := env;
      bindings, msg_cat_cntr, current_default_domain, root := [], 0, DEFAULT_DOMAIN, map[];
    }

    /** The list is sorted, and a translation of the current generation is what the uncached path
        would find now. */
    ghost predicate Valid()
      reads this
    {
      && Ascending(bindings)
      && forall k | k in root ::
           root[k].counter <= msg_cat_cntr &&
           (root[k].counter == msg_cat_cntr ==> Uncached(env, bindings, k) == Some(root[k].found))
    }

    /** `set_binding_values`; `dirname` and `codeset` are the pointers passed, `None` a null one.
        Returns the values stored through them. */
    method SetBindingValues(domainname: Option<string>, dirnamep: Option<Option<string>>,
                            codesetp: Option<Option<string>>)
      returns (dirname: Option<string>, codeset: Option<string>)
      requires Valid()
      modifies this`bindings, this`msg_cat_cntr
      ensures Valid()
      ensures domainname == None || domainname == Some("") ==>
                bindings == old(bindings) && msg_cat_cntr == old(msg_cat_cntr) && dirname == None && codeset == None
      ensures domainname.Some? && domainname.value != "" ==>
                var d := domainname.value;
                var before := BindingOf(old(bindings), d);
                var after := Rebound(d, before, Given(dirnamep), Given(codesetp), env.default_dirname);
                && BindingOf(bindings, d) == after
                && (forall e: string | e != d :: BindingOf(bindings, e) == BindingOf(old(bindings), e))
                && msg_cat_cntr == (if after == before then old(msg_cat_cntr) else old(msg_cat_cntr) + 1)
                && (after == before ==> bindings == old(bindings))
                && (dirnamep.Some? ==>
                    dirname == Some(if after.Some? then after.value.dirname else env.default_dirname))
                && (codesetp.Some? ==> codeset == if after.Some? then after.value.codeset else None)
    {
      dirname, codeset := None, None;
      if domainname == None || domainname.value == "" {
        return;
      }
      var domain := domainname.value;
      var modified := false;
      var at := FindBinding(bindings, domain);
      if at.Some? {
        var b;
        b, dirname, codeset, modified := UpdateBinding(bindings[at.value], dirnamep, codesetp, env.default_dirname);
        ReplaceBinds(bindings, b, at.value);
        bindings := bindings[at.value := b];
      } else if Given(dirnamep) == None && Given(codesetp) == None {
        if dirnamep.Some? {
          dirname := Some(env.default_dirname);
        }
      } else {
        var b;
        b, dirname, codeset := NewBinding(domain, dirnamep, codesetp, env.default_dirname);
        ghost var i;
        ghost var before := bindings;
        bindings, i := Enqueue(bindings, b);
        InsertBinds(before, b, i);
        modified := true;
      }
      if modified {
        msg_cat_cntr := msg_cat_cntr + 1;
      }
    }

    method BindTextdomain(domainname: Option<string>, dirname: Option<string>) returns (r: Option<string>)
      requires Valid()
      modifies this`bindings, this`msg_cat_cntr
      ensures Valid()
      ensures domainname.Some? && domainname.value != "" && dirname.Some? ==>
                r == dirname && BindingOf(bindings, domainname.value).Some? &&
                BindingOf(bindings, domainname.value).value.dirname == dirname.value
    {
      var unused;
      r, unused := SetBindingValues(domainname, Some(dirname), None);
    }

    method BindTextdomainCodeset(domainname: Option<string>, codeset: Option<string>) returns (r: Option<string>)
      requires Valid()
      modifies this`bindings, this`msg_cat_cntr
      ensures Valid()
      ensures domainname.Some? && domainname.value != "" && codeset.Some? ==>
                r == codeset && BindingOf(bindings, domainname.value).Some? &&
                BindingOf(bindings, domainname.value).value.codeset == codeset
    {
      var unused;
      unused, r := SetBindingValues(domainname, None, Some(codeset));
    }

    /** `textdomain`: every call that names a domain starts a new generation. */
    method Textdomain(domainname: Option<string>) returns (r: string)
      requires Valid()
      modifies this`current_default_domain, this`msg_cat_cntr
      ensures Valid() && r == current_default_domain
      ensures current_default_domain ==
              match domainname
              case None => old(current_default_domain)
              case Some(d) => if d == "" then DEFAULT_DOMAIN else d
      ensures msg_cat_cntr == if domainname == None then old(msg_cat_cntr) else old(msg_cat_cntr) + 1
    {
      if domainname == None {
        return current_default_domain;
      }
      if domainname.value == "" || domainname.value == DEFAULT_DOMAIN {
        current_default_domain := DEFAULT_DOMAIN;
      } else if domainname.value != current_default_domain {
        current_default_domain := domainname.value;
      }
      r := current_default_domain;
      msg_cat_cntr := msg_cat_cntr + 1;
    }

    /** The search through the locale list. */
    method SearchLocales(k: Key, dirname: string, binding: Option<Binding>) returns (found: Option<Found>)
      ensures found == Search(env, k, dirname, binding, env.locales(k.category))
    {
      var value := env.locales(k.category);
      while true
        invariant Search(env, k, dirname, binding, value) == Search(env, k, dirname, binding, env.locales(k.category))
        decreases |value|
      {
        ghost var old_value := value;
        while value != "" && value[0] == ':'
          invariant Search(env, k, dirname, binding, value) == Search(env, k, dirname, binding, env.locales(k.category))
          invariant |value| <= |old_value|
          decreases |value|
        {
          value := value[1..];
        }
        if value == "" {
          return None;
        }
        var (locale, rest) := FirstLocale(value);
        value := rest;
        if env.secure && '/' in locale {
          continue;
        }
        if locale == "C" || locale == "POSIX" {
          return None;
        }
        found := env.catalogs(dirname, locale, k.category, k.domainname, binding, k.msgid);
        if found.Some? {
          return;
        }
      }
    }

    /** `dcigettext`: with or without a cached translation, the answer is that of the uncached path. */
    method Dcigettext(domainname: Option<string>, msgid1: Option<string>, msgid2: string, plural: bool, n: nat,
                      category: int)
      returns (r: Option<string>)
      requires Valid()
      modifies this`root
      ensures Valid()
      ensures msgid1 == None ==> r == None
      ensures msgid1.Some? ==>
                var k := Key(msgid1.value, if domainname.Some? then domainname.value else current_default_domain,
                             category);
                var found := Uncached(env, bindings, k);
                && r.Some?
                && (found.None? && !plural ==> r == msgid1)
                && (found.None? && plural ==> r == if n == 1 then msgid1 else Some(msgid2))
                && (found.Some? && plural ==> r == Some(env.variant(found.value, n)))
                && (found.Some? && !plural ==>
                      && '\0' !in r.value && r.value <= found.value.text
                      && (r.value == found.value.text || found.value.text[|r.value|] == '\0'))
    {
      if msgid1 == None {
        return None;
      }
      var domain := if domainname.Some? then domainname.value else current_default_domain;
      var search := Key(msgid1.value, domain, category);
      if search in root && root[search].counter == msg_cat_cntr {
        return Some(Answer(env, Some(root[search].found), msgid1.value, msgid2, plural, n));
      }
      var at := FindBinding(bindings, domain);
      var binding := if at.Some? then Some(bindings[at.value]) else None;
      var dirname := Directory(env, binding);
      if dirname == None {
        return Some(Answer(env, None, msgid1.value, msgid2, plural, n));
      }
      var found := SearchLocales(search, dirname.value, binding);
      if found.Some? {
        root := root[search := Known(msg_cat_cntr, found.value)];
      }
      return Some(Answer(env, found, msgid1.value, msgid2, plural, n));
    }
  }
}
