/** Conversations and the windows they are shown in. */
module ConvWindows {
  import opened Wrappers

  datatype Kind = Im | Chat | Misc

  // ----- lists

  ghost predicate Distinct<T>(s: seq<T>) { forall i, j | 0 <= i < j < |s| :: s[i] != s[j] }

  function Without<T>(s: seq<T>, i: nat): seq<T>
    requires i < |s|
  {
    s[..i] + s[i + 1..]
  }

  /** `g_list_remove` */
  function Removed<T(==)>(s: seq<T>, x: T): seq<T> {
    if s == [] then [] else if s[0] == x then s[1..] else [s[0]] + Removed(s[1..], x)
  }

  lemma {:induction false} RemovedAt<T>(s: seq<T>, i: nat)
    requires Distinct(s) && i < |s|
    ensures Removed(s, s[i]) == Without(s, i)
    decreases |s|
  {
    if i > 0 {
      RemovedAt(s[1..], i - 1);
      assert s[1..][..i - 1] == s[1..i];
    }
  }

  lemma RemovedMembers<T>(s: seq<T>, x: T)
    requires Distinct(s)
    ensures Distinct(Removed(s, x))
    ensures forall y :: y in Removed(s, x) <==> y in s && y != x
    ensures x !in s ==> Removed(s, x) == s
  {
    if x in s {
      var i :| 0 <= i < |s| && s[i] == x;
      RemovedAt(s, i);
      WithoutMembers(s, i);
    } else {
      RemovedNone(s, x);
    }
  }

  lemma {:induction false} RemovedNone<T>(s: seq<T>, x: T)
    requires x !in s
    ensures Removed(s, x) == s
    decreases |s|
  {
    if s != [] {
      assert s == [s[0]] + s[1..];
      RemovedNone(s[1..], x);
    }
  }

  lemma WithoutMembers<T>(s: seq<T>, i: nat)
    requires Distinct(s) && i < |s|
    ensures Distinct(Without(s, i))
    ensures forall y :: y in Without(s, i) <==> y in s && y != s[i]
  {
    var t := Without(s, i);
    forall y ensures y in t <==> y in s && y != s[i] {
      if y in s && y != s[i] {
        var j :| 0 <= j < |s| && s[j] == y;
        assert t[if j < i then j else j - 1] == y;
      }
    }
  }

  /** `s` without all of `gone`. */
  ghost function Minus<T>(s: seq<T>, gone: set<T>): seq<T> {
    if s == [] then [] else (if s[0] in gone then [] else [s[0]]) + Minus(s[1..], gone)
  }

  lemma {:induction false} MinusNone<T>(s: seq<T>)
    ensures Minus(s, {}) == s
    decreases |s|
  {
    if s != [] {
      MinusNone(s[1..]);
    }
  }

  /** Removing one more. */
  lemma {:induction false} MinusMore<T>(s: seq<T>, gone: set<T>, x: T)
    requires Distinct(s) && x !in gone
    ensures Removed(Minus(s, gone), x) == Minus(s, gone + {x})
    decreases |s|
  {
    if s != [] {
      MinusMore(s[1..], gone, x);
      var rest := Minus(s[1..], gone);
      if s[0] in gone {
        assert [] + rest == rest;
      } else if s[0] == x {
        assert ([x] + rest)[1..] == rest;
        MinusMembers(s[1..], gone, x);
        RemovedNone(rest, x);
      } else {
        assert ([s[0]] + rest)[1..] == rest;
      }
    }
  }

  lemma {:induction false} MinusMembers<T>(s: seq<T>, gone: set<T>, y: T)
    ensures y in Minus(s, gone) <==> y in s && y !in gone
    decreases |s|
  {
    if s != [] {
      MinusMembers(s[1..], gone, y);
    }
  }

  /** The list when the member at `i` goes to place `j`, counted before it leaves; a place past the end is the end. */
  function Moved<T>(s: seq<T>, i: nat, j: nat): seq<T>
    requires i < |s|
  {
    var k := Landing(|s|, i, j);
    Without(s, i)[..k] + [s[i]] + Without(s, i)[k..]
  }

  /** The place where it ends up. */
  function Landing(n: nat, i: nat, j: nat): (k: nat)
    requires i < n
    ensures k < n
  {
    var to := if j > n then n else j;
    if to > i then to - 1 else to
  }

  /** The others keep their order, and the member comes to stand before the one that was at the place. */
  lemma MovedMeaning<T>(s: seq<T>, i: nat, j: nat)
    requires i < |s|
    ensures var t, k := Moved(s, i, j), Landing(|s|, i, j);
      && |t| == |s| && t[k] == s[i] && Without(t, k) == Without(s, i)
      && (j < |s| && j != i ==> k + 1 < |t| && t[k + 1] == s[j])
      && (j >= |s| ==> k == |s| - 1)
  {
    var t, k := Moved(s, i, j), Landing(|s|, i, j);
    assert t[..k] == Without(s, i)[..k] && t[k + 1..] == Without(s, i)[k..];
    assert Without(s, i)[..k] + Without(s, i)[k..] == Without(s, i);
  }

  /** Moving it back undoes the move. */
  lemma MovedBack<T>(s: seq<T>, i: nat, j: nat)
    requires i < |s|
    ensures var t, k := Moved(s, i, j), Landing(|s|, i, j);
      |t| == |s| && Moved(t, k, if i < k then i else i + 1) == s
  {
    MovedMeaning(s, i, j);
    var t, k := Moved(s, i, j), Landing(|s|, i, j);
    assert Landing(|s|, k, if i < k then i else i + 1) == i;
    assert s[..i] + [s[i]] + s[i + 1..] == s;
    assert Without(s, i)[..i] == s[..i] && Without(s, i)[i..] == s[i + 1..];
  }

  // ----- windows and conversations

  type Id = nat

  type Account = nat

  /** `struct _GaimConversation`, as far as windows and the search by name are concerned; `left` matters for chats. */
  datatype Conversation = Conversation(kind: Kind, account: Account, name: string, left: bool, window: Option<Id>,
                                       pos: nat)

  /** `struct _GaimConvWindow` */
  datatype Window = Window(conversations: seq<Id>, count: nat)

  type Windows = map<Id, Window>

  type Records = map<Id, Conversation>

  /** The window's count is the length of its list, and each conversation in it knows its window and its place. */
  ghost predicate Holds(wins: Windows, convs: Records, w: Id) {
    && w in wins && wins[w].count == |wins[w].conversations|
    && forall i | 0 <= i < |wins[w].conversations| :: IsAt(convs, wins[w].conversations[i], w, i)
  }

  ghost predicate IsAt(convs: Records, c: Id, w: Id, i: nat) {
    c in convs && convs[c].window == Some(w) && convs[c].pos == i
  }

  /** The windows and the conversations agree. */
  ghost predicate Placed(windows: seq<Id>, wins: Windows, convs: Records) {
    && Distinct(windows) && (forall w :: w in windows <==> w in wins)
    && (forall w | w in wins :: Holds(wins, convs, w))
    && (forall c | c in convs && convs[c].window.Some? ::
        convs[c].window.value in wins && c in wins[convs[c].window.value].conversations)
  }

  function Picked(convs: Records, kind: Kind, c: Id): seq<Id>
  {
    if c in convs && convs[c].kind == kind then [c] else []
  }

  function OfKind(s: seq<Id>, convs: Records, kind: Kind): seq<Id> {
    if s == [] then [] else Picked(convs, kind, s[0]) + OfKind(s[1..], convs, kind)
  }

  /** The lists of conversations hold all that are not about to go, and each kind has its list. */
  ghost predicate Listed(conversations: seq<Id>, ims: seq<Id>, chats: seq<Id>, convs: Records, going: set<Id>) {
    && Distinct(conversations) && (forall c :: c in conversations <==> c in convs && c !in going)
    && ims == OfKind(conversations, convs, Im) && chats == OfKind(conversations, convs, Chat)
  }

  lemma {:induction false} OfKindMembers(s: seq<Id>, convs: Records, kind: Kind, c: Id)
    ensures c in OfKind(s, convs, kind) <==> c in s && c in convs && convs[c].kind == kind
    decreases |s|
  {
    if s != [] {
      OfKindMembers(s[1..], convs, kind, c);
    }
  }

  lemma {:induction false} OfKindRemoved(s: seq<Id>, convs: Records, kind: Kind, c: Id)
    requires Distinct(s) && c in convs
    ensures OfKind(Removed(s, c), convs, kind) == if convs[c].kind == kind then Removed(OfKind(s, convs, kind), c)
      else OfKind(s, convs, kind)
    decreases |s|
  {
    if s != [] {
      var rest := OfKind(s[1..], convs, kind);
      OfKindRemoved(s[1..], convs, kind, c);
      assert ([s[0]] + rest)[1..] == rest && [] + rest == rest;
      if s[0] == c {
        OfKindMembers(s[1..], convs, kind, c);
        RemovedNone(rest, c);
      } else {
        assert ([s[0]] + Removed(s[1..], c))[1..] == Removed(s[1..], c);
      }
    }
  }

  lemma {:induction false} OfKindAppended(s: seq<Id>, convs: Records, kind: Kind, c: Id)
    ensures OfKind(s + [c], convs, kind) == OfKind(s, convs, kind) + Picked(convs, kind, c)
    decreases |s|
  {
    hide Picked;
    if s == [] {
      assert s + [c] == [c] && [c][1..] == [];
    } else {
      OfKindAppended(s[1..], convs, kind, c);
      assert (s + [c])[1..] == s[1..] + [c];
    }
  }

  lemma {:induction false} OfKindSame(s: seq<Id>, convs: Records, convs': Records, kind: Kind)
    requires forall c | c in s :: c in convs && c in convs' && convs'[c].kind == convs[c].kind
    ensures OfKind(s, convs', kind) == OfKind(s, convs, kind)
    decreases |s|
  {
    if s != [] {
      assert s[0] in s;
      OfKindSame(s[1..], convs, convs', kind);
    }
  }

  ghost predicate SameKinds(convs: Records, convs': Records) {
    convs'.Keys == convs.Keys && forall c | c in convs :: convs'[c].kind == convs[c].kind
  }

  /** Only windows and places have changed. */
  ghost predicate OnlyMoved(convs: Records, convs': Records) {
    && SameKinds(convs, convs')
    && forall c | c in convs ::
      convs'[c].account == convs[c].account && convs'[c].name == convs[c].name && convs'[c].left == convs[c].left
  }

  lemma NoneMoved(convs: Records)
    ensures OnlyMoved(convs, convs)
  {
  }

  lemma MovedMore(convs0: Records, convs1: Records, convs: Records, c: Id, win: Id, pos: nat)
    requires OnlyMoved(convs0, convs1) && c in convs1
      && convs == convs1[c := convs1[c].(window := Some(win), pos := pos)]
    ensures OnlyMoved(convs0, convs) && SameKinds(convs0, convs)
  {
  }

  /** Only places have changed. */
  ghost predicate SameWindows(convs: Records, convs': Records) {
    OnlyMoved(convs, convs') && forall c | c in convs :: convs'[c].window == convs[c].window
  }

  lemma ListedSame(conversations: seq<Id>, ims: seq<Id>, chats: seq<Id>, convs: Records, convs': Records,
                   going: set<Id>)
    requires Listed(conversations, ims, chats, convs, going) && SameKinds(convs, convs')
    ensures Listed(conversations, ims, chats, convs', going)
  {
    assert forall c :: c in convs <==> c in convs'.Keys;
    OfKindSame(conversations, convs, convs', Im);
    OfKindSame(conversations, convs, convs', Chat);
  }

  lemma MembersOf(windows: seq<Id>, wins: Windows, convs: Records, w: Id)
    requires Placed(windows, wins, convs) && w in wins
    ensures Distinct(wins[w].conversations) && wins[w].count == |wins[w].conversations|
    ensures forall c | c in wins[w].conversations :: c in convs && convs[c].window == Some(w)
    ensures forall v, c | v in wins && v != w && c in wins[v].conversations :: c !in wins[w].conversations
  {
    assert Holds(wins, convs, w);
    var s := wins[w].conversations;
    forall i, j | 0 <= i < j < |s| ensures s[i] != s[j] {
      assert IsAt(convs, s[i], w, i) && IsAt(convs, s[j], w, j);
    }
    forall c | c in s ensures c in convs && convs[c].window == Some(w) {
      var i :| 0 <= i < |s| && s[i] == c;
      assert IsAt(convs, s[i], w, i);
    }
    forall v, c | v in wins && v != w && c in wins[v].conversations ensures c !in s {
      assert Holds(wins, convs, v);
      var i :| 0 <= i < |wins[v].conversations| && wins[v].conversations[i] == c;
      assert IsAt(convs, wins[v].conversations[i], v, i);
    }
  }

  /** The records when the members of `s` have been told their places. */
  ghost predicate Renumbered(convs: Records, convs': Records, s: seq<Id>) {
    && convs'.Keys == convs.Keys
    && (forall i | 0 <= i < |s| :: s[i] in convs && convs'[s[i]] == convs[s[i]].(pos := i))
    && (forall c | c in convs && c !in s :: convs'[c] == convs[c])
  }

  /** A window gets another list of its conversations, with its places right; one conversation may be in no window
      now. */
  lemma PlacedAgain(windows: seq<Id>, wins: Windows, convs: Records, convs1: Records, convs': Records, w: Id,
                    s: seq<Id>, out: set<Id>)
    requires Placed(windows, wins, convs) && w in wins && Distinct(s)
    requires forall c :: c in s <==> c in wins[w].conversations && c !in out
    requires convs1.Keys == convs.Keys && forall c | c in convs :: if c in out then convs1[c].window == None
      else convs1[c] == convs[c]
    requires out <= (set c | c in wins[w].conversations)
    requires Renumbered(convs1, convs', s)
    ensures Placed(windows, wins[w := Window(s, |s|)], convs')
  {
    hide Distinct;
    MembersOf(windows, wins, convs, w);
    var wins' := wins[w := Window(s, |s|)];
    forall v | v in wins' ensures Holds(wins', convs', v) {
      var t := wins'[v].conversations;
      if v != w {
        assert Holds(wins, convs, v);
      }
      forall i | 0 <= i < |t| ensures IsAt(convs', t[i], v, i) {
        assert t[i] in t;
        if v != w {
          assert IsAt(convs, t[i], v, i);
        }
      }
    }
    forall c | c in convs' && convs'[c].window.Some?
      ensures convs'[c].window.value in wins' && c in wins'[convs'[c].window.value].conversations
    {
      assert c in convs.Keys;
    }
  }

  lemma PlacedNew(windows: seq<Id>, wins: Windows, convs: Records, w: Id)
    requires Placed(windows, wins, convs) && w !in wins
    ensures Placed(windows + [w], wins[w := Window([], 0)], convs)
  {
    var wins' := wins[w := Window([], 0)];
    forall v | v in wins' ensures Holds(wins', convs, v) {
      if v != w {
        assert Holds(wins, convs, v);
      }
    }
  }

  lemma PlacedGone(windows: seq<Id>, wins: Windows, convs: Records, w: Id)
    requires Placed(windows, wins, convs) && w in wins && wins[w].conversations == []
    ensures Placed(Removed(windows, w), wins - {w}, convs)
  {
    hide Distinct;
    RemovedMembers(windows, w);
    var wins' := wins - {w};
    forall v | v in wins' ensures Holds(wins', convs, v) {
      assert Holds(wins, convs, v);
    }
  }

  /** A conversation in no window is put at the end of one. */
  lemma PlacedLast(windows: seq<Id>, wins: Windows, convs: Records, w: Id, c: Id)
    requires Placed(windows, wins, convs) && w in wins && c in convs && convs[c].window == None
    ensures var s := wins[w].conversations;
      && c !in s
      && Placed(windows, wins[w := Window(s + [c], |s| + 1)], convs[c := convs[c].(window := Some(w), pos := |s|)])
  {
    hide Distinct;
    MembersOf(windows, wins, convs, w);
    var s := wins[w].conversations;
    var wins', convs' := wins[w := Window(s + [c], |s| + 1)], convs[c := convs[c].(window := Some(w), pos := |s|)];
    forall v | v in wins' ensures Holds(wins', convs', v) {
      assert Holds(wins, convs, v);
      var t := wins'[v].conversations;
      forall i | 0 <= i < |t| ensures IsAt(convs', t[i], v, i) {
        if !(v == w && i == |s|) {
          assert IsAt(convs, wins[v].conversations[i], v, i);
        }
      }
    }
  }

  lemma ListedLess(conversations: seq<Id>, ims: seq<Id>, chats: seq<Id>, convs: Records, c: Id)
    requires Listed(conversations, ims, chats, convs, {c})
    ensures Listed(conversations, ims, chats, convs - {c}, {})
  {
    OfKindSame(conversations, convs, convs - {c}, Im);
    OfKindSame(conversations, convs, convs - {c}, Chat);
  }

  lemma PlacedLess(windows: seq<Id>, wins: Windows, convs: Records, c: Id)
    requires Placed(windows, wins, convs) && c in convs && convs[c].window == None
    ensures Placed(windows, wins, convs - {c})
  {
    var convs' := convs - {c};
    forall v | v in wins ensures Holds(wins, convs', v) {
      assert Holds(wins, convs, v);
      forall i | 0 <= i < |wins[v].conversations| ensures IsAt(convs', wins[v].conversations[i], v, i) {
        assert IsAt(convs, wins[v].conversations[i], v, i);
      }
    }
  }

  /** The lists when the window has lost the conversation: it is gone if that was its last. */
  function WindowsWithout(windows: seq<Id>, wins: Windows, w: Id): seq<Id> {
    if w in wins && |wins[w].conversations| == 1 then Removed(windows, w) else windows
  }

  function WinsWithout(wins: Windows, w: Id, c: Id): Windows {
    if w !in wins then wins
    else
      var s := Removed(wins[w].conversations, c);
      if |wins[w].conversations| == 1 then wins - {w} else wins[w := Window(s, |s|)]
  }

  ghost predicate Lost(windows: seq<Id>, wins: Windows, windows': seq<Id>, wins': Windows, w: Id, c: Id) {
    w in wins && windows' == WindowsWithout(windows, wins, w) && wins' == WinsWithout(wins, w, c)
  }

  /** The conversation is in no window now; only places have changed otherwise. */
  ghost predicate PutOut(convs: Records, convs': Records, c: Id) {
    && OnlyMoved(convs, convs') && c in convs && convs'[c].window == None
    && forall d | d in convs && d != c :: convs'[d].window == convs[d].window
  }

  /** No record outside of `s` has changed. */
  ghost predicate OnlyIn(convs: Records, convs': Records, s: seq<Id>) {
    convs'.Keys == convs.Keys && forall c | c in convs && c !in s :: convs'[c] == convs[c]
  }

  lemma RemovedLast(s: seq<Id>, c: Id)
    requires Distinct(s) && c in s
    ensures |Removed(s, c)| == |s| - 1
  {
    var i :| 0 <= i < |s| && s[i] == c;
    RemovedAt(s, i);
  }

  // ----- conversations by name

  /** The first conversation of an account whose name comes to the same. */
  function FirstNamed(s: seq<Id>, convs: Records, key: (Account, string) -> string, account: Account,
                      name: string): Option<Id>
  {
    if s == [] then None
    else if s[0] in convs && key(account, convs[s[0]].name) == key(account, name) && account == convs[s[0]].account then
      Some(s[0])
    else FirstNamed(s[1..], convs, key, account, name)
  }

  predicate Named(convs: Records, key: (Account, string) -> string, kind: Kind, account: Account, name: string, c: Id) {
    c in convs && convs[c].kind == kind && convs[c].account == account
      && key(account, convs[c].name) == key(account, name)
  }

  /** There are no two conversations of an account with the same person. */
  ghost predicate OneEach(convs: Records, key: (Account, string) -> string) {
    forall c, d | c in convs && d in convs && c != d && convs[c].kind == Im ::
      !Named(convs, key, Im, convs[c].account, convs[c].name, d)
  }

  /** One conversation is new and has the window it was put into; the others are as they were, but for their places. */
  ghost predicate IsNew(convs: Records, convs': Records, n: Id, kind: Kind, account: Account, name: string) {
    && n !in convs && convs'.Keys == convs.Keys + {n}
    && convs'[n].kind == kind && convs'[n].account == account && convs'[n].name == name && !convs'[n].left
    && forall c | c in convs :: convs'[c].(pos := convs[c].pos) == convs[c]
  }

  lemma {:induction false} FirstIs(s: seq<Id>, convs: Records, key: (Account, string) -> string, account: Account,
                                   name: string)
    ensures var f := FirstNamed(s, convs, key, account, name);
      && (f.Some? ==>
          f.value in s && f.value in convs && convs[f.value].account == account
          && key(account, convs[f.value].name) == key(account, name))
      && (f.None? ==> forall c, kind | c in s :: !Named(convs, key, kind, account, name, c))
    decreases |s|
  {
    if s != [] {
      FirstIs(s[1..], convs, key, account, name);
    }
  }

  lemma IsLive(conversations: seq<Id>, ims: seq<Id>, chats: seq<Id>, convs: Records, c: Option<Id>)
    requires Listed(conversations, ims, chats, convs, {}) && (c.Some? ==> c.value in conversations)
    ensures c.Some? ==> c.value in convs
  {
  }

  /** A chat that is used again has not been left. */
  function Rejoined(x: Conversation): Conversation { if x.kind == Chat then x.(left := false) else x }

  lemma JoinedAgain(windows: seq<Id>, wins: Windows, conversations: seq<Id>, ims: seq<Id>, chats: seq<Id>,
                    convs: Records, convs': Records, c: Id,
                    key: (Account, string) -> string)
    requires c in convs && convs' == convs[c := Rejoined(convs[c])]
    requires Placed(windows, wins, convs) && Listed(conversations, ims, chats, convs, {})
    ensures Placed(windows, wins, convs') && Listed(conversations, ims, chats, convs', {})
    ensures OneEach(convs, key) ==> OneEach(convs', key)
  {
    hide Listed, Placed;
    ListedSame(conversations, ims, chats, convs, convs', {});
    PlacedSame(windows, wins, convs, convs');
  }

  lemma PlacedSame(windows: seq<Id>, wins: Windows, convs: Records, convs': Records)
    requires Placed(windows, wins, convs) && convs'.Keys == convs.Keys
    requires forall c | c in convs && c in convs' ::
      convs'[c].window == convs[c].window && convs'[c].pos == convs[c].pos
    ensures Placed(windows, wins, convs')
  {
    hide Distinct;
    forall w | w in wins ensures Holds(wins, convs', w) {
      assert Holds(wins, convs, w);
      forall i | 0 <= i < |wins[w].conversations| ensures IsAt(convs', wins[w].conversations[i], w, i) {
        assert IsAt(convs, wins[w].conversations[i], w, i) && wins[w].conversations[i] in convs'.Keys;
      }
    }
    forall c | c in convs' && convs'[c].window.Some?
      ensures convs'[c].window.value in wins && c in wins[convs'[c].window.value].conversations
    {
      assert c in convs.Keys;
    }
  }

  lemma NewIs(convs: Records, convs1: Records, convs': Records, n: Id, kind: Kind, account: Account, name: string)
    requires n !in convs && convs1 == convs[n := Conversation(kind, account, name, false, None, 0)]
      && OnlyMoved(convs1, convs')
    requires forall c | c in convs1 && c in convs' && c != n :: convs'[c].window == convs1[c].window
    ensures IsNew(convs, convs', n, kind, account, name)
  {
    assert convs'.Keys == convs1.Keys == convs.Keys + {n};
    forall c | c in convs ensures convs'[c].(pos := convs[c].pos) == convs[c] {
      assert c in convs1;
    }
  }

  /** A new conversation is the only one with somebody if and only if there was none. */
  lemma OneMore(convs: Records, convs': Records, key: (Account, string) -> string, n: Id, kind: Kind, account: Account,
                name: string)
    requires IsNew(convs, convs', n, kind, account, name)
    ensures OneEach(convs, key) ==>
      (OneEach(convs', key) <==> kind != Im || !exists c :: c in convs && Named(convs, key, Im, account, name, c))
  {
    hide Named;
    assert forall c :: c in convs'.Keys <==> c in convs.Keys || c == n;
    if OneEach(convs, key) {
      forall c | c in convs' && c != n
        ensures c in convs && Named(convs', key, Im, account, name, c) == Named(convs, key, Im, account, name, c)
      {
        SameNamed(convs, convs', key, account, name, c);
      }
      if OneEach(convs', key) && kind == Im {
        forall c | c in convs ensures !Named(convs, key, Im, account, name, c) {
          assert n in convs' && c in convs' && c != n;
        }
      }
      if kind != Im || !exists c :: c in convs && Named(convs, key, Im, account, name, c) {
        forall c, d | c in convs' && d in convs' && c != d && convs'[c].kind == Im
          ensures !Named(convs', key, Im, convs'[c].account, convs'[c].name, d)
        {
          if d == n {
            NamedBack(convs', key, account, name, n, c);
          } else if c != n {
            SameNamed(convs, convs', key, convs[c].account, convs[c].name, d);
          }
        }
      }
    }
  }

  lemma SameNamed(convs: Records, convs': Records, key: (Account, string) -> string, account: Account, name: string,
                  c: Id)
    requires c in convs && c in convs' && convs'[c].kind == convs[c].kind && convs'[c].account == convs[c].account
      && convs'[c].name == convs[c].name
    ensures Named(convs', key, Im, account, name, c) == Named(convs, key, Im, account, name, c)
  {
  }

  lemma NamedBack(convs: Records, key: (Account, string) -> string, account: Account, name: string, n: Id, c: Id)
    requires n in convs && c in convs && convs[n].account == account && convs[n].name == name && convs[c].kind == Im
    ensures Named(convs, key, Im, convs[c].account, convs[c].name, n) ==>
      convs[n].kind == Im && Named(convs, key, Im, account, name, c)
  {
  }

  class Conversations {
    var windows: seq<Id>
    var conversations: seq<Id>
    var ims: seq<Id>
    var chats: seq<Id>
    /** The windows and conversations that have not been freed. */
    var wins: Windows
    var convs: Records
    var nextId: Id
    /** What a name of an account comes to: normalised, if its protocol wants that, and without case. */
    const key: (Account, string) -> string

    ghost predicate Known()
      reads this
    {
      (forall w | w in wins :: w < nextId) && (forall c | c in convs :: c < nextId)
    }

    ghost predicate Valid()
      reads this
    {
      Placed(windows, wins, convs) && Listed(conversations, ims, chats, convs, {}) && Known()
    }

    constructor (key: (Account, string) -> string)
      ensures Valid() && windows == [] && conversations == [] && this.key == key
    {
      this.key := key;
      windows, conversations, ims, chats, wins, convs, nextId := [], [], [], [], map[], map[], 0;
    }

    /** `update_conv_indexes` */
    method UpdateIndexes(win: Id)
      requires win in wins && Distinct(wins[win].conversations) && forall c | c in wins[win].conversations :: c in convs
      modifies `convs
      ensures Renumbered(old(convs), convs, wins[win].conversations)
    {
      hide Distinct;
      var l := wins[win].conversations;
      var i := 0;
      while i < |l|
        invariant i <= |l| && convs.Keys == old(convs).Keys
        invariant forall j | 0 <= j < i :: l[j] in convs && convs[l[j]] == old(convs)[l[j]].(pos := j)
        invariant forall c | c in convs && c !in l[..i] :: convs[c] == old(convs)[c]
      {
        assert l[i] in old(convs).Keys;
        NotBefore(l, i);
        convs := convs[l[i] := convs[l[i]].(pos := i)];
        i := i + 1;
      }
      assert l[..i] == l;
    }

    lemma NotBefore(l: seq<Id>, i: nat)
      requires Distinct(l) && i < |l|
      ensures l[i] !in l[..i] && l[..i + 1] == l[..i] + [l[i]]
      ensures forall j | 0 <= j < i :: l[j] != l[i]
    {
    }

    /** `gaim_conv_window_new` */
    method NewWindow() returns (win: Id)
      requires Placed(windows, wins, convs) && Known()
      modifies `windows, `wins, `nextId
      ensures Placed(windows, wins, convs) && Known()
      ensures win !in old(wins) && windows == old(windows) + [win] && wins == old(wins)[win := Window([], 0)]
    {
      win := nextId;
      PlacedNew(windows, wins, convs, win);
      wins := wins[win := Window([], 0)];
      windows := windows + [win];
      nextId := nextId + 1;
    }

    /** `gaim_conv_window_destroy`: the conversations of the window go one by one, and the last takes the window
        along. */
    method DestroyWindow(win: Id)
      requires Placed(windows, wins, convs) && Known() && win in wins
      requires wins[win].conversations != [] ==> Valid()
      modifies this
      ensures Placed(windows, wins, convs) && Known() && (old(wins[win].conversations) != [] ==> Valid())
      ensures windows == Removed(old(windows), win) && wins == old(wins) - {win}
      ensures var gone := Members(old(wins[win].conversations));
        convs == old(convs) - gone && conversations == Minus(old(conversations), gone)
      ensures old(wins[win].conversations) == [] ==>
        convs == old(convs) && conversations == old(conversations) && ims == old(ims) && chats == old(chats)
      decreases |wins[win].conversations|, 2
    {
      hide Placed, Distinct, Listed, WinsWithout, WindowsWithout, Removed, OnlyIn;
      MinusNone(conversations);
      MembersOf(windows, wins, convs, win);
      ListDistinct();
      if wins[win].count > 0 {
        ghost var l := wins[win].conversations;
        var node := wins[win].conversations;
        ghost var i := 0;
        Gone(l, 0);
        SameOnly(convs, l);
        assert wins == wins[win := wins[win]];
        while node != []
          invariant i <= |l| && node == l[i..] && Valid()
          invariant OnlyIn(old(convs) - GoneUpTo(l, i), convs, l)
            && conversations == Minus(old(conversations), GoneUpTo(l, i))
          invariant Emptying(old(windows), old(wins), windows, wins, win, l[i..])
          decreases |node|
        {
          var conv := node[0];
          node := node[1..];
          Gone(l, i);
          Next(l, i);
          MembersOf(windows, wins, convs, win);
          EmptyNext(old(windows), old(wins), windows, wins, win, l[i..]);
          ghost var convs1 := convs;
          MinusMore(old(conversations), GoneUpTo(l, i), conv);
          DestroyConversation(conv);
          NextOnly(old(convs), GoneUpTo(l, i), convs1, conv, convs, l, l[i..]);
          i := i + 1;
        }
        Gone(l, i);
        AllGone(old(convs), convs, l);
        assert Emptying(old(windows), old(wins), windows, wins, win, []);
      } else {
        assert Members([]) == {};
        PlacedGone(windows, wins, convs, win);
        windows := Removed(windows, win);
        wins := wins - {win};
      }
    }

    lemma ListDistinct()
      ensures Listed(conversations, ims, chats, convs, {}) ==> Distinct(conversations)
    {
    }

    /** `gaim_conversation_destroy`, as far as the lists are concerned: exactly this conversation goes. */
    method DestroyConversation(conv: Id)
      requires Valid() && conv in convs
      modifies this
      ensures Valid() && conversations == Removed(old(conversations), conv)
      ensures SameWindows(old(convs) - {conv}, convs)
      ensures var win := old(convs[conv].window);
        if win == None then windows == old(windows) && wins == old(wins) && convs == old(convs) - {conv}
        else
          && Lost(old(windows), old(wins), windows, wins, win.value, conv)
          && OnlyIn(old(convs) - {conv}, convs, old(wins[win.value].conversations))
      decreases if convs[conv].window.Some? then |wins[convs[conv].window.value].conversations| else 0, 1
    {
      hide Placed, Distinct, Listed;
      var win := convs[conv].window;
      Delist(conv);
      conversations := Removed(conversations, conv);
      if convs[conv].kind == Im {
        ims := Removed(ims, conv);
      } else if convs[conv].kind == Chat {
        chats := Removed(chats, conv);
      }
      if win.Some? {
        AtPlace(conv);
        var c := RemoveConversation(win.value, convs[conv].pos);
      }
      ListedSame(conversations, ims, chats, old(convs), convs, {conv});
      ListedLess(conversations, ims, chats, convs, conv);
      PlacedLess(windows, wins, convs, conv);
      convs := convs - {conv};
    }

    /** A conversation that is in no window becomes the last of a window. */
    method AppendTo(win: Id, conv: Id) returns (r: nat)
      requires Placed(windows, wins, convs) && Known() && win in wins && conv in convs && convs[conv].window == None
      modifies `wins, `convs
      ensures Placed(windows, wins, convs) && Known() && r == |old(wins[win]).conversations|
      ensures convs == old(convs)[conv := old(convs[conv]).(window := Some(win), pos := r)]
      ensures wins == old(wins)[win := Window(old(wins[win]).conversations + [conv], r + 1)]
    {
      hide Placed, Distinct;
      ghost var convs1 := convs;
      PlacedLast(windows, wins, convs, win, conv);
      MembersOf(windows, wins, convs, win);
      wins := wins[win := Window(wins[win].conversations + [conv], wins[win].count + 1)];
      convs := convs[conv := convs[conv].(pos := wins[win].count - 1)];
      convs := convs[conv := convs[conv].(window := Some(win))];
      assert convs == convs1[conv := convs1[conv].(window := Some(win), pos := wins[win].count - 1)];
      r := wins[win].count - 1;
    }

    /** `gaim_conv_window_add_conversation`; the conversation is not alone in this very window. */
    method AddConversation(win: Id, conv: Id) returns (r: nat)
      requires Valid() && win in wins && conv in convs
      requires convs[conv].window == Some(win) ==> |wins[win].conversations| > 1
      modifies this
      ensures Valid() && conversations == old(conversations) && OnlyMoved(old(convs), convs)
      ensures conv in convs && convs[conv].window == Some(win) && convs[conv].pos == r
      ensures forall c | c in old(convs) && c != conv :: convs[c].window == old(convs)[c].window
      ensures var w0 := old(convs[conv].window);
        var before := if w0.Some? then WinsWithout(old(wins), w0.value, conv) else old(wins);
        && windows == (if w0.Some? then WindowsWithout(old(windows), old(wins), w0.value) else old(windows))
        && win in before && wins ==
          before[win := Window(before[win].conversations + [conv], |before[win].conversations| + 1)]
        && r == |before[win].conversations|
    {
      hide Placed, Distinct, Listed, WindowsWithout, Removed, OnlyMoved;
      if convs[conv].window.Some? {
        AtPlace(conv);
        var c := RemoveConversation(convs[conv].window.value, convs[conv].pos);
      } else {
        NoneMoved(convs);
      }
      ghost var convs1 := convs;
      r := AppendTo(win, conv);
      MovedMore(old(convs), convs1, convs, conv, win, r);
      ListedSame(conversations, ims, chats, old(convs), convs, {});
    }

    /** `gaim_conv_window_move_conversation` */
    method MoveConversation(win: Id, index: nat, newIndex: nat)
      requires Valid() && win in wins
      modifies `wins, `convs
      ensures Valid() && SameWindows(old(convs), convs) && OnlyIn(old(convs), convs, old(wins[win].conversations))
      ensures wins == if index >= |old(wins[win].conversations)| || index == newIndex then old(wins)
                      else old(wins)[win := Window(Moved(old(wins[win].conversations), index, newIndex),
                                                   old(wins[win].count))]
    {
      hide Placed, Distinct, Listed, Moved, Renumbered;
      MembersOf(windows, wins, convs, win);
      if index >= wins[win].count || index == newIndex {
        return;
      }
      var new_index := newIndex;
      if new_index > wins[win].count {
        new_index := wins[win].count;
      }
      ghost var s, wins0, convs0 := wins[win].conversations, wins, convs;
      var conv := wins[win].conversations[index];
      if new_index > index {
        new_index := new_index - 1;
      }
      var rest := Without(wins[win].conversations, index);
      MovedMembers(s, index, newIndex);
      wins := wins[win := Window(rest[..new_index] + [conv] + rest[new_index..], wins[win].count)];
      assert wins[win].conversations == Moved(s, index, newIndex) by {
        MovedIs(s, index, newIndex);
      }
      UpdateIndexes(win);
      PlacedAgain(windows, wins0, convs0, convs0, convs, win, wins[win].conversations, {});
      RenumberedOnly(convs0, convs, wins[win].conversations, s);
      ListedSame(conversations, ims, chats, convs0, convs, {});
    }

    /** `gaim_find_conversation_with_account`: the first one of that account whose name comes to the same. */
    method FindConversation(account: Account, name: string) returns (conv: Option<Id>)
      requires Valid()
      ensures conv == FirstNamed(conversations, convs, key, account, name)
    {
      var i := 0;
      while i < |conversations|
        invariant i <= |conversations|
        invariant FirstNamed(conversations, convs, key, account, name) ==
          FirstNamed(conversations[i..], convs, key, account, name)
      {
        var c := conversations[i];
        if key(account, convs[c].name) == key(account, name) && account == convs[c].account {
          return Some(c);
        }
        i := i + 1;
      }
      return None;
    }

    /** The part of `gaim_conversation_new` that makes a conversation. With `tabs` it goes to the window made last. */
    method OpenConversation(kind: Kind, account: Account, name: string, tabs: bool) returns (n: Id)
      requires Valid()
      modifies this
      ensures Valid() && conversations == old(conversations) + [n] && n !in old(convs)
        && IsNew(old(convs), convs, n, kind, account, name)
      ensures if old(windows) == [] || !tabs then |windows| == |old(windows)| + 1
        && windows[..|old(windows)|] == old(windows)
              else windows == old(windows)
      ensures windows != [] && convs[n].window == Some(windows[|windows| - 1])
    {
      hide Placed, Distinct, Listed, OnlyMoved;
      n := nextId;
      nextId := nextId + 1;
      ghost var x := Conversation(kind, account, name, false, None, 0);
      PlacedMore(windows, wins, convs, n, x);
      ListedMore(conversations, ims, chats, convs, n, x);
      convs := convs[n := Conversation(kind, account, name, false, None, 0)];
      if kind == Im {
        ims := ims + [n];
      } else if kind == Chat {
        chats := chats + [n];
      }
      conversations := conversations + [n];
      ghost var convs1 := convs;
      var win;
      if windows == [] || !tabs {
        win := NewWindow();
      } else {
        win := windows[|windows| - 1];
        ListedWindows(windows, wins, convs);
      }
      var r := AddConversation(win, n);
      NewIs(old(convs), convs1, convs, n, kind, account, name);
    }

    /** `gaim_conversation_new`. The first conversation of that account and name is used again if it is of the same
        kind and, as a chat, has been left. Else there is a new one, if the account is connected. No second
        conversation with somebody comes about if and only if the first one of the name is one to be used again, or
        none is with that person. */
    method NewConversation(kind: Kind, account: Account, name: string, connected: bool, tabs: bool)
      returns (conv: Option<Id>)
      requires Valid()
      modifies this
      ensures Valid()
      ensures var found := FirstNamed(old(conversations), old(convs), key, account, name);
        if found.Some? && found.value in old(convs) && old(convs)[found.value].kind == kind
           && (kind == Chat ==> old(convs)[found.value].left) then
          && conv == found && convs == old(convs)[found.value := Rejoined(old(convs)[found.value])]
          && windows == old(windows) && wins == old(wins) && conversations == old(conversations)
        else if !connected then
          conv == None && convs == old(convs) && windows == old(windows) && wins == old(wins)
            && conversations == old(conversations)
        else
          && conv.Some? && IsNew(old(convs), convs, conv.value, kind, account, name)
          && conversations == old(conversations) + [conv.value] && windows != []
          && convs[conv.value].window == Some(windows[|windows| - 1])
          && (if old(windows) == [] || !tabs then |windows| == |old(windows)| + 1
              && windows[..|old(windows)|] == old(windows)
              else windows == old(windows))
      ensures old(OneEach(convs, key)) ==>
        var found := FirstNamed(old(conversations), old(convs), key, account, name);
        (OneEach(convs, key) <==>
           || (found.Some? && found.value in old(convs) && old(convs)[found.value].kind == kind)
           || !connected || kind != Im
           || !exists c :: c in old(convs) && Named(old(convs), key, Im, account, name, c))
    {
      hide Placed, Distinct, Listed, OneEach, Named, FirstNamed, IsNew;
      conv := FindConversation(account, name);
      FirstIs(conversations, convs, key, account, name);
      IsLive(conversations, ims, chats, convs, conv);
      if conv.Some? && convs[conv.value].kind == kind {
        if kind != Chat || convs[conv.value].left {
          ghost var convs0 := convs;
          if kind == Chat {
            convs := convs[conv.value := convs[conv.value].(left := false)];
          }
          JoinedAgain(windows, wins, conversations, ims, chats, convs0, convs, conv.value, key);
          return;
        }
      }
      if !connected {
        return None;
      }
      var n := OpenConversation(kind, account, name, tabs);
      OneMore(old(convs), convs, key, n, kind, account, name);
      return Some(n);
    }

    /** `gaim_conversations_uninit`: all conversations go, and every window that had one. */
    method DestroyAll()
      requires Valid()
      modifies this
      ensures Valid() && conversations == [] && convs == map[]
      ensures forall w | w in wins :: w in old(wins) && old(wins)[w].conversations == []
    {
      hide Placed, Distinct, Listed;
      while conversations != []
        invariant Valid()
        invariant forall w | w in wins ::
          w in old(wins) && (wins[w].conversations == [] ==> old(wins)[w].conversations == [])
        decreases |conversations|
      {
        ghost var before := wins;
        FirstLive(conversations, ims, chats, convs);
        var conv := conversations[0];
        if convs[conv].window.Some? {
          AtPlace(conv);
          MembersOf(windows, wins, convs, convs[conv].window.value);
          LossLeaves(windows, wins, convs[conv].window.value, conv);
        }
        DestroyConversation(conv);
      }
      NobodyLeft(windows, wins, convs, conversations, ims, chats);
    }

    lemma AtPlace(c: Id)
      requires Placed(windows, wins, convs) && c in convs && convs[c].window.Some?
      ensures var w := convs[c].window.value;
        && w in wins && convs[c].pos < wins[w].count == |wins[w].conversations|
        && wins[w].conversations[convs[c].pos] == c
    {
      var w := convs[c].window.value;
      assert Holds(wins, convs, w);
      var i :| 0 <= i < |wins[w].conversations| && wins[w].conversations[i] == c;
      assert IsAt(convs, wins[w].conversations[i], w, i);
    }

    lemma Delist(c: Id)
      requires Listed(conversations, ims, chats, convs, {}) && c in convs
      ensures Listed(Removed(conversations, c), if convs[c].kind == Im then Removed(ims, c) else ims,
                     if convs[c].kind == Chat then Removed(chats, c) else chats, convs, {c})
    {
      RemovedMembers(conversations, c);
      OfKindRemoved(conversations, convs, Im, c);
      OfKindRemoved(conversations, convs, Chat, c);
    }

    /** `gaim_conv_window_remove_conversation` */
    method RemoveConversation(win: Id, index: nat) returns (conv: Option<Id>)
      requires Placed(windows, wins, convs) && Known() && win in wins
      modifies this
      ensures Placed(windows, wins, convs) && Known()
      ensures conversations == old(conversations) && ims == old(ims) && chats == old(chats)
      ensures index >= old(wins[win].count) ==>
        conv == None && windows == old(windows) && wins == old(wins) && convs == old(convs)
      ensures index < old(wins[win].count) == |old(wins[win].conversations)| ==>
        && conv == Some(old(wins[win].conversations)[index])
        && Lost(old(windows), old(wins), windows, wins, win, conv.value)
        && PutOut(old(convs), convs, conv.value) && OnlyIn(old(convs), convs, old(wins[win].conversations))
      decreases |wins[win].conversations|, 0
    {
      hide Placed, Distinct, Renumbered;
      if index >= wins[win].count {
        return None;
      }
      MembersOf(windows, wins, convs, win);
      ghost var s := wins[win].conversations;
      var c := wins[win].conversations[index];
      conv := Some(c);
      RemovedAt(s, index);
      WithoutMembers(s, index);
      ghost var wins0, convs0 := wins, convs;
      wins := wins[win := Window(Without(wins[win].conversations, index), wins[win].count - 1)];
      convs := convs[c := convs[c].(window := None)];
      ghost var convs1 := convs;
      if wins[win].count == 0 {
        NothingToRenumber(convs1);
        PlacedAgain(windows, wins0, convs0, convs1, convs, win, wins[win].conversations, {c});
        DestroyWindow(win);
      } else {
        UpdateIndexes(win);
        PlacedAgain(windows, wins0, convs0, convs1, convs, win, wins[win].conversations, {c});
      }
      OutOf(convs0, convs1, convs, s, c, Without(s, index));
    }
  }

  lemma NothingToRenumber(convs: Records)
    ensures Renumbered(convs, convs, [])
  {
  }

  lemma OutOf(convs0: Records, convs1: Records, convs: Records, s: seq<Id>, c: Id, t: seq<Id>)
    requires c in convs0 && convs1 == convs0[c := convs0[c].(window := None)] && c in s && c !in t
    requires Renumbered(convs1, convs, t) && forall d | d in t :: d in s
    ensures PutOut(convs0, convs, c) && OnlyIn(convs0, convs, s)
  {
    forall d | d in convs0
      ensures d in convs && convs[d].kind == convs0[d].kind && (d != c ==> convs[d].window == convs0[d].window)
        && (d !in s ==> convs[d] == convs0[d])
    {
      assert d in convs1.Keys;
      if d in t {
        var i :| 0 <= i < |t| && t[i] == d;
      }
    }
  }

  ghost function Members(l: seq<Id>): set<Id> { set c | c in l }

  lemma Next(l: seq<Id>, i: nat)
    requires i < |l|
    ensures l[i..][0] == l[i] && l[i..][1..] == l[i + 1..] && (|l[i..]| == 1 <==> i + 1 == |l|)
    ensures Removed(l[i..], l[i]) == l[i + 1..] && l[i] in l
  {
  }

  /** A window whose conversations go one by one still has `s`; without any it is gone. */
  ghost predicate Emptying(windows: seq<Id>, wins: Windows, windows': seq<Id>, wins': Windows, w: Id, s: seq<Id>) {
    if s == [] then windows' == Removed(windows, w) && wins' == wins - {w}
    else windows' == windows && w in wins' && wins'[w].conversations == s && wins' == wins[w := wins'[w]]
  }

  lemma EmptyNext(windows: seq<Id>, wins: Windows, windows1: seq<Id>, wins1: Windows, w: Id, s: seq<Id>)
    requires s != [] && Emptying(windows, wins, windows1, wins1, w, s) && Distinct(s)
    ensures Emptying(windows, wins, WindowsWithout(windows1, wins1, w), WinsWithout(wins1, w, s[0]), w, s[1..])
  {
    var v := WinsWithout(wins1, w, s[0]);
    if |s| > 1 {
      assert v == wins[w := v[w]];
    } else {
      assert v == wins - {w};
    }
  }

  lemma NextOnly(convs0: Records, gone: set<Id>, convs1: Records, c: Id, convs: Records, l: seq<Id>, s: seq<Id>)
    requires OnlyIn(convs0 - gone, convs1, l) && OnlyIn(convs1 - {c}, convs, s) && forall d | d in s :: d in l
    ensures OnlyIn(convs0 - (gone + {c}), convs, l)
  {
    assert convs0.Keys - (gone + {c}) == convs1.Keys - {c};
    forall d | d in convs0 - (gone + {c}) && d !in l ensures d in convs && convs[d] == convs0[d] {
      assert d in (convs0 - gone).Keys && d in (convs1 - {c}).Keys;
    }
  }

  lemma SameOnly(convs: Records, l: seq<Id>)
    ensures OnlyIn(convs - {}, convs, l)
  {
  }

  lemma AllGone(convs0: Records, convs: Records, l: seq<Id>)
    requires OnlyIn(convs0 - Members(l), convs, l)
    ensures convs == convs0 - Members(l)
  {
  }

  ghost function GoneUpTo(l: seq<Id>, i: nat): set<Id>
    requires i <= |l|
  {
    set c | c in l[..i]
  }

  lemma Gone(l: seq<Id>, i: nat)
    requires i <= |l|
    ensures l[0..] == l && GoneUpTo(l, 0) == {} && GoneUpTo(l, |l|) == Members(l)
    ensures i < |l| ==> GoneUpTo(l, i + 1) == GoneUpTo(l, i) + {l[i]}
    ensures Distinct(l) && i < |l| ==> l[i] !in GoneUpTo(l, i)
  {
    assert l[..|l|] == l;
    if i < |l| {
      assert l[..i + 1] == l[..i] + [l[i]];
    }
  }

  lemma MovedIs(s: seq<Id>, i: nat, j: nat)
    requires i < |s|
    ensures var k := Landing(|s|, i, j); Moved(s, i, j) == Without(s, i)[..k] + [s[i]] + Without(s, i)[k..]
  {
  }

  lemma InsertedMembers(u: seq<Id>, k: nat, x: Id)
    requires Distinct(u) && x !in u && k <= |u|
    ensures Distinct(u[..k] + [x] + u[k..]) && forall c :: c in u[..k] + [x] + u[k..] <==> c in u || c == x
  {
    assert u == u[..k] + u[k..];
  }

  lemma MovedMembers(s: seq<Id>, i: nat, j: nat)
    requires i < |s| && Distinct(s)
    ensures Distinct(Moved(s, i, j)) && |Moved(s, i, j)| == |s| && forall c :: c in Moved(s, i, j) <==> c in s
  {
    hide Distinct;
    WithoutMembers(s, i);
    InsertedMembers(Without(s, i), Landing(|s|, i, j), s[i]);
  }

  lemma RenumberedOnly(convs: Records, convs': Records, t: seq<Id>, s: seq<Id>)
    requires Renumbered(convs, convs', t) && forall c :: c in t <==> c in s
    ensures SameWindows(convs, convs') && OnlyIn(convs, convs', s)
  {
    forall c | c in convs
      ensures c in convs' && convs'[c].window == convs[c].window && convs'[c].kind == convs[c].kind
        && (c !in s ==> convs'[c] == convs[c])
    {
      assert c in convs'.Keys;
      if c in t {
        var i :| 0 <= i < |t| && t[i] == c;
      }
    }
  }

  lemma PlacedMore(windows: seq<Id>, wins: Windows, convs: Records, c: Id, x: Conversation)
    requires Placed(windows, wins, convs) && c !in convs && x.window == None
    ensures Placed(windows, wins, convs[c := x])
  {
    var convs' := convs[c := x];
    forall v | v in wins ensures Holds(wins, convs', v) {
      assert Holds(wins, convs, v);
      forall i | 0 <= i < |wins[v].conversations| ensures IsAt(convs', wins[v].conversations[i], v, i) {
        assert IsAt(convs, wins[v].conversations[i], v, i);
      }
    }
  }

  lemma ListedMore(conversations: seq<Id>, ims: seq<Id>, chats: seq<Id>, convs: Records, c: Id, x: Conversation)
    requires Listed(conversations, ims, chats, convs, {}) && c !in convs
    ensures Listed(conversations + [c], if x.kind == Im then ims + [c] else ims,
                   if x.kind == Chat then chats + [c] else chats, convs[c := x], {})
  {
    OfKindSame(conversations, convs, convs[c := x], Im);
    OfKindSame(conversations, convs, convs[c := x], Chat);
    OfKindAppended(conversations, convs[c := x], Im, c);
    OfKindAppended(conversations, convs[c := x], Chat, c);
  }

  lemma ListedWindows(windows: seq<Id>, wins: Windows, convs: Records)
    requires Placed(windows, wins, convs) && windows != []
    ensures windows[|windows| - 1] in wins
  {
  }

  lemma FirstLive(conversations: seq<Id>, ims: seq<Id>, chats: seq<Id>, convs: Records)
    requires Listed(conversations, ims, chats, convs, {}) && conversations != []
    ensures conversations[0] in convs && |Removed(conversations, conversations[0])| < |conversations|
  {
  }

  lemma LossLeaves(windows: seq<Id>, wins: Windows, w: Id, c: Id)
    requires w in wins && Distinct(wins[w].conversations) && c in wins[w].conversations
    ensures forall v | v in WinsWithout(wins, w, c) ::
      v in wins && (WinsWithout(wins, w, c)[v].conversations == [] ==> wins[v].conversations == [])
  {
    RemovedLast(wins[w].conversations, c);
  }

  lemma NobodyLeft(windows: seq<Id>, wins: Windows, convs: Records, conversations: seq<Id>, ims: seq<Id>,
                   chats: seq<Id>)
    requires Placed(windows, wins, convs) && Listed(conversations, ims, chats, convs, {}) && conversations == []
    ensures convs == map[] && forall w | w in wins :: wins[w].conversations == []
  {
    forall w | w in wins ensures wins[w].conversations == [] {
      if wins[w].conversations != [] {
        FirstKnown(wins, convs, w);
      }
    }
  }

  lemma FirstKnown(wins: Windows, convs: Records, w: Id)
    requires Holds(wins, convs, w) && wins[w].conversations != []
    ensures wins[w].conversations[0] in convs
  {
    assert IsAt(convs, wins[w].conversations[0], w, 0);
  }
}
