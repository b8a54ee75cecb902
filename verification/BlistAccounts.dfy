/** The buddy list while an account comes or goes: the nodes of the list are visited one by one. */
module BlistAccounts {
  import opened BlistTree
  import opened BlistState
  import opened BlistDerived
  import opened Wrappers

  /** Whether a node of the account is counted. */
  predicate Counts(account: Account, a: Account, connected: set<Account>, adding: bool, visited: bool) {
    if account == a then adding == visited else account in connected
  }

  /** The buddies and the chats that are counted when the nodes `done` have been visited. */
  function Marks(buddies: Buddies, a: Account, connected: set<Account>, adding: bool, done: set<Id>): set<Id> {
    set b | b in buddies && Counts(buddies[b].account, a, connected, adding, b in done)
  }

  function ChatMarks(chats: Chats, a: Account, connected: set<Account>, adding: bool, done: set<Id>): set<Id> {
    set n | n in chats && Counts(chats[n], a, connected, adding, n in done)
  }

  function Afterwards(connected: set<Account>, a: Account, adding: bool): set<Account> {
    if adding then connected + {a} else connected - {a}
  }

  /** The best buddies are those for the new set of accounts where the contact was visited, else for the old one;
      the contact being visited has none. */
  ghost predicate MixedBests(cfg: Config, buddies: Buddies, contacts: Contacts, kids: Kids, connected: set<Account>,
                             after: set<Account>,
                             done: set<Id>, but: Option<Id>)
  {
    forall c | c in contacts && Some(c) != but ::
      c in kids && IsBest(cfg, buddies, if c in done then after else connected, kids[c], contacts[c].priority)
  }

  /** The list in the middle of it. */
  ghost predicate Mid(cfg: Config, kinds: KindMap, links: LinkMap, root: Option<Id>, top: seq<Id>, kids: Kids,
                      groups: Groups,
                      contacts: Contacts, buddies: Buddies, chats: Chats, nextId: Id, a: Account,
                      connected: set<Account>,
                      adding: bool, done: set<Id>, but: Option<Id>)
  {
    && Tree(kinds, links, root, top, kids, {})
    && Records(kinds, groups, contacts, buddies, chats, nextId)
    && Totals(contacts, kids) && Scores(cfg)
    && Tally(CurOf(contacts), CurOfGroups(groups), kids, Marks(buddies, a, connected, adding, done),
             ChatMarks(chats, a, connected, adding, done))
    && MixedBests(cfg, buddies, contacts, kids, connected, Afterwards(connected, a, adding), done, but)
  }

  /** The online counts then, when they count the buddies `up`. */
  ghost predicate MidOnline(kids: Kids, groups: Groups, contacts: Contacts, chats: Chats, a: Account,
                            connected: set<Account>,
                            adding: bool, done: set<Id>, up: set<Id>)
  {
    Tally(OnlineOf(contacts), OnlineOfGroups(groups), kids, up, ChatMarks(chats, a, connected, adding, done))
  }

  // ----- the beginning and the end

  lemma MarksStart(buddies: Buddies, chats: Chats, a: Account, connected: set<Account>, adding: bool)
    requires adding == (a !in connected)
    ensures Marks(buddies, a, connected, adding, {}) == Live(buddies, connected)
    ensures ChatMarks(chats, a, connected, adding, {}) == LiveChats(chats, connected)
  {
  }

  lemma MidStart(cfg: Config, kinds: KindMap, links: LinkMap, root: Option<Id>, top: seq<Id>, kids: Kids,
                 groups: Groups,
                 contacts: Contacts, buddies: Buddies, chats: Chats, nextId: Id, a: Account, connected: set<Account>,
                 adding: bool)
    requires OkState(cfg, kinds, links, root, top, kids, {}, groups, contacts, buddies, chats, nextId, connected)
    requires adding == (a !in connected)
    ensures Mid(cfg, kinds, links, root, top, kids, groups, contacts, buddies, chats, nextId, a, connected, adding, {},
                None)
    ensures OnlineTally(contacts, groups, kids, buddies, chats, connected) ==>
              MidOnline(kids, groups, contacts, chats, a, connected, adding, {}, Up(buddies))
  {
    hide Tree, Records, Totals, Tally, IsBest, Scores, Marks, ChatMarks, Live, LiveChats;
    MarksStart(buddies, chats, a, connected, adding);
  }

  /** Everything in the list has been visited. */
  ghost predicate AllDone(top: seq<Id>, kids: Kids, done: set<Id>) {
    && (forall g, n | g in top && g in kids && n in kids[g] :: n in done)
    && (forall g, n, b | g in top && g in kids && n in kids[g] && n in kids && b in kids[n] :: b in done)
  }

  lemma MarksEnd(kinds: KindMap, links: LinkMap, root: Option<Id>, top: seq<Id>, kids: Kids, groups: Groups,
                 contacts: Contacts,
                 buddies: Buddies, chats: Chats, nextId: Id, a: Account, connected: set<Account>, adding: bool,
                 done: set<Id>)
    requires Tree(kinds, links, root, top, kids, {}) && Records(kinds, groups, contacts, buddies, chats, nextId)
    requires AllDone(top, kids, done) && adding == (a !in connected)
    ensures forall c, b | c in contacts && c in kids && b in kids[c] ::
              b in Marks(buddies, a, connected, adding, done) <==> b in Live(buddies, Afterwards(connected, a, adding))
    ensures forall g, n | g in groups && g in kids && n in kids[g] ::
              n in ChatMarks(chats, a, connected, adding, done) <==>
                n in LiveChats(chats, Afterwards(connected, a, adding))
  {
    hide Tree, AllDone;
    forall g, n | g in groups && g in kids && n in kids[g] ensures n in done {
      ListedDone(kinds, links, root, top, kids, groups, contacts, buddies, chats, nextId, done, g, n);
    }
    forall c, b | c in contacts && c in kids && b in kids[c] ensures b in done && b in buddies {
      BuddyDone(kinds, links, root, top, kids, groups, contacts, buddies, chats, nextId, done, c, b);
    }
  }

  lemma ListedDone(kinds: KindMap, links: LinkMap, root: Option<Id>, top: seq<Id>, kids: Kids, groups: Groups,
                   contacts: Contacts,
                   buddies: Buddies, chats: Chats, nextId: Id, done: set<Id>, g: Id, n: Id)
    requires Tree(kinds, links, root, top, kids, {}) && Records(kinds, groups, contacts, buddies, chats, nextId)
    requires AllDone(top, kids, done) && g in groups && g in kids && n in kids[g]
    ensures n in done && g in top
  {
    hide Tree;
    BuddyKind(kinds, groups, contacts, buddies, chats, nextId, g);
    GroupListed(kinds, links, root, top, kids, {}, g);
  }

  lemma BuddyDone(kinds: KindMap, links: LinkMap, root: Option<Id>, top: seq<Id>, kids: Kids, groups: Groups,
                  contacts: Contacts,
                  buddies: Buddies, chats: Chats, nextId: Id, done: set<Id>, c: Id, b: Id)
    requires Tree(kinds, links, root, top, kids, {}) && Records(kinds, groups, contacts, buddies, chats, nextId)
    requires AllDone(top, kids, done) && c in contacts && c in kids && b in kids[c]
    ensures c in done && b in done && b in buddies
  {
    hide Tree;
    ChildOf(kinds, links, root, top, kids, {}, c);
    AllBuddies(kinds, links, root, top, kids, {}, groups, contacts, buddies, chats, nextId);
    BuddyPlace(kinds, links, root, top, kids, {}, groups, contacts, buddies, chats, nextId, b, c);
    var g := links[c].parent.value;
    ListedDone(kinds, links, root, top, kids, groups, contacts, buddies, chats, nextId, done, g, c);
    assert g in top && c in kids[g];
  }

  lemma EmptyBest(cfg: Config, buddies: Buddies, connected: set<Account>, after: set<Account>, p: Option<Id>)
    requires IsBest(cfg, buddies, connected, [], p)
    ensures IsBest(cfg, buddies, after, [], p)
  {
  }

  lemma BestsEnd(cfg: Config, kinds: KindMap, links: LinkMap, root: Option<Id>, top: seq<Id>, kids: Kids,
                 groups: Groups, contacts: Contacts,
                 buddies: Buddies, chats: Chats, nextId: Id, connected: set<Account>, after: set<Account>,
                 done: set<Id>)
    requires Tree(kinds, links, root, top, kids, {}) && Records(kinds, groups, contacts, buddies, chats, nextId)
    requires AllDone(top, kids, done) && MixedBests(cfg, buddies, contacts, kids, connected, after, done, None)
    ensures Bests(cfg, buddies, after, contacts, kids)
  {
    hide Tree, AllDone, IsBest;
    forall c | c in contacts ensures c in kids && IsBest(cfg, buddies, after, kids[c], contacts[c].priority) {
      assert Some(c) != None;
      if kids[c] == [] {
        EmptyBest(cfg, buddies, if c in done then after else connected, after, contacts[c].priority);
      } else {
        BuddyDone(kinds, links, root, top, kids, groups, contacts, buddies, chats, nextId, done, c, kids[c][0]);
      }
    }
  }

  lemma MidEnd(cfg: Config, kinds: KindMap, links: LinkMap, root: Option<Id>, top: seq<Id>, kids: Kids, groups: Groups,
               contacts: Contacts, buddies: Buddies, chats: Chats, nextId: Id, a: Account, connected: set<Account>,
               adding: bool, done: set<Id>,
               up: set<Id>)
    requires Mid(cfg, kinds, links, root, top, kids, groups, contacts, buddies, chats, nextId, a, connected, adding,
                 done, None)
    requires AllDone(top, kids, done) && adding == (a !in connected)
    ensures OkState(cfg, kinds, links, root, top, kids, {}, groups, contacts, buddies, chats, nextId,
                    Afterwards(connected, a, adding))
    ensures MidOnline(kids, groups, contacts, chats, a, connected, adding, done, up) ==>
              Tally(OnlineOf(contacts), OnlineOfGroups(groups), kids, up,
                    LiveChats(chats, Afterwards(connected, a, adding)))
  {
    hide Tree, Records, Totals, Tally, MixedBests, Scores, Marks, ChatMarks, Live, LiveChats, AllDone, CurOf,
         CurOfGroups, OnlineOf, OnlineOfGroups, Afterwards;
    var after := Afterwards(connected, a, adding);
    SizeKeys(contacts, groups);
    MarksEnd(kinds, links, root, top, kids, groups, contacts, buddies, chats, nextId, a, connected, adding, done);
    BestsEnd(cfg, kinds, links, root, top, kids, groups, contacts, buddies, chats, nextId, connected, after, done);
    TallySame(CurOf(contacts), CurOfGroups(groups), kids, Marks(buddies, a, connected, adding, done),
              Live(buddies, after),
              ChatMarks(chats, a, connected, adding, done), LiveChats(chats, after));
    if MidOnline(kids, groups, contacts, chats, a, connected, adding, done, up) {
      TallySame(OnlineOf(contacts), OnlineOfGroups(groups), kids, up, up,
                ChatMarks(chats, a, connected, adding, done), LiveChats(chats, after));
    }
  }

  // ----- one node

  lemma MarksNext(buddies: Buddies, chats: Chats, a: Account, connected: set<Account>, adding: bool, done: set<Id>,
                  n: Id)
    requires n !in done
    ensures var m, m' := Marks(buddies, a, connected, adding, done), Marks(buddies, a, connected, adding, done + {n});
      if n in buddies && buddies[n].account == a then
        (n in m <==> !adding) && m' == (if adding then m + {n} else m - {n}) else m' == m
    ensures var m, m' := ChatMarks(chats, a, connected, adding, done),
      ChatMarks(chats, a, connected, adding, done + {n});
      if n in chats && chats[n] == a then (n in m <==> !adding) && m' == (if adding then m + {n} else m - {n})
        else m' == m
  {
  }

  /** A buddy whose account goes. */
  function Clear(b: Buddy): Buddy { b.(present := Offline, unavailable := false, idle := 0) }

  lemma ClearFields(b: Buddy)
    ensures Clear(b) == b.(present := Offline, unavailable := false, idle := 0)
  {
  }

  lemma MarksRecord(buddies: Buddies, a: Account, connected: set<Account>, adding: bool, done: set<Id>, b: Id)
    requires b in buddies
    ensures Marks(buddies[b := Clear(buddies[b])], a, connected, adding, done) ==
      Marks(buddies, a, connected, adding, done)
  {
  }

  /** The counters of the contact and the group when a buddy of the account comes, or goes from the connected ones. */
  function Recount(contacts: Contacts, c: Id, live: int, up: int): Contacts {
    if c in contacts then
      contacts[c := Contact(contacts[c].totalsize, contacts[c].currentsize + live, contacts[c].online + up,
                            contacts[c].priority)]
    else contacts
  }

  function RecountGroup(groups: Groups, g: Id, live: int, up: int): Groups {
    if g in groups then groups[g := Group(groups[g].name, groups[g].currentsize + live, groups[g].online + up)]
      else groups
  }

  function LiveStep(contacts: Contacts, c: Id, adding: bool): int {
    if c !in contacts then 0
    else if adding then (if contacts[c].currentsize == 0 then 1 else 0)
    else if contacts[c].currentsize == 1 then -1 else 0
  }

  function UpStep(contacts: Contacts, c: Id, up: bool): int {
    if c in contacts && up && contacts[c].online == 1 then -1 else 0
  }

  function Sign(adding: bool): int { if adding then 1 else -1 }
  function Less1(up: bool): int { if up then -1 else 0 }

  /** Whether the buddy is counted as online no more. */
  predicate GoesDown(b: Buddy, adding: bool) { !adding && (b.present == Online || b.present == SigningOn) }

  lemma RecountSizes(contacts: Contacts, groups: Groups, c: Id, g: Id, adding: bool, up: bool)
    requires c in contacts && g in groups
    ensures var contacts', groups' :=
      Recount(contacts, c, Sign(adding), Less1(up)),
      RecountGroup(groups, g, LiveStep(contacts, c, adding), UpStep(contacts, c, up));
      && CurOf(contacts') == (if adding then More(CurOf(contacts), CurOfGroups(groups), c, g, true)
                              else Fewer(CurOf(contacts), CurOfGroups(groups), c, g, true)).0
      && CurOfGroups(groups') ==
        (if adding then More(CurOf(contacts), CurOfGroups(groups), c, g, true)
         else Fewer(CurOf(contacts), CurOfGroups(groups), c, g, true)).1
      && OnlineOf(contacts') == Fewer(OnlineOf(contacts), OnlineOfGroups(groups), c, g, up).0
      && OnlineOfGroups(groups') == Fewer(OnlineOf(contacts), OnlineOfGroups(groups), c, g, up).1
  {
    SameUpdate(CurOf(contacts), c);
    SameUpdate(CurOfGroups(groups), g);
    SameUpdate(OnlineOf(contacts), c);
    SameUpdate(OnlineOfGroups(groups), g);
    SizesOf(contacts, groups, c, Recount(contacts, c, Sign(adding), Less1(up))[c], g,
            RecountGroup(groups, g, LiveStep(contacts, c, adding), UpStep(contacts, c, up))[g]);
  }

  lemma RecountRecords(kinds: KindMap, groups: Groups, contacts: Contacts, buddies: Buddies, chats: Chats, nextId: Id,
                       kids: Kids,
                       c: Id, g: Id, live: int, up: int, glive: int, gup: int)
    requires Records(kinds, groups, contacts, buddies, chats, nextId) && Totals(contacts, kids)
    ensures Records(kinds, RecountGroup(groups, g, glive, gup), Recount(contacts, c, live, up), buddies, chats, nextId)
    ensures Totals(Recount(contacts, c, live, up), kids)
    ensures SameNames(groups, RecountGroup(groups, g, glive, gup))
      && Recount(contacts, c, live, up).Keys == contacts.Keys
    ensures forall d | d in contacts :: Recount(contacts, c, live, up)[d].priority == contacts[d].priority
  {
  }

  lemma RecountKeys(contacts: Contacts, groups: Groups, c: Id, g: Id, live: int, up: int, glive: int, gup: int)
    ensures Recount(contacts, c, live, up).Keys == contacts.Keys
      && RecountGroup(groups, g, glive, gup).Keys == groups.Keys
  {
  }

  lemma RecountIs(groups: Groups, g: Id, d: int)
    requires g in groups
    ensures RecountGroup(groups, g, d, d) ==
      groups[g := groups[g].(online := groups[g].online + d, currentsize := groups[g].currentsize + d)]
    ensures RecountGroup(groups, g, d, d).Keys == groups.Keys
  {
  }

  lemma NoStep(contacts: Contacts, c: Id)
    ensures UpStep(contacts, c, false) == 0
  {
  }

  /** A changed record of a buddy in `c` is no matter to the best buddies of other contacts. */
  lemma MixedBestsStep(cfg: Config, kinds: KindMap, links: LinkMap, root: Option<Id>, top: seq<Id>, kids: Kids,
                       groups: Groups,
                       contacts: Contacts, contacts': Contacts, buddies: Buddies, chats: Chats, nextId: Id,
                       connected: set<Account>, after: set<Account>,
                       done: set<Id>, c: Id, b: Id, x: Buddy)
    requires Tree(kinds, links, root, top, kids, {}) && Records(kinds, groups, contacts, buddies, chats, nextId)
    requires MixedBests(cfg, buddies, contacts, kids, connected, after, done, Some(c))
    requires b in buddies && c in kids && b in kids[c]
    requires contacts'.Keys == contacts.Keys && forall d | d in contacts ::
      contacts'[d].priority == contacts[d].priority
    ensures MixedBests(cfg, buddies[b := x], contacts', kids, connected, after, done + {b}, Some(c))
  {
    hide Tree, IsBest, SameRank, NoDups;
    OneHome(kinds, links, root, top, kids, {}, c, b);
    var buddies' := buddies[b := x];
    forall d | d in contacts' && Some(d) != Some(c)
      ensures d in kids && IsBest(cfg, buddies', if d in done + {b} then after else connected, kids[d],
                                  contacts'[d].priority)
    {
      assert d in contacts'.Keys;
      BuddyKind(kinds, groups, contacts, buddies, chats, nextId, b);
      ContactKids(kinds, links, root, top, kids, {}, d);
      var now := if d in done then after else connected;
      forall n | n in kids[d]
        ensures n in buddies && n in buddies' && SameRank(cfg, buddies[n], now, buddies'[n], now)
      {
        SameBuddy(cfg, buddies[n], now);
      }
      BestSame(cfg, buddies, now, buddies', now, kids[d], contacts[d].priority);
    }
  }

  lemma TallyStep(sizes: Tallies, groupSizes: Tallies, kids: Kids, marked: set<Id>, chats: set<Id>, c: Id, g: Id, b: Id,
                  adding: bool)
    requires Tally(sizes, groupSizes, kids, marked, chats) && Nested(sizes, groupSizes, kids, chats, c, g)
    requires OnlyIn(sizes, kids, b, c) && (b in marked <==> !adding)
    ensures var (s, gs) := if adding then More(sizes, groupSizes, c, g, true) else Fewer(sizes, groupSizes, c, g, true);
            Tally(s, gs, kids, if adding then marked + {b} else marked - {b}, chats)
  {
    hide Tally, Nested, OnlyIn, More, Fewer;
    NestedMeans(sizes, groupSizes, kids, chats, c, g);
    if adding {
      TallyMark(sizes, groupSizes, kids, marked, chats, c, g, b);
    } else {
      TallyUnmark(sizes, groupSizes, kids, marked, chats, c, g, b);
    }
  }

  /** A buddy of the account is visited. */
  lemma BuddyStep(cfg: Config, kinds: KindMap, links: LinkMap, root: Option<Id>, top: seq<Id>, kids: Kids,
                  groups: Groups,
                  contacts: Contacts, buddies: Buddies, chats: Chats, nextId: Id, a: Account, connected: set<Account>,
                  adding: bool, done: set<Id>, c: Id, g: Id, b: Id)
    requires Mid(cfg, kinds, links, root, top, kids, groups, contacts, buddies, chats, nextId, a, connected, adding,
                 done, Some(c))
    requires c in contacts && HasParent(links, c, g) && g in groups && c in kids && b in kids[c] && b in buddies
      && buddies[b].account == a && b !in done
    ensures
      var up := GoesDown(buddies[b], adding);
      Mid(cfg, kinds, links, root, top, kids,
          RecountGroup(groups, g, LiveStep(contacts, c, adding), UpStep(contacts, c, up)),
          Recount(contacts, c, Sign(adding), Less1(up)), if adding then buddies else buddies[b := Clear(buddies[b])],
          chats, nextId, a, connected, adding, done + {b}, Some(c))
  {
    hide Tree, Records, Totals, Scores, Tally, MixedBests, Marks, ChatMarks, CurOf, CurOfGroups, OnlineOf,
         OnlineOfGroups, Recount, RecountGroup,
         LiveStep, UpStep, More, Fewer, Nested, OnlyIn, Clear, Afterwards;
    var up := GoesDown(buddies[b], adding);
    MarksNext(buddies, chats, a, connected, adding, done, b);
    MarksRecord(buddies, a, connected, adding, done + {b}, b);
    NestedChats(kinds, links, root, top, kids, groups, contacts, buddies, chats, nextId, a, connected, adding, done, c,
                g);
    OnlyHere(kinds, links, root, top, kids, CurOf(contacts), b, c);
    RecountSizes(contacts, groups, c, g, adding, up);
    TallyStep(CurOf(contacts), CurOfGroups(groups), kids, Marks(buddies, a, connected, adding, done),
              ChatMarks(chats, a, connected, adding, done), c, g, b, adding);
    RecountRecords(kinds, groups, contacts, buddies, chats, nextId, kids, c, g, Sign(adding), Less1(up),
                   LiveStep(contacts, c, adding), UpStep(contacts, c, up));
    BuddyIsNoChat(kinds, groups, contacts, buddies, chats, nextId, b);
    var x := if adding then buddies[b] else Clear(buddies[b]);
    RerecordedRecords(kinds, RecountGroup(groups, g, LiveStep(contacts, c, adding), UpStep(contacts, c, up)),
                      Recount(contacts, c, Sign(adding), Less1(up)), buddies, chats, nextId, b, x);
    MixedBestsStep(cfg, kinds, links, root, top, kids, groups, contacts, Recount(contacts, c, Sign(adding), Less1(up)),
                   buddies, chats, nextId,
                   connected, Afterwards(connected, a, adding), done, c, b, x);
    assert buddies[b := buddies[b]] == buddies;
  }

  lemma BuddyIsNoChat(kinds: KindMap, groups: Groups, contacts: Contacts, buddies: Buddies, chats: Chats, nextId: Id,
                      b: Id)
    requires Records(kinds, groups, contacts, buddies, chats, nextId) && b in buddies
    ensures b !in chats && b !in contacts && b !in groups
  {
  }

  lemma NestedChats(kinds: KindMap, links: LinkMap, root: Option<Id>, top: seq<Id>, kids: Kids, groups: Groups,
                    contacts: Contacts, buddies: Buddies, chats: Chats, nextId: Id, a: Account, connected: set<Account>,
                    adding: bool, done: set<Id>, c: Id, g: Id)
    requires Tree(kinds, links, root, top, kids, {}) && Records(kinds, groups, contacts, buddies, chats, nextId)
    requires c in contacts && HasParent(links, c, g)
    ensures Nested(CurOf(contacts), CurOfGroups(groups), kids, ChatMarks(chats, a, connected, adding, done), c, g)
    ensures Nested(OnlineOf(contacts), OnlineOfGroups(groups), kids, ChatMarks(chats, a, connected, adding, done), c, g)
  {
    hide Tree, Records, CurOf, CurOfGroups, OnlineOf, OnlineOfGroups, Nested;
    NestedInTree(kinds, links, root, top, kids, {}, groups, contacts, buddies, chats, nextId,
                 ChatMarks(chats, a, connected, adding, done), c, g);
  }

  /** Its contact and group count it as online no more, unless it was signing off: that one stays counted. */
  lemma BuddyOnlineStep(kinds: KindMap, links: LinkMap, root: Option<Id>, top: seq<Id>, kids: Kids, groups: Groups,
                        contacts: Contacts, buddies: Buddies, chats: Chats, nextId: Id, a: Account,
                        connected: set<Account>,
                        adding: bool, done: set<Id>, c: Id, g: Id, b: Id, up: set<Id>)
    requires Tree(kinds, links, root, top, kids, {}) && Records(kinds, groups, contacts, buddies, chats, nextId)
    requires MidOnline(kids, groups, contacts, chats, a, connected, adding, done, up)
    requires c in contacts && HasParent(links, c, g) && g in groups && c in kids && b in kids[c] && b in buddies
      && b !in done
    requires GoesDown(buddies[b], adding) ==> b in up
    ensures
      var down := GoesDown(buddies[b], adding);
      MidOnline(kids, RecountGroup(groups, g, LiveStep(contacts, c, adding), UpStep(contacts, c, down)),
                Recount(contacts, c, Sign(adding), Less1(down)), chats, a, connected, adding, done
                + {b}, if down then up - {b} else up)
  {
    hide Tree, Records, Tally, Marks, ChatMarks, CurOf, CurOfGroups, OnlineOf, OnlineOfGroups, Recount, RecountGroup,
         LiveStep, UpStep, Nested, OnlyIn;
    var down := GoesDown(buddies[b], adding);
    MarksNext(buddies, chats, a, connected, adding, done, b);
    BuddyIsNoChat(kinds, groups, contacts, buddies, chats, nextId, b);
    NestedChats(kinds, links, root, top, kids, groups, contacts, buddies, chats, nextId, a, connected, adding, done, c,
                g);
    OnlyHere(kinds, links, root, top, kids, OnlineOf(contacts), b, c);
    RecountSizes(contacts, groups, c, g, adding, down);
    if down {
      TallyUnmark(OnlineOf(contacts), OnlineOfGroups(groups), kids, up, ChatMarks(chats, a, connected, adding, done), c,
                  g, b);
    }
  }

  /** A buddy of another account, a chat of another account. */
  lemma OtherStep(cfg: Config, kinds: KindMap, links: LinkMap, root: Option<Id>, top: seq<Id>, kids: Kids,
                  groups: Groups,
                  contacts: Contacts, buddies: Buddies, chats: Chats, nextId: Id, a: Account, connected: set<Account>,
                  adding: bool, done: set<Id>, but: Option<Id>, n: Id, up: set<Id>)
    requires Mid(cfg, kinds, links, root, top, kids, groups, contacts, buddies, chats, nextId, a, connected, adding,
                 done, but)
    requires n !in done && n !in contacts && (n in buddies ==> buddies[n].account != a)
      && (n in chats ==> chats[n] != a)
    ensures Mid(cfg, kinds, links, root, top, kids, groups, contacts, buddies, chats, nextId, a, connected, adding,
                done + {n}, but)
    ensures MidOnline(kids, groups, contacts, chats, a, connected, adding, done, up) ==>
              MidOnline(kids, groups, contacts, chats, a, connected, adding, done + {n}, up)
  {
    hide Tree, Records, Tally, Totals, Scores, IsBest, Marks, ChatMarks, Afterwards;
    MarksNext(buddies, chats, a, connected, adding, done, n);
  }

  // ----- chats

  /** A chat of the account is visited: both counts of its group follow. */
  lemma ChatStep(cfg: Config, kinds: KindMap, links: LinkMap, root: Option<Id>, top: seq<Id>, kids: Kids,
                 groups: Groups,
                 contacts: Contacts, buddies: Buddies, chats: Chats, nextId: Id, a: Account, connected: set<Account>,
                 adding: bool, done: set<Id>, g: Id, n: Id, up: set<Id>)
    requires Mid(cfg, kinds, links, root, top, kids, groups, contacts, buddies, chats, nextId, a, connected, adding,
                 done, None)
    requires n in chats && chats[n] == a && n !in done && g in groups && g in kids && n in kids[g]
    ensures var groups' := RecountGroup(groups, g, Sign(adding), Sign(adding));
      && Mid(cfg, kinds, links, root, top, kids, groups', contacts, buddies, chats, nextId, a, connected, adding,
             done + {n}, None)
      && (MidOnline(kids, groups, contacts, chats, a, connected, adding, done, up) ==>
            MidOnline(kids, groups', contacts, chats, a, connected, adding, done + {n}, up))
  {
    hide Tree, Records, Tally, Totals, Scores, IsBest, Marks, ChatMarks, Afterwards, CurOf, CurOfGroups, OnlineOf,
         OnlineOfGroups, OnlyIn, Lit;
    MarksNext(buddies, chats, a, connected, adding, done, n);
    ChatPlace(kinds, links, root, top, kids, groups, contacts, buddies, chats, nextId, g, n);
    ChatSizes(groups, g, Sign(adding));
    ChatRecount(kinds, groups, contacts, buddies, chats, nextId, g, Sign(adding));
    TallyChatStep(CurOf(contacts), CurOfGroups(groups), kids, Marks(buddies, a, connected, adding, done),
                  ChatMarks(chats, a, connected, adding, done), g, n, adding);
    if MidOnline(kids, groups, contacts, chats, a, connected, adding, done, up) {
      TallyChatStep(OnlineOf(contacts), OnlineOfGroups(groups), kids, up, ChatMarks(chats, a, connected, adding, done),
                    g, n, adding);
    }
  }

  lemma ChatPlace(kinds: KindMap, links: LinkMap, root: Option<Id>, top: seq<Id>, kids: Kids, groups: Groups,
                  contacts: Contacts, buddies: Buddies, chats: Chats, nextId: Id, g: Id, n: Id)
    requires Tree(kinds, links, root, top, kids, {}) && Records(kinds, groups, contacts, buddies, chats, nextId)
    requires n in chats && g in kids && n in kids[g]
    ensures OnlyIn(CurOfGroups(groups), kids, n, g) && OnlyIn(OnlineOfGroups(groups), kids, n, g)
    ensures n !in Lit(CurOf(contacts)) && n !in Lit(OnlineOf(contacts)) && n !in buddies && n !in contacts
    ensures g in groups ==> g in CurOfGroups(groups) && g in OnlineOfGroups(groups)
  {
    hide Tree;
    OneHome(kinds, links, root, top, kids, {}, g, n);
  }

  lemma ChatSizes(groups: Groups, g: Id, d: int)
    requires g in groups
    ensures CurOfGroups(RecountGroup(groups, g, d, d)) == CurOfGroups(groups)[g := CurOfGroups(groups)[g] + d]
    ensures OnlineOfGroups(RecountGroup(groups, g, d, d)) == OnlineOfGroups(groups)[g := OnlineOfGroups(groups)[g] + d]
  {
  }

  lemma ChatRecount(kinds: KindMap, groups: Groups, contacts: Contacts, buddies: Buddies, chats: Chats, nextId: Id,
                    g: Id, d: int)
    requires Records(kinds, groups, contacts, buddies, chats, nextId)
    ensures Records(kinds, RecountGroup(groups, g, d, d), contacts, buddies, chats, nextId)
    ensures SameNames(groups, RecountGroup(groups, g, d, d))
  {
  }

  lemma TallyChatStep(sizes: Tallies, groupSizes: Tallies, kids: Kids, marked: set<Id>, chats: set<Id>, g: Id, n: Id,
                      adding: bool)
    requires Tally(sizes, groupSizes, kids, marked, chats) && g in groupSizes && OnlyIn(groupSizes, kids, n, g)
    requires n !in Lit(sizes) && (n in chats <==> !adding)
    ensures Tally(sizes, groupSizes[g := groupSizes[g] + Sign(adding)], kids, marked,
                  if adding then chats + {n} else chats - {n})
  {
    hide Tally, OnlyIn, Lit;
    if adding {
      TallyMarkChat(sizes, groupSizes, kids, marked, chats, g, n);
    } else {
      TallyUnmarkChat(sizes, groupSizes, kids, marked, chats, g, n);
    }
  }

  // ----- contacts

  lemma ContactStart(cfg: Config, kinds: KindMap, links: LinkMap, root: Option<Id>, top: seq<Id>, kids: Kids,
                     groups: Groups,
                     contacts: Contacts, buddies: Buddies, chats: Chats, nextId: Id, a: Account,
                     connected: set<Account>,
                     adding: bool, done: set<Id>, c: Id)
    requires Mid(cfg, kinds, links, root, top, kids, groups, contacts, buddies, chats, nextId, a, connected, adding,
                 done, None)
    requires c in contacts && c !in done
    ensures Mid(cfg, kinds, links, root, top, kids, groups, contacts, buddies, chats, nextId, a, connected, adding,
                done, Some(c))
    ensures c in kids && IsBest(cfg, buddies, connected, kids[c], contacts[c].priority)
  {
    hide Tree, Records, Tally, Totals, Scores, IsBest, Marks, ChatMarks, Afterwards;
    assert Some(c) != None;
  }

  /** A contact without buddies of the account keeps its best buddy. */
  lemma BestStays(cfg: Config, buddies: Buddies, a: Account, connected: set<Account>, adding: bool, s: seq<Id>,
                  p: Option<Id>)
    requires IsBest(cfg, buddies, connected, s, p)
    requires forall b | b in s :: b in buddies && buddies[b].account != a
    ensures IsBest(cfg, buddies, Afterwards(connected, a, adding), s, p)
  {
    hide IsBest;
    BestSame(cfg, buddies, connected, buddies, Afterwards(connected, a, adding), s, p);
  }

  lemma ContactEnd(cfg: Config, kinds: KindMap, links: LinkMap, root: Option<Id>, top: seq<Id>, kids: Kids,
                   groups: Groups,
                   contacts: Contacts, buddies: Buddies, chats: Chats, nextId: Id, a: Account, connected: set<Account>,
                   adding: bool, done: set<Id>, c: Id, p: Option<Id>, up: set<Id>)
    requires Mid(cfg, kinds, links, root, top, kids, groups, contacts, buddies, chats, nextId, a, connected, adding,
                 done, Some(c))
    requires c in contacts && c in kids && IsBest(cfg, buddies, Afterwards(connected, a, adding), kids[c], p)
      && c !in done
    ensures var contacts' := contacts[c := contacts[c].(priority := p)];
      && Mid(cfg, kinds, links, root, top, kids, groups, contacts', buddies, chats, nextId, a, connected, adding,
             done + {c}, None)
      && (MidOnline(kids, groups, contacts, chats, a, connected, adding, done, up) ==>
            MidOnline(kids, groups, contacts', chats, a, connected, adding, done + {c}, up))
  {
    hide Tree, Tally, Scores, IsBest, Marks, ChatMarks, Afterwards, CurOf, CurOfGroups, OnlineOf, OnlineOfGroups;
    MarksNext(buddies, chats, a, connected, adding, done, c);
    PrioritySizes(contacts, c, p);
  }

  // ----- what becomes of the buddies

  /** The buddies of the account that were visited when it went are cleared. */
  ghost predicate Cleared(buddies: Buddies, buddies': Buddies, a: Account, adding: bool, done: set<Id>) {
    && buddies'.Keys == buddies.Keys
    && forall b | b in buddies ::
      buddies'[b] == if !adding && b in done && buddies[b].account == a then Clear(buddies[b]) else buddies[b]
  }

  /** The buddies that are counted as online: those that are up, and those that were signing off. */
  function UpOrLeft(buddies: Buddies, buddies': Buddies): set<Id> {
    set b | b in buddies && b in buddies' && (buddies'[b].present != Offline || buddies[b].present == SigningOff)
  }

  lemma ClearedStart(buddies: Buddies, a: Account, adding: bool)
    ensures Cleared(buddies, buddies, a, adding, {}) && UpOrLeft(buddies, buddies) == Up(buddies)
  {
  }

  lemma ClearedNext(buddies: Buddies, buddies': Buddies, a: Account, adding: bool, done: set<Id>, b: Id)
    requires Cleared(buddies, buddies', a, adding, done) && b !in done
    ensures b in buddies' && buddies'[b].account == a ==>
      var buddies1 := if adding then buddies' else buddies'[b := Clear(buddies'[b])];
      && Cleared(buddies, buddies1, a, adding, done + {b})
      && (GoesDown(buddies'[b], adding) ==> b in UpOrLeft(buddies, buddies'))
      && UpOrLeft(buddies, buddies1) == if GoesDown(buddies'[b], adding) then UpOrLeft(buddies, buddies') - {b}
        else UpOrLeft(buddies, buddies')
    ensures b !in buddies' || buddies'[b].account != a ==> Cleared(buddies, buddies', a, adding, done + {b})
  {
    assert b in buddies.Keys <==> b in buddies'.Keys;
    if b in buddies' && buddies'[b].account == a {
      assert buddies'[b] == buddies[b];
    }
  }

  // ----- all of it

  /** The list before the visit, and which of its counts, index and timers were right. */
  datatype Start = Start(buddies: Buddies, groups: Groups, connected: set<Account>, online: bool, indexed: bool,
                         timed: bool)

  /** All that is kept while the nodes are visited. */
  ghost predicate Midway(cfg: Config, kinds: KindMap, links: LinkMap, root: Option<Id>, top: seq<Id>, kids: Kids,
                         groups: Groups,
                         contacts: Contacts, buddies: Buddies, chats: Chats, nextId: Id, index: Index,
                         connected: set<Account>,
                         a: Account, adding: bool, s: Start, done: set<Id>, but: Option<Id>)
  {
    && connected == Afterwards(s.connected, a, adding)
    && Mid(cfg, kinds, links, root, top, kids, groups, contacts, buddies, chats, nextId, a, s.connected, adding, done,
           but)
    && (s.online ==>
        MidOnline(kids, groups, contacts, chats, a, s.connected, adding, done, UpOrLeft(s.buddies, buddies)))
    && Cleared(s.buddies, buddies, a, adding, done)
    && SameNames(s.groups, groups)
    && (s.indexed ==> IndexAs(cfg, index, buddies, HomesOf(links, buddies)))
    && (s.timed ==> Pending(buddies))
  }

  lemma MidwayBuddy(cfg: Config, kinds: KindMap, links: LinkMap, root: Option<Id>, top: seq<Id>, kids: Kids,
                    groups: Groups,
                    contacts: Contacts, buddies: Buddies, chats: Chats, nextId: Id, index: Index,
                    connected: set<Account>,
                    a: Account, adding: bool, s: Start, done: set<Id>, c: Id, g: Id, b: Id)
    requires Midway(cfg, kinds, links, root, top, kids, groups, contacts, buddies, chats, nextId, index, connected, a,
                    adding, s, done, Some(c))
    requires c in contacts && HasParent(links, c, g) && g in groups && c in kids && b in kids[c] && b in buddies
      && b !in done && buddies[b].account == a
    ensures
      var down := GoesDown(buddies[b], adding);
      Midway(cfg, kinds, links, root, top, kids,
             RecountGroup(groups, g, LiveStep(contacts, c, adding), UpStep(contacts, c, down)),
             Recount(contacts, c, Sign(adding), Less1(down)), if adding then buddies
             else buddies[b := Clear(buddies[b])],
             chats, nextId, index, connected, a, adding, s, done + {b}, Some(c))
  {
    hide Mid, MidOnline, Cleared, SameNames, IndexAs, HomesOf, Pending, UpOrLeft, Recount, RecountGroup, LiveStep,
         UpStep, Afterwards, HasParent;
    var down := GoesDown(buddies[b], adding);
    BuddyStep(cfg, kinds, links, root, top, kids, groups, contacts, buddies, chats, nextId, a, s.connected, adding,
              done, c, g, b);
    ClearedNext(s.buddies, buddies, a, adding, done, b);
    MidTree(cfg, kinds, links, root, top, kids, groups, contacts, buddies, chats, nextId, a, s.connected, adding, done,
            Some(c));
    if s.online {
      BuddyOnlineStep(kinds, links, root, top, kids, groups, contacts, buddies, chats, nextId, a, s.connected, adding,
                      done, c, g, b, UpOrLeft(s.buddies, buddies));
    }
    RecountRecords(kinds, groups, contacts, buddies, chats, nextId, kids, c, g, Sign(adding), Less1(down),
                   LiveStep(contacts, c, adding), UpStep(contacts, c, down));
    SameNamesChain(s.groups, groups, RecountGroup(groups, g, LiveStep(contacts, c, adding), UpStep(contacts, c, down)));
    RerecordedIndex(cfg, index, links, buddies, b, Clear(buddies[b]));
    if s.timed {
      RerecordedPending(buddies, b, Clear(buddies[b]));
    }
  }

  lemma MidTree(cfg: Config, kinds: KindMap, links: LinkMap, root: Option<Id>, top: seq<Id>, kids: Kids, groups: Groups,
                contacts: Contacts, buddies: Buddies, chats: Chats, nextId: Id, a: Account, connected: set<Account>,
                adding: bool, done: set<Id>, but: Option<Id>)
    requires Mid(cfg, kinds, links, root, top, kids, groups, contacts, buddies, chats, nextId, a, connected, adding,
                 done, but)
    ensures Tree(kinds, links, root, top, kids, {}) && Records(kinds, groups, contacts, buddies, chats, nextId)
      && Scores(cfg) && Totals(contacts, kids)
  {
    hide Tree, Records, Scores, Totals, Tally, MixedBests;
  }

  lemma MidwayOther(cfg: Config, kinds: KindMap, links: LinkMap, root: Option<Id>, top: seq<Id>, kids: Kids,
                    groups: Groups,
                    contacts: Contacts, buddies: Buddies, chats: Chats, nextId: Id, index: Index,
                    connected: set<Account>,
                    a: Account, adding: bool, s: Start, done: set<Id>, but: Option<Id>, n: Id)
    requires Midway(cfg, kinds, links, root, top, kids, groups, contacts, buddies, chats, nextId, index, connected, a,
                    adding, s, done, but)
    requires n !in done && n !in contacts && (n in buddies ==> buddies[n].account != a)
      && (n in chats ==> chats[n] != a)
    ensures Midway(cfg, kinds, links, root, top, kids, groups, contacts, buddies, chats, nextId, index, connected, a,
                   adding, s, done + {n}, but)
  {
    hide Mid, MidOnline, Cleared, SameNames, IndexAs, HomesOf, Pending, UpOrLeft, Afterwards;
    OtherStep(cfg, kinds, links, root, top, kids, groups, contacts, buddies, chats, nextId, a, s.connected, adding,
              done, but, n, UpOrLeft(s.buddies, buddies));
    ClearedNext(s.buddies, buddies, a, adding, done, n);
  }

  lemma MidwayChat(cfg: Config, kinds: KindMap, links: LinkMap, root: Option<Id>, top: seq<Id>, kids: Kids,
                   groups: Groups,
                   contacts: Contacts, buddies: Buddies, chats: Chats, nextId: Id, index: Index,
                   connected: set<Account>,
                   a: Account, adding: bool, s: Start, done: set<Id>, g: Id, n: Id)
    requires Midway(cfg, kinds, links, root, top, kids, groups, contacts, buddies, chats, nextId, index, connected, a,
                    adding, s, done, None)
    requires n in chats && chats[n] == a && n !in done && g in groups && g in kids && n in kids[g]
    ensures Midway(cfg, kinds, links, root, top, kids, RecountGroup(groups, g, Sign(adding), Sign(adding)), contacts,
                   buddies, chats, nextId, index, connected,
                   a, adding, s, done + {n}, None)
  {
    hide Mid, MidOnline, Cleared, SameNames, IndexAs, HomesOf, Pending, UpOrLeft, Afterwards, Records, RecountGroup;
    MidTree(cfg, kinds, links, root, top, kids, groups, contacts, buddies, chats, nextId, a, s.connected, adding, done,
            None);
    ChatPlace(kinds, links, root, top, kids, groups, contacts, buddies, chats, nextId, g, n);
    ChatStep(cfg, kinds, links, root, top, kids, groups, contacts, buddies, chats, nextId, a, s.connected, adding, done,
             g, n, UpOrLeft(s.buddies, buddies));
    ClearedNext(s.buddies, buddies, a, adding, done, n);
    ChatRecount(kinds, groups, contacts, buddies, chats, nextId, g, Sign(adding));
    SameNamesChain(s.groups, groups, RecountGroup(groups, g, Sign(adding), Sign(adding)));
  }

  lemma MidwayContact(cfg: Config, kinds: KindMap, links: LinkMap, root: Option<Id>, top: seq<Id>, kids: Kids,
                      groups: Groups,
                      contacts: Contacts, buddies: Buddies, chats: Chats, nextId: Id, index: Index,
                      connected: set<Account>,
                      a: Account, adding: bool, s: Start, done: set<Id>, c: Id, p: Option<Id>)
    requires Midway(cfg, kinds, links, root, top, kids, groups, contacts, buddies, chats, nextId, index, connected, a,
                    adding, s, done, Some(c))
    requires c in contacts && c in kids && IsBest(cfg, buddies, connected, kids[c], p) && c !in done
    ensures Midway(cfg, kinds, links, root, top, kids, groups, contacts[c := contacts[c].(priority := p)], buddies,
                   chats, nextId, index, connected,
                   a, adding, s, done + {c}, None)
  {
    hide Mid, MidOnline, Cleared, SameNames, IndexAs, HomesOf, Pending, UpOrLeft, Afterwards, IsBest, Records;
    MidTree(cfg, kinds, links, root, top, kids, groups, contacts, buddies, chats, nextId, a, s.connected, adding, done,
            Some(c));
    BuddyKind(kinds, groups, contacts, buddies, chats, nextId, c);
    ContactEnd(cfg, kinds, links, root, top, kids, groups, contacts, buddies, chats, nextId, a, s.connected, adding,
               done, c, p, UpOrLeft(s.buddies, buddies));
    ClearedNext(s.buddies, buddies, a, adding, done, c);
  }

  lemma MidwayBegins(cfg: Config, kinds: KindMap, links: LinkMap, root: Option<Id>, top: seq<Id>, kids: Kids,
                     groups: Groups,
                     contacts: Contacts, buddies: Buddies, chats: Chats, nextId: Id, index: Index,
                     connected: set<Account>,
                     a: Account, adding: bool, s: Start, done: set<Id>, c: Id)
    requires Midway(cfg, kinds, links, root, top, kids, groups, contacts, buddies, chats, nextId, index, connected, a,
                    adding, s, done, None)
    requires c in contacts && c !in done
    ensures Midway(cfg, kinds, links, root, top, kids, groups, contacts, buddies, chats, nextId, index, connected, a,
                   adding, s, done, Some(c))
    ensures c in kids && IsBest(cfg, buddies, s.connected, kids[c], contacts[c].priority)
  {
    hide Mid, MidOnline, Cleared, SameNames, IndexAs, HomesOf, Pending, UpOrLeft, Afterwards, IsBest;
    ContactStart(cfg, kinds, links, root, top, kids, groups, contacts, buddies, chats, nextId, a, s.connected, adding,
                 done, c);
  }

  // ----- which nodes are visited

  lemma MembersNext(s: seq<Id>, k: nat, done: set<Id>)
    requires k < |s|
    ensures done + Members(s[..k]) + {s[k]} == done + Members(s[..k + 1])
    ensures NoDups(s) && Members(s) !! done ==> s[k] !in done + Members(s[..k])
  {
    assert s[..k + 1] == s[..k] + [s[k]];
    assert s[k] in s;
  }

  lemma MembersEnds(s: seq<Id>, done: set<Id>)
    ensures done + Members(s[..0]) == done && s[..|s|] == s
    ensures forall x :: x in Members(s) <==> x in s
  {
  }

  /** Walking the buddies of a contact. */
  lemma BuddiesOf(kinds: KindMap, links: LinkMap, root: Option<Id>, top: seq<Id>, kids: Kids, groups: Groups,
                  contacts: Contacts, buddies: Buddies, chats: Chats, nextId: Id, c: Id)
    requires Tree(kinds, links, root, top, kids, {}) && Records(kinds, groups, contacts, buddies, chats, nextId)
      && c in contacts
    ensures c in kids && c in links && links[c].child == Here(kids[c], 0) && NoDups(kids[c]) && c !in kids[c]
    ensures forall i | 0 <= i < |kids[c]| ::
              && kids[c][i] in links && kids[c][i] in buddies && kids[c][i] !in contacts && kids[c][i] !in chats
              && links[kids[c][i]].next == Here(kids[c], i + 1)
  {
    hide Tree, Here, NoDups;
    ContactList(kinds, links, root, top, kids, {}, groups, contacts, buddies, chats, nextId, c);
    ListNoDupsOf(kinds, links, root, top, kids, {}, c);
  }

  /** Walking the contacts and chats of a group. */
  lemma NodesOf(kinds: KindMap, links: LinkMap, root: Option<Id>, top: seq<Id>, kids: Kids, groups: Groups,
                contacts: Contacts, buddies: Buddies, chats: Chats, nextId: Id, g: Id)
    requires Tree(kinds, links, root, top, kids, {}) && Records(kinds, groups, contacts, buddies, chats, nextId)
      && g in groups
    ensures g in kids && g in links && links[g].child == Here(kids[g], 0) && NoDups(kids[g]) && g in kinds
      && kinds[g] == GroupNode
    ensures forall i | 0 <= i < |kids[g]| ::
              var n := kids[g][i];
              && n in links && links[n].next == Here(kids[g], i + 1) && links[n].parent == Some(g)
              && ((n in contacts && n in kids && n !in chats) || (n in chats && n !in contacts && n !in kids))
              && n !in buddies
  {
    hide NoDups, Homes;
    assert IsList(links, kids[g], Some(g));
    forall i | 0 <= i < |kids[g]| ensures kids[g][i] in kinds && Holds(kinds[g], kinds[kids[g][i]]) {
      assert kids[g][i] in kids[g];
    }
  }

  /** The nodes of a list and their children. */
  ghost function Under(kids: Kids, s: seq<Id>): set<Id> {
    Members(s) + set n, b | n in s && n in kids && b in kids[n] :: b
  }

  ghost function Below(kids: Kids, n: Id): set<Id> { if n in kids then Members(kids[n]) else {} }

  lemma UnderNext(kids: Kids, s: seq<Id>, k: nat)
    requires k < |s|
    ensures Under(kids, s[..k + 1]) == Under(kids, s[..k]) + {s[k]} + Below(kids, s[k])
    ensures Under(kids, s[k..]) == {s[k]} + Below(kids, s[k]) + Under(kids, s[k + 1..])
  {
    assert s[..k + 1] == s[..k] + [s[k]];
    assert s[k..] == [s[k]] + s[k + 1..];
  }

  /** No node is under two nodes of a group. */
  lemma UnderApart(kinds: KindMap, links: LinkMap, root: Option<Id>, top: seq<Id>, kids: Kids, g: Id, k: nat)
    requires Tree(kinds, links, root, top, kids, {}) && g in kids && kinds[g] == GroupNode && k < |kids[g]|
    ensures Under(kids, kids[g][k + 1..]) !! {kids[g][k]} + Below(kids, kids[g][k])
    ensures kids[g][k] !in Below(kids, kids[g][k])
  {
    hide Tree;
    var s := kids[g];
    var n := s[k];
    OneHome(kinds, links, root, top, kids, {}, g, n);
    forall x | x in Under(kids, s[k + 1..]) ensures x != n && x !in Below(kids, n) {
      if x in s[k + 1..] {
        OneHome(kinds, links, root, top, kids, {}, g, x);
        NotItsOwn(kinds, links, root, top, kids, g, n);
      } else {
        var m :| m in s[k + 1..] && m in kids && x in kids[m];
        OneHome(kinds, links, root, top, kids, {}, m, x);
        OneHome(kinds, links, root, top, kids, {}, g, m);
        NotItsOwn(kinds, links, root, top, kids, g, m);
      }
    }
    NotItsOwn(kinds, links, root, top, kids, g, n);
  }

  lemma NotItsOwn(kinds: KindMap, links: LinkMap, root: Option<Id>, top: seq<Id>, kids: Kids, g: Id, n: Id)
    requires Tree(kinds, links, root, top, kids, {}) && g in kids && g in kinds && kinds[g] == GroupNode && n in kids[g]
    ensures n != g
  {
  }

  /** No node is under two groups. */
  lemma GroupsApart(kinds: KindMap, links: LinkMap, root: Option<Id>, top: seq<Id>, kids: Kids, g: Id, h: Id)
    requires Tree(kinds, links, root, top, kids, {}) && g in kids && h in kids && g in top && h in top && g != h
    ensures Under(kids, kids[g]) !! Under(kids, kids[h])
  {
    hide Tree;
    forall x | x in Under(kids, kids[g]) ensures x !in Under(kids, kids[h]) {
      GroupAbove(kinds, links, root, top, kids, g, x);
      if x in Under(kids, kids[h]) {
        GroupAbove(kinds, links, root, top, kids, h, x);
      }
    }
  }

  lemma GroupAbove(kinds: KindMap, links: LinkMap, root: Option<Id>, top: seq<Id>, kids: Kids, g: Id, x: Id)
    requires Tree(kinds, links, root, top, kids, {}) && g in kids && g in top && x in Under(kids, kids[g])
    ensures x in links && links[x].parent.Some?
    ensures if links[x].parent.value in top then links[x].parent.value == g
            else links[x].parent.value in links && links[links[x].parent.value].parent == Some(g)
  {
    hide Tree;
    if x in kids[g] {
      OneHome(kinds, links, root, top, kids, {}, g, x);
    } else {
      var n :| n in kids[g] && n in kids && x in kids[n];
      OneHome(kinds, links, root, top, kids, {}, g, n);
      OneHome(kinds, links, root, top, kids, {}, n, x);
    }
  }

  lemma UnderEnds(kids: Kids, s: seq<Id>, done: set<Id>)
    ensures done + Under(kids, s[..0]) == done && s[..|s|] == s && s[0..] == s
  {
    assert s[..0] == [];
  }

  /** The group's next node and those under it have not been visited. */
  lemma NodeUnseen(kinds: KindMap, links: LinkMap, root: Option<Id>, top: seq<Id>, kids: Kids, g: Id, k: nat,
                   done: set<Id>)
    requires Tree(kinds, links, root, top, kids, {}) && g in kids && g in kinds && kinds[g] == GroupNode
      && k < |kids[g]|
    requires Under(kids, kids[g][k..]) !! done
    ensures var n := kids[g][k];
      && n !in done && Below(kids, n) !! done
      && Under(kids, kids[g][k + 1..]) !! done + {n} + Below(kids, n)
  {
    hide Tree, Under;
    UnderApart(kinds, links, root, top, kids, g, k);
    UnderNext(kids, kids[g], k);
  }

  ghost function UnderGroup(kids: Kids, g: Id): set<Id> { if g in kids then Under(kids, kids[g]) else {} }

  /** The nodes under the groups of a list. */
  ghost function UnderAll(kids: Kids, top: seq<Id>): set<Id> {
    set g, n | g in top && n in UnderGroup(kids, g) :: n
  }

  lemma UnderAllNext(kids: Kids, top: seq<Id>, k: nat)
    requires k < |top| && top[k] in kids
    ensures UnderAll(kids, top[..k + 1]) == UnderAll(kids, top[..k]) + Under(kids, kids[top[k]])
  {
    hide Under;
    assert top[..k + 1] == top[..k] + [top[k]];
    assert UnderGroup(kids, top[k]) == Under(kids, kids[top[k]]);
    forall x | x in UnderGroup(kids, top[k]) ensures x in UnderAll(kids, top[..k + 1]) {
      assert top[k] in top[..k + 1];
    }
  }

  lemma UnderAllEnds(kids: Kids, top: seq<Id>)
    ensures UnderAll(kids, top[..0]) == {} && top[..|top|] == top
    ensures AllDone(top, kids, UnderAll(kids, top))
  {
    forall g, n | g in top && g in kids && n in kids[g] ensures n in UnderAll(kids, top) {
      assert n in UnderGroup(kids, g);
    }
    forall g, n, b | g in top && g in kids && n in kids[g] && n in kids && b in kids[n]
      ensures b in UnderAll(kids, top)
    {
      assert b in UnderGroup(kids, g);
    }
  }

  /** Nothing under the next group has been visited. */
  lemma GroupUnseen(kinds: KindMap, links: LinkMap, root: Option<Id>, top: seq<Id>, kids: Kids, k: nat)
    requires Tree(kinds, links, root, top, kids, {}) && k < |top| && NoDups(top) && top[k] in kids
    ensures Under(kids, kids[top[k]]) !! UnderAll(kids, top[..k])
  {
    hide Tree, Under;
    forall x | x in UnderAll(kids, top[..k]) ensures x !in Under(kids, kids[top[k]]) {
      var g :| g in top[..k] && x in UnderGroup(kids, g);
      GroupsApart(kinds, links, root, top, kids, top[k], g);
    }
  }

  lemma ListedParents(kinds: KindMap, links: LinkMap, root: Option<Id>, top: seq<Id>, kids: Kids)
    requires Tree(kinds, links, root, top, kids, {})
    ensures forall b | b in UnderAll(kids, top) :: b in links && links[b].parent.Some?
  {
    hide Tree, Under;
    forall b | b in UnderAll(kids, top) ensures b in links && links[b].parent.Some? {
      var g :| g in top && b in UnderGroup(kids, g);
      GroupAbove(kinds, links, root, top, kids, g, b);
    }
  }

  // ----- afterwards

  lemma {:induction false} CountMore(s: seq<Id>, m: set<Id>, m': set<Id>, x: Id)
    requires m <= m' && x in s && x in m' && x !in m
    ensures Count(s, m) < Count(s, m')
    decreases |s|
  {
    if s[0] == x {
      CountAtMost(s[1..], m, m');
    } else {
      CountMore(s[1..], m, m', x);
    }
  }

  lemma {:induction false} CountAtMost(s: seq<Id>, m: set<Id>, m': set<Id>)
    requires m <= m'
    ensures Count(s, m) <= Count(s, m')
    decreases |s|
  {
    if s != [] {
      CountAtMost(s[1..], m, m');
    }
  }

  /** No buddy of the account is left counted: none in the list is signing off. */
  ghost predicate LeavesCleanly(links: LinkMap, buddies: Buddies, a: Account) {
    forall b | b in buddies && buddies[b].account == a && b in links && links[b].parent.Some? ::
      buddies[b].present != SigningOff
  }

  /** No buddy of the account that is not in the list is other than offline. */
  ghost predicate NoneAside(links: LinkMap, buddies: Buddies, a: Account) {
    forall b | b in buddies && buddies[b].account == a && !(b in links && links[b].parent.Some?) ::
      buddies[b].present == Offline
  }

  lemma OnlineEnd(kinds: KindMap, links: LinkMap, root: Option<Id>, top: seq<Id>, kids: Kids, groups: Groups,
                  contacts: Contacts,
                  buddies: Buddies, buddies': Buddies, chats: Chats, nextId: Id, a: Account, connected: set<Account>,
                  adding: bool, done: set<Id>)
    requires Tree(kinds, links, root, top, kids, {}) && Records(kinds, groups, contacts, buddies', chats, nextId)
    requires AllDone(top, kids, done) && Cleared(buddies, buddies', a, adding, done)
    requires forall b | b in done :: b in links && links[b].parent.Some?
    requires Tally(OnlineOf(contacts), OnlineOfGroups(groups), kids, UpOrLeft(buddies, buddies'),
                   LiveChats(chats, Afterwards(connected, a, adding)))
    ensures OnlineTally(contacts, groups, kids, buddies', chats, Afterwards(connected, a, adding)) <==>
      adding || LeavesCleanly(links, buddies, a)
  {
    hide Tree, Tally, Records, AllDone, OnlineOf, OnlineOfGroups, LiveChats;
    var after := Afterwards(connected, a, adding);
    SizeKeys(contacts, groups);
    if adding {
      NothingLeft(buddies, buddies', a, done);
    } else {
      if LeavesCleanly(links, buddies, a) {
        LeftNobody(kinds, links, root, top, kids, groups, contacts, buddies, buddies', chats, nextId, a, done);
        TallySame(OnlineOf(contacts), OnlineOfGroups(groups), kids, UpOrLeft(buddies, buddies'), Up(buddies'),
                  LiveChats(chats, after), LiveChats(chats, after));
      }
      if OnlineTally(contacts, groups, kids, buddies', chats, after) {
        forall b | b in buddies && buddies[b].account == a && b in links && links[b].parent.Some?
          ensures buddies[b].present != SigningOff
        {
          assert b in buddies'.Keys;
          LeftCounted(kinds, links, root, top, kids, groups, contacts, buddies, buddies', chats, nextId, a, done,
                      OnlineOf(contacts), OnlineOfGroups(groups), LiveChats(chats, after), b);
        }
      }
    }
  }

  /** Whoever is not offline then is on a connected account, but for those outside the list. */
  lemma LiveEnd(links: LinkMap, buddies: Buddies, buddies': Buddies, a: Account, connected: set<Account>)
    requires AccountGone(links, buddies, buddies', a) && UpIsLive(buddies, connected)
    ensures UpIsLive(buddies', connected - {a}) <==> NoneAside(links, buddies, a)
  {
    forall b | b in buddies ensures b in buddies' {
      assert b in buddies'.Keys;
    }
    forall b | b in buddies' ensures b in buddies {
      assert b in buddies.Keys;
    }
  }

  lemma NothingLeft(buddies: Buddies, buddies': Buddies, a: Account, done: set<Id>)
    requires Cleared(buddies, buddies', a, true, done)
    ensures buddies' == buddies && UpOrLeft(buddies, buddies') == Up(buddies')
  {
  }

  lemma LeftNobody(kinds: KindMap, links: LinkMap, root: Option<Id>, top: seq<Id>, kids: Kids, groups: Groups,
                   contacts: Contacts,
                   buddies: Buddies, buddies': Buddies, chats: Chats, nextId: Id, a: Account, done: set<Id>)
    requires Tree(kinds, links, root, top, kids, {}) && Records(kinds, groups, contacts, buddies', chats, nextId)
    requires AllDone(top, kids, done) && Cleared(buddies, buddies', a, false, done) && LeavesCleanly(links, buddies, a)
    requires forall b | b in done :: b in links && links[b].parent.Some?
    ensures UpOrLeft(buddies, buddies') == Up(buddies')
  {
    hide Tree, Records, AllDone;
    forall b | b in buddies' ensures b in buddies && (buddies[b].present == SigningOff ==> buddies'[b] == buddies[b]) {
      assert b in buddies.Keys;
    }
  }

  /** A buddy that was signing off is counted for ever. */
  lemma LeftCounted(kinds: KindMap, links: LinkMap, root: Option<Id>, top: seq<Id>, kids: Kids, groups: Groups,
                    contacts: Contacts,
                    buddies: Buddies, buddies': Buddies, chats: Chats, nextId: Id, a: Account, done: set<Id>,
                    sizes: Tallies, groupSizes: Tallies,
                    marks: set<Id>, b: Id)
    requires Tree(kinds, links, root, top, kids, {}) && Records(kinds, groups, contacts, buddies', chats, nextId)
    requires AllDone(top, kids, done) && Cleared(buddies, buddies', a, false, done)
    requires Tally(sizes, groupSizes, kids, UpOrLeft(buddies, buddies'), marks)
      && Tally(sizes, groupSizes, kids, Up(buddies'), marks)
    requires sizes.Keys == contacts.Keys && b in buddies && b in buddies' && buddies[b].account == a && b in links
      && links[b].parent.Some?
    ensures buddies[b].present != SigningOff
  {
    hide Tree, Records, AllDone;
    if buddies[b].present == SigningOff {
      var c := links[b].parent.value;
      BuddyPlace(kinds, links, root, top, kids, {}, groups, contacts, buddies', chats, nextId, b, c);
      BuddyDone(kinds, links, root, top, kids, groups, contacts, buddies', chats, nextId, done, c, b);
      UpOnly(buddies, buddies', a, done);
      assert c in sizes.Keys;
      CountMore(kids[c], Up(buddies'), UpOrLeft(buddies, buddies'), b);
    }
  }

  lemma UpOnly(buddies: Buddies, buddies': Buddies, a: Account, done: set<Id>)
    requires Cleared(buddies, buddies', a, false, done)
    ensures Up(buddies') <= UpOrLeft(buddies, buddies')
  {
    assert forall b | b in buddies' :: b in buddies.Keys;
  }

  /** What becomes of the buddies when an account goes: those of it that are in the list are cleared. */
  ghost predicate AccountGone(links: LinkMap, buddies: Buddies, buddies': Buddies, a: Account) {
    && buddies'.Keys == buddies.Keys
    && forall b | b in buddies :: buddies'[b] ==
         if buddies[b].account == a && b in links && links[b].parent.Some? then Clear(buddies[b]) else buddies[b]
  }

  lemma ClearedAll(kinds: KindMap, links: LinkMap, root: Option<Id>, top: seq<Id>, kids: Kids, groups: Groups,
                   contacts: Contacts,
                   buddies: Buddies, buddies': Buddies, chats: Chats, nextId: Id, a: Account, done: set<Id>)
    requires Tree(kinds, links, root, top, kids, {}) && Records(kinds, groups, contacts, buddies', chats, nextId)
    requires AllDone(top, kids, done) && Cleared(buddies, buddies', a, false, done)
    requires forall b | b in done :: b in links && links[b].parent.Some?
    ensures AccountGone(links, buddies, buddies', a)
  {
    hide Tree, Records, AllDone, Clear;
    forall b | b in buddies && b in links && links[b].parent.Some? ensures b in done {
      assert b in buddies'.Keys;
      BuddyPlace(kinds, links, root, top, kids, {}, groups, contacts, buddies', chats, nextId, b,
                 links[b].parent.value);
      BuddyDone(kinds, links, root, top, kids, groups, contacts, buddies', chats, nextId, done, links[b].parent.value,
                b);
    }
  }

  lemma MidwayStart(cfg: Config, kinds: KindMap, links: LinkMap, root: Option<Id>, top: seq<Id>, kids: Kids,
                    groups: Groups,
                    contacts: Contacts, buddies: Buddies, chats: Chats, nextId: Id, index: Index,
                    connected: set<Account>, a: Account, adding: bool, s: Start)
    requires OkState(cfg, kinds, links, root, top, kids, {}, groups, contacts, buddies, chats, nextId, connected)
    requires adding == (a !in connected) && s.buddies == buddies && s.groups == groups && s.connected == connected
    requires s.online ==> OnlineTally(contacts, groups, kids, buddies, chats, connected)
    requires s.indexed ==> IndexAs(cfg, index, buddies, HomesOf(links, buddies))
    requires s.timed ==> Pending(buddies)
    ensures Midway(cfg, kinds, links, root, top, kids, groups, contacts, buddies, chats, nextId, index,
                   Afterwards(connected, a, adding), a, adding, s, {}, None)
  {
    hide OkState, Mid, MidOnline, Cleared, SameNames, IndexAs, HomesOf, Pending, UpOrLeft, Afterwards, OnlineTally;
    MidStart(cfg, kinds, links, root, top, kids, groups, contacts, buddies, chats, nextId, a, connected, adding);
    ClearedStart(buddies, a, adding);
    SameGroupNames(groups);
  }

  lemma LiveMore(buddies: Buddies, connected: set<Account>, a: Account)
    ensures UpIsLive(buddies, connected) ==> UpIsLive(buddies, connected + {a})
  {
  }

  lemma MidwayEnd(cfg: Config, kinds: KindMap, links: LinkMap, root: Option<Id>, top: seq<Id>, kids: Kids,
                  groups: Groups,
                  contacts: Contacts, buddies: Buddies, chats: Chats, nextId: Id, index: Index, connected: set<Account>,
                  a: Account, adding: bool, s: Start,
                  done: set<Id>)
    requires Midway(cfg, kinds, links, root, top, kids, groups, contacts, buddies, chats, nextId, index, connected, a,
                    adding, s, done, None)
    requires adding == (a !in s.connected) && AllDone(top, kids, done)
    requires forall b | b in done :: b in links && links[b].parent.Some?
    ensures OkState(cfg, kinds, links, root, top, kids, {}, groups, contacts, buddies, chats, nextId, connected)
    ensures s.online ==>
      (OnlineTally(contacts, groups, kids, buddies, chats, connected) <==> adding || LeavesCleanly(links, s.buddies, a))
    ensures UpIsLive(s.buddies, s.connected) ==>
      (UpIsLive(buddies, connected) <==> adding || NoneAside(links, s.buddies, a))
    ensures adding ==> buddies == s.buddies
    ensures !adding ==> AccountGone(links, s.buddies, buddies, a)
  {
    hide OkState, Mid, MidOnline, Cleared, SameNames, IndexAs, HomesOf, Pending, UpOrLeft, OnlineTally, Tree, Records,
         AllDone,
         LeavesCleanly, NoneAside, AccountGone, OnlineOf, OnlineOfGroups, LiveChats, UpIsLive, Tally;
    MidTree(cfg, kinds, links, root, top, kids, groups, contacts, buddies, chats, nextId, a, s.connected, adding, done,
            None);
    MidEnd(cfg, kinds, links, root, top, kids, groups, contacts, buddies, chats, nextId, a, s.connected, adding, done,
           UpOrLeft(s.buddies, buddies));
    if s.online {
      OnlineEnd(kinds, links, root, top, kids, groups, contacts, s.buddies, buddies, chats, nextId, a, s.connected,
                adding, done);
    }
    if adding {
      NothingLeft(s.buddies, buddies, a, done);
      LiveMore(buddies, s.connected, a);
    } else {
      ClearedAll(kinds, links, root, top, kids, groups, contacts, s.buddies, buddies, chats, nextId, a, done);
      if UpIsLive(s.buddies, s.connected) {
        LiveEnd(links, s.buddies, buddies, a, s.connected);
      }
    }
  }
}
