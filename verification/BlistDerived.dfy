/** The records of the buddy list and what a change of the tree does to the state derived from it. */
module BlistDerived {
  import opened BlistTree
  import opened BlistState
  import opened Wrappers

  type Contacts = map<Id, Contact>
  type Groups = map<Id, Group>
  type Chats = map<Id, Account>

  // ----- what the counters count

  function CurOf(contacts: Contacts): Tallies { map c | c in contacts :: contacts[c].currentsize }
  function CurOfGroups(groups: Groups): Tallies { map g | g in groups :: groups[g].currentsize }
  function OnlineOf(contacts: Contacts): Tallies { map c | c in contacts :: contacts[c].online }
  function OnlineOfGroups(groups: Groups): Tallies { map g | g in groups :: groups[g].online }

  /** Buddies and chats of connected accounts, and buddies that are not offline. */
  function Live(buddies: Buddies, connected: set<Account>): set<Id>
  {
    set b | b in buddies && buddies[b].account in connected
  }
  function LiveChats(chats: Chats, connected: set<Account>): set<Id> { set n | n in chats && chats[n] in connected }
  function Up(buddies: Buddies): set<Id> { set b | b in buddies && buddies[b].present != Offline }

  ghost predicate CurTally(contacts: Contacts, groups: Groups, kids: Kids, buddies: Buddies, chats: Chats,
                           connected: set<Account>)
  {
    Tally(CurOf(contacts), CurOfGroups(groups), kids, Live(buddies, connected), LiveChats(chats, connected))
  }

  ghost predicate OnlineTally(contacts: Contacts, groups: Groups, kids: Kids, buddies: Buddies, chats: Chats,
                              connected: set<Account>)
  {
    Tally(OnlineOf(contacts), OnlineOfGroups(groups), kids, Up(buddies), LiveChats(chats, connected))
  }

  /** Whoever is not offline is on a connected account. */
  ghost predicate UpIsLive(buddies: Buddies, connected: set<Account>) {
    forall b | b in buddies && buddies[b].present != Offline :: buddies[b].account in connected
  }

  ghost predicate Totals(contacts: Contacts, kids: Kids) {
    forall c | c in contacts :: c in kids && contacts[c].totalsize == |kids[c]|
  }

  ghost predicate Bests(cfg: Config, buddies: Buddies, connected: set<Account>, contacts: Contacts, kids: Kids) {
    forall c | c in contacts :: c in kids && IsBest(cfg, buddies, connected, kids[c], contacts[c].priority)
  }

  /** Every node has the record of its kind. */
  ghost predicate Records(kinds: KindMap, groups: Groups, contacts: Contacts, buddies: Buddies, chats: Chats,
                          nextId: Id)
  {
    && (forall n :: n in groups <==> n in kinds && kinds[n] == GroupNode)
    && (forall n :: n in contacts <==> n in kinds && kinds[n] == ContactNode)
    && (forall n :: n in buddies <==> n in kinds && kinds[n] == BuddyNode)
    && (forall n :: n in chats <==> n in kinds && kinds[n] == ChatNode)
    && (forall n | n in kinds :: n < nextId)
  }

  function ContactLess(c: Contact, live: bool, online: bool): Contact {
    Contact(c.totalsize - 1, c.currentsize - One(live), c.online - One(online), c.priority)
  }

  function GroupLess(g: Group, c: Contact, live: bool, online: bool): Group {
    Group(g.name, g.currentsize - One(live && c.currentsize == 1), g.online - One(online && c.online == 1))
  }

  function ContactPlus(c: Contact, live: bool, online: bool): Contact {
    Contact(c.totalsize + 1, c.currentsize + One(live), c.online + One(online), c.priority)
  }

  function GroupPlus(g: Group, c: Contact, live: bool, online: bool): Group {
    Group(g.name, g.currentsize + One(live && c.currentsize == 0), g.online + One(online && c.online == 0))
  }

  lemma SizesOf(contacts: Contacts, groups: Groups, c: Id, x: Contact, g: Id, y: Group)
    requires c in contacts && g in groups
    ensures CurOf(contacts[c := x]) == CurOf(contacts)[c := x.currentsize]
    ensures CurOfGroups(groups[g := y]) == CurOfGroups(groups)[g := y.currentsize]
    ensures OnlineOf(contacts[c := x]) == OnlineOf(contacts)[c := x.online]
    ensures OnlineOfGroups(groups[g := y]) == OnlineOfGroups(groups)[g := y.online]
  {
  }

  lemma SameUpdate(m: Tallies, k: Id)
    requires k in m
    ensures m[k := m[k]] == m
  {
  }

  lemma LessSizes(contacts: Contacts, groups: Groups, c: Id, g: Id, live: bool, online: bool)
    requires c in contacts && g in groups
    ensures var contacts', groups' :=
      contacts[c := ContactLess(contacts[c], live, online)],
      groups[g := GroupLess(groups[g], contacts[c], live, online)];
      && CurOf(contacts') == Fewer(CurOf(contacts), CurOfGroups(groups), c, g, live).0
      && CurOfGroups(groups') == Fewer(CurOf(contacts), CurOfGroups(groups), c, g, live).1
      && OnlineOf(contacts') == Fewer(OnlineOf(contacts), OnlineOfGroups(groups), c, g, online).0
      && OnlineOfGroups(groups') == Fewer(OnlineOf(contacts), OnlineOfGroups(groups), c, g, online).1
  {
    SameUpdate(CurOf(contacts), c);
    SameUpdate(CurOfGroups(groups), g);
    SameUpdate(OnlineOf(contacts), c);
    SameUpdate(OnlineOfGroups(groups), g);
    SizesOf(contacts, groups, c, ContactLess(contacts[c], live, online), g,
            GroupLess(groups[g], contacts[c], live, online));
  }

  lemma PlusSizes(contacts: Contacts, groups: Groups, c: Id, g: Id, live: bool, online: bool)
    requires c in contacts && g in groups
    ensures var contacts', groups' :=
      contacts[c := ContactPlus(contacts[c], live, online)],
      groups[g := GroupPlus(groups[g], contacts[c], live, online)];
      && CurOf(contacts') == More(CurOf(contacts), CurOfGroups(groups), c, g, live).0
      && CurOfGroups(groups') == More(CurOf(contacts), CurOfGroups(groups), c, g, live).1
      && OnlineOf(contacts') == More(OnlineOf(contacts), OnlineOfGroups(groups), c, g, online).0
      && OnlineOfGroups(groups') == More(OnlineOf(contacts), OnlineOfGroups(groups), c, g, online).1
  {
    SameUpdate(CurOf(contacts), c);
    SameUpdate(CurOfGroups(groups), g);
    SameUpdate(OnlineOf(contacts), c);
    SameUpdate(OnlineOfGroups(groups), g);
    SizesOf(contacts, groups, c, ContactPlus(contacts[c], live, online), g,
            GroupPlus(groups[g], contacts[c], live, online));
  }

  /** The neighbours of a child are other nodes of the tree. */
  lemma NeighboursOf(links: LinkMap, root: Option<Id>, top: seq<Id>, kids: Kids, p: Id, n: Id)
    requires Shape(links, root, top, kids) && p in kids && n in kids[p]
    ensures n in links && p in links && links[n].parent == Some(p)
    ensures links[n].prev.Some? ==>
      links[n].prev.value in links && links[n].prev.value != n && links[n].prev != links[n].next
    ensures links[n].next.Some? ==> links[n].next.value in links && links[n].next.value != n
  {
    var s := kids[p];
    var i := Place(s, n);
    assert IsList(links, s, Some(p));
    assert i + 1 < |s| ==> s[i + 1] in links;
    assert i > 0 ==> s[i - 1] in links;
  }

  lemma UnlinkedBy(links: LinkMap, links': LinkMap, n: Id)
    requires n in links && links[n].parent.Some? && links[n].parent.value in links
    requires links[n].prev.Some? ==>
      links[n].prev.value in links && links[n].prev.value != n && links[n].prev != links[n].next
    requires links[n].next.Some? ==> links[n].next.value in links && links[n].next.value != n
    requires
      var l := links[n];
      var a := if l.prev.Some? then links[l.prev.value := links[l.prev.value].(next := l.next)] else links;
      var b := if l.next.Some? then a[l.next.value := a[l.next.value].(prev := l.prev)] else a;
      links' == if b[l.parent.value].child == Some(n) then b[l.parent.value := b[l.parent.value].(child := l.next)]
        else b
    ensures UnlinkedAs(links, links', n)
  {
  }

  lemma SiblingsAt(kinds: KindMap, links: LinkMap, root: Option<Id>, top: seq<Id>, kids: Kids, loose: set<Id>, p: Id,
                   sib: Id)
    requires Tree(kinds, links, root, top, kids, loose) && p in kids && sib in kids[p]
    ensures kinds[p] == GroupNode ==> p in top
    ensures links[sib].next.Some? ==> links[sib].next.value in links && links[sib].next.value != sib
    ensures var i := Place(kids[p], sib) + 1;
      i <= |kids[p]| && Before(kids[p], i) == Some(sib) && sib in links && Here(kids[p], i) == links[sib].next
  {
    assert IsList(links, kids[p], Some(p));
  }

  lemma FirstChild(kinds: KindMap, links: LinkMap, root: Option<Id>, top: seq<Id>, kids: Kids, loose: set<Id>, p: Id)
    requires Tree(kinds, links, root, top, kids, loose) && p in kids
    ensures links[p].child != Some(p)
    ensures p in links && links[p].child == Here(kids[p], 0) && Before(kids[p], 0) == None
    ensures links[p].child.Some? ==> links[p].child.value in links && links[p].child.value in kids[p]
  {
    assert IsList(links, kids[p], Some(p));
  }

  /** A loose node is neither a child of `p` nor next to one. */
  lemma LooseIsLoose(kinds: KindMap, links: LinkMap, root: Option<Id>, top: seq<Id>, kids: Kids, loose: set<Id>, p: Id,
                     n: Id)
    requires Tree(kinds, links, root, top, kids, loose) && n in loose && p in kids
    ensures n in links && n !in kids[p] && (p in kinds && kinds[p] == GroupNode ==> n != p)
    ensures forall m | m in kids[p] :: m in links && links[m].next != Some(n) && links[m].prev != Some(n)
    ensures p in links && links[p].child != Some(n)
  {
    assert IsList(links, kids[p], Some(p));
    forall m | m in kids[p] ensures m in links && links[m].next != Some(n) && links[m].prev != Some(n) {
      var i := Place(kids[p], m);
      assert links[kids[p][i]].prev == Before(kids[p], i);
    }
  }

  lemma LinkedByAfter(links: LinkMap, links': LinkMap, n: Id, sib: Id)
    requires n in links && sib in links && n != sib && links[sib].next != Some(n) && links[sib].next != Some(sib)
    requires links[sib].next.Some? ==> links[sib].next.value in links
    requires
      var l := links[sib];
      var a := if l.next.Some? then links[l.next.value := links[l.next.value].(prev := Some(n))] else links;
      links' == a[n := Links(Some(sib), l.next, l.parent, links[n].child)][sib := l.(next := Some(n))]
    ensures LinkedAs(links, links', n, links[sib].parent, Some(sib), links[sib].next)
  {
  }

  lemma LinkedByFirst(links: LinkMap, links': LinkMap, n: Id, p: Id)
    requires n in links && p in links && n != p && links[p].child != Some(n) && links[p].child != Some(p)
    requires links[p].child.Some? ==> links[p].child.value in links
    requires
      var l := links[p];
      var a := if l.child.Some? then links[l.child.value := links[l.child.value].(prev := Some(n))] else links;
      links' == a[n := Links(None, l.child, Some(p), links[n].child)][p := l.(child := Some(n))]
    ensures LinkedAs(links, links', n, Some(p), None, links[p].child)
  {
  }

  lemma NoBest(cfg: Config, buddies: Buddies, connected: set<Account>, s: seq<Id>)
    ensures IsBest(cfg, buddies, connected, s[..0], None)
  {
  }

  lemma CandidateIs(buddies: Buddies, connected: set<Account>, b: Id)
    requires b in buddies
    ensures Candidate(buddies, connected, b) <==> buddies[b].account in connected
  {
  }

  lemma ScoreBound(cfg: Config, b: Buddy, connected: set<Account>)
    requires Scores(cfg)
    ensures Score(cfg, b, connected) < INT_MAX
  {
  }

  lemma ContactKids(kinds: KindMap, links: LinkMap, root: Option<Id>, top: seq<Id>, kids: Kids, loose: set<Id>, c: Id)
    requires Tree(kinds, links, root, top, kids, loose) && c in kinds && kinds[c] == ContactNode
    ensures c in kids && c in links && links[c].child == Here(kids[c], 0)
    ensures forall i | 0 <= i < |kids[c]| :: kids[c][i] in links && links[kids[c][i]].next == Here(kids[c], i + 1)
    ensures forall n | n in kids[c] :: n in kinds && kinds[n] == BuddyNode
  {
    hide Homes;
    assert IsList(links, kids[c], Some(c));
  }

  /** Walking the buddies of a contact. */
  lemma ContactList(kinds: KindMap, links: LinkMap, root: Option<Id>, top: seq<Id>, kids: Kids, loose: set<Id>,
                    groups: Groups, contacts: Contacts, buddies: Buddies, chats: Chats, nextId: Id, c: Id)
    requires Tree(kinds, links, root, top, kids, loose) && Records(kinds, groups, contacts, buddies, chats, nextId)
      && c in contacts
    ensures c in kids && c in links && links[c].child == Here(kids[c], 0)
    ensures forall i | 0 <= i < |kids[c]| ::
              kids[c][i] in links && kids[c][i] in buddies && links[kids[c][i]].next == Here(kids[c], i + 1)
  {
    hide Tree, Here;
    ContactKids(kinds, links, root, top, kids, loose, c);
    forall i | 0 <= i < |kids[c]| ensures kids[c][i] in buddies {
      assert kids[c][i] in kids[c];
    }
  }

  /** All of the derived state but the online counts and the index is right; the loose nodes are between places. */
  ghost predicate OkState(cfg: Config, kinds: KindMap, links: LinkMap, root: Option<Id>, top: seq<Id>, kids: Kids,
                          loose: set<Id>,
                          groups: Groups, contacts: Contacts, buddies: Buddies, chats: Chats, nextId: Id,
                          connected: set<Account>)
  {
    && Tree(kinds, links, root, top, kids, loose)
    && Records(kinds, groups, contacts, buddies, chats, nextId)
    && Totals(contacts, kids)
    && CurTally(contacts, groups, kids, buddies, chats, connected)
    && Bests(cfg, buddies, connected, contacts, kids)
    && Scores(cfg)
  }

  /** The same, but for the priority of one contact. */
  ghost predicate OkButState(cfg: Config, kinds: KindMap, links: LinkMap, root: Option<Id>, top: seq<Id>, kids: Kids,
                             loose: set<Id>,
                             groups: Groups, contacts: Contacts, buddies: Buddies, chats: Chats, nextId: Id,
                             connected: set<Account>, c: Id)
  {
    && Tree(kinds, links, root, top, kids, loose)
    && Records(kinds, groups, contacts, buddies, chats, nextId)
    && Totals(contacts, kids)
    && CurTally(contacts, groups, kids, buddies, chats, connected)
    && BestsBut(cfg, buddies, connected, contacts, kids, c)
    && Scores(cfg)
  }

  ghost predicate OnlineState(groups: Groups, contacts: Contacts, kids: Kids, buddies: Buddies, chats: Chats,
                              connected: set<Account>)
  {
    OnlineTally(contacts, groups, kids, buddies, chats, connected) && UpIsLive(buddies, connected)
  }

  /** The groups have kept their names; their counters are another matter. */
  ghost predicate SameNames(groups: Groups, groups': Groups) {
    groups'.Keys == groups.Keys && forall g | g in groups :: groups'[g].name == groups[g].name
  }

  lemma SameGroupNames(groups: Groups)
    ensures SameNames(groups, groups)
  {
  }

  /** No online count has changed. */
  ghost predicate SameOnline(groups: Groups, groups': Groups) {
    groups'.Keys == groups.Keys && forall g | g in groups :: groups'[g].online == groups[g].online
  }

  lemma SameOnlineLess(groups: Groups, g: Id, c: Contact, live: bool)
    requires g in groups
    ensures SameOnline(groups, groups[g := GroupLess(groups[g], c, live, false)])
  {
  }

  lemma SameOnlinePlus(groups: Groups, g: Id, c: Contact, live: bool)
    ensures g in groups ==> SameOnline(groups, groups[g := GroupPlus(groups[g], c, live, false)])
  {
  }

  lemma SameOnlineChain(a: Groups, b: Groups, c: Groups)
    requires SameOnline(a, b) && SameOnline(b, c)
    ensures SameOnline(a, c)
  {
  }

  lemma SameNamesChain(a: Groups, b: Groups, c: Groups)
    requires SameNames(a, b) && SameNames(b, c)
    ensures SameNames(a, c)
  {
  }

  lemma OneRenamed(groups: Groups, g: Id, y: Group)
    requires g in groups && y.name == groups[g].name
    ensures SameNames(groups, groups[g := y]) && SameNames(groups, groups)
  {
  }

  // ----- the derived state when a buddy comes or goes

  lemma NestedInTree(kinds: KindMap, links: LinkMap, root: Option<Id>, top: seq<Id>, kids: Kids, loose: set<Id>,
                     groups: Groups, contacts: Contacts, buddies: Buddies, chats: Chats, nextId: Id, marks: set<Id>,
                     c: Id, g: Id)
    requires Tree(kinds, links, root, top, kids, loose) && Records(kinds, groups, contacts, buddies, chats, nextId)
    requires c in contacts && c !in loose && c in links && links[c].parent == Some(g) && marks <= chats.Keys
    ensures g in groups && c in kids && g in kids && c in kids[g]
    ensures Nested(CurOf(contacts), CurOfGroups(groups), kids, marks, c, g)
    ensures Nested(OnlineOf(contacts), OnlineOfGroups(groups), kids, marks, c, g)
  {
    hide Tree, NoDups, CurOf, CurOfGroups, OnlineOf, OnlineOfGroups;
    SizeKeys(contacts, groups);
    ContactKids(kinds, links, root, top, kids, loose, c);
    HomeOf(kinds, links, root, top, kids, loose, c, g);
    OneHome(kinds, links, root, top, kids, loose, g, c);
  }

  lemma SizeKeys(contacts: Contacts, groups: Groups)
    ensures CurOf(contacts).Keys == OnlineOf(contacts).Keys == contacts.Keys
    ensures CurOfGroups(groups).Keys == OnlineOfGroups(groups).Keys == groups.Keys
  {
  }

  lemma HomeOf(kinds: KindMap, links: LinkMap, root: Option<Id>, top: seq<Id>, kids: Kids, loose: set<Id>, n: Id, p: Id)
    requires Tree(kinds, links, root, top, kids, loose) && n in kinds && n in links && n !in loose
      && links[n].parent == Some(p)
    ensures p in kids && n in kids[p] && p in kinds && Holds(kinds[p], kinds[n])
  {
    assert Home(kinds[n], links[n].parent, kids, n);
  }

  /** The lists of all contacts but `c` have their best buddy. */
  ghost predicate BestsBut(cfg: Config, buddies: Buddies, connected: set<Account>, contacts: Contacts, kids: Kids,
                           c: Id)
  {
    forall d | d in contacts && d != c :: d in kids && IsBest(cfg, buddies, connected, kids[d], contacts[d].priority)
  }

  lemma LiveMark(buddies: Buddies, connected: set<Account>, b: Id)
    requires b in buddies
    ensures b in Live(buddies, connected) <==> buddies[b].account in connected
    ensures b in Up(buddies) <==> buddies[b].present != Offline
  {
  }

  /** The code tells by `IsOnline` what the counts tell by `Up`, unless the buddy is signing off. */
  lemma UpMark(buddies: Buddies, connected: set<Account>, b: Id)
    requires b in buddies && UpIsLive(buddies, connected)
    ensures (b in Up(buddies)) == (IsOnline(buddies[b], connected) || buddies[b].present == SigningOff)
  {
  }

  lemma LeaveSizes(contacts: Contacts, groups: Groups, kids: Kids, buddies: Buddies, chats: Chats,
                   connected: set<Account>, c: Id, g: Id, b: Id)
    requires CurTally(contacts, groups, kids, buddies, chats, connected) && Totals(contacts, kids)
    requires c in contacts && g in groups
      && Nested(CurOf(contacts), CurOfGroups(groups), kids, LiveChats(chats, connected), c, g)
    requires b in buddies && b in kids[c]
    ensures
      var live, online := buddies[b].account in connected, IsOnline(buddies[b], connected);
      var contacts', groups' :=
        contacts[c := ContactLess(contacts[c], live, online)],
        groups[g := GroupLess(groups[g], contacts[c], live, online)];
      var kids' := kids[c := Drop(kids[c], b)];
      CurTally(contacts', groups', kids', buddies, chats, connected) && Totals(contacts', kids')
  {
    hide Tally, Live, LiveChats, CurOf, CurOfGroups, OnlineOf, OnlineOfGroups, Fewer, Nested, Place;
    var live, online := buddies[b].account in connected, IsOnline(buddies[b], connected);
    LiveMark(buddies, connected, b);
    LessSizes(contacts, groups, c, g, live, online);
    TallyLeave(CurOf(contacts), CurOfGroups(groups), kids, Live(buddies, connected), LiveChats(chats, connected), c, g,
               Place(kids[c], b));
  }

  /** The online counts are right but for that of one contact, which may be too high. */
  ghost predicate OnlineBeside(contacts: Contacts, groups: Groups, kids: Kids, buddies: Buddies, chats: Chats,
                               connected: set<Account>, c: Id)
  {
    TallyBeside(OnlineOf(contacts), OnlineOfGroups(groups), kids, Up(buddies), LiveChats(chats, connected), c)
  }

  function OnlineExcess(contacts: Contacts, kids: Kids, buddies: Buddies, c: Id): int {
    Excess(OnlineOf(contacts), kids, Up(buddies), c)
  }

  lemma OnlineBesideIs(contacts: Contacts, groups: Groups, kids: Kids, buddies: Buddies, chats: Chats,
                       connected: set<Account>, c: Id)
    ensures OnlineTally(contacts, groups, kids, buddies, chats, connected) <==>
            OnlineBeside(contacts, groups, kids, buddies, chats, connected, c)
              && OnlineExcess(contacts, kids, buddies, c) == 0
  {
    BesideIsTally(OnlineOf(contacts), OnlineOfGroups(groups), kids, Up(buddies), LiveChats(chats, connected), c);
  }

  lemma LeaveBeside(contacts: Contacts, groups: Groups, kids: Kids, buddies: Buddies, chats: Chats,
                    connected: set<Account>, c: Id, g: Id, b: Id)
    requires OnlineBeside(contacts, groups, kids, buddies, chats, connected, c) && UpIsLive(buddies, connected)
    requires c in contacts && g in groups
      && Nested(OnlineOf(contacts), OnlineOfGroups(groups), kids, LiveChats(chats, connected), c, g)
    requires b in buddies && c in kids && b in kids[c]
    ensures
      var live, online := buddies[b].account in connected, IsOnline(buddies[b], connected);
      var contacts', groups' :=
        contacts[c := ContactLess(contacts[c], live, online)],
        groups[g := GroupLess(groups[g], contacts[c], live, online)];
      var kids' := kids[c := Drop(kids[c], b)];
      && OnlineBeside(contacts', groups', kids', buddies, chats, connected, c)
      && OnlineExcess(contacts', kids', buddies, c) ==
        OnlineExcess(contacts, kids, buddies, c) + One(buddies[b].present == SigningOff)
  {
    hide TallyBeside, Excess, Up, LiveChats, CurOf, CurOfGroups, OnlineOf, OnlineOfGroups, Fewer, Nested, Place,
         UpIsLive;
    var live, online := buddies[b].account in connected, IsOnline(buddies[b], connected);
    UpCounts(buddies, connected, b);
    LessSizes(contacts, groups, c, g, live, online);
    BesideLeave(OnlineOf(contacts), OnlineOfGroups(groups), kids, Up(buddies), LiveChats(chats, connected), c, g,
                Place(kids[c], b), online);
  }

  lemma SameExcess(contacts: Contacts, kids: Kids, kids': Kids, buddies: Buddies, c: Id)
    requires c in kids && c in kids' && kids'[c] == kids[c]
    ensures OnlineExcess(contacts, kids', buddies, c) == OnlineExcess(contacts, kids, buddies, c)
  {
  }

  lemma UpCounts(buddies: Buddies, connected: set<Account>, b: Id)
    requires UpIsLive(buddies, connected) && b in buddies
    ensures IsOnline(buddies[b], connected) ==> b in Up(buddies)
    ensures One(b in Up(buddies)) - One(IsOnline(buddies[b], connected)) == One(buddies[b].present == SigningOff)
  {
  }

  /** The buddies that are signing off. */
  function Leaving(buddies: Buddies): set<Id> { set b | b in buddies && buddies[b].present == SigningOff }

  ghost predicate NoneLeaving(buddies: Buddies, s: seq<Id>)
  {
    forall b | b in s && b in buddies :: buddies[b].present != SigningOff
  }

  lemma LeavingCount(buddies: Buddies, s: seq<Id>)
    ensures Count(s, Leaving(buddies)) == 0 <==> NoneLeaving(buddies, s)
  {
    CountZero(s, Leaving(buddies));
  }

  lemma LeavingStart(buddies: Buddies, s: seq<Id>)
    ensures Count(s[..0], Leaving(buddies)) == 0
  {
  }

  lemma LeavingNext(buddies: Buddies, s: seq<Id>, k: nat)
    requires k < |s| && s[k] in buddies
    ensures Count(s[..k + 1], Leaving(buddies)) ==
      Count(s[..k], Leaving(buddies)) + One(buddies[s[k]].present == SigningOff)
    ensures k + 1 == |s| ==> s[..k + 1] == s
  {
    assert s[..k + 1] == s[..k] + [s[k]];
    CountSplit(s[..k], [s[k]], Leaving(buddies));
    CountSingle(s[k], Leaving(buddies));
  }

  lemma JoinSizes(contacts: Contacts, groups: Groups, kids: Kids, buddies: Buddies, chats: Chats,
                  connected: set<Account>, c: Id, g: Id, i: nat, b: Id)
    requires CurTally(contacts, groups, kids, buddies, chats, connected) && Totals(contacts, kids)
    requires c in contacts && g in groups
      && Nested(CurOf(contacts), CurOfGroups(groups), kids, LiveChats(chats, connected), c, g)
    requires b in buddies && i <= |kids[c]|
    ensures
      var live, online := buddies[b].account in connected, IsOnline(buddies[b], connected);
      var contacts', groups' :=
        contacts[c := ContactPlus(contacts[c], live, online)],
        groups[g := GroupPlus(groups[g], contacts[c], live, online)];
      var kids' := kids[c := With(kids[c], i, b)];
      CurTally(contacts', groups', kids', buddies, chats, connected) && Totals(contacts', kids')
  {
    hide Tally, Live, LiveChats, CurOf, CurOfGroups, OnlineOf, OnlineOfGroups, More, Nested;
    var live, online := buddies[b].account in connected, IsOnline(buddies[b], connected);
    LiveMark(buddies, connected, b);
    PlusSizes(contacts, groups, c, g, live, online);
    TallyJoin(CurOf(contacts), CurOfGroups(groups), kids, Live(buddies, connected), LiveChats(chats, connected), c, g,
              i, b);
  }

  lemma JoinOnline(contacts: Contacts, groups: Groups, kids: Kids, buddies: Buddies, chats: Chats,
                   connected: set<Account>, c: Id, g: Id, i: nat, b: Id)
    requires OnlineTally(contacts, groups, kids, buddies, chats, connected) && UpIsLive(buddies, connected)
    requires c in contacts && g in groups
      && Nested(OnlineOf(contacts), OnlineOfGroups(groups), kids, LiveChats(chats, connected), c, g)
    requires b in buddies && i <= |kids[c]| && buddies[b].present != SigningOff
    ensures
      var live, online := buddies[b].account in connected, IsOnline(buddies[b], connected);
      var contacts', groups' :=
        contacts[c := ContactPlus(contacts[c], live, online)],
        groups[g := GroupPlus(groups[g], contacts[c], live, online)];
      OnlineTally(contacts', groups', kids[c := With(kids[c], i, b)], buddies, chats, connected)
  {
    hide Tally, Up, LiveChats, CurOf, CurOfGroups, OnlineOf, OnlineOfGroups, More, Nested, UpIsLive;
    var live, online := buddies[b].account in connected, IsOnline(buddies[b], connected);
    UpMark(buddies, connected, b);
    PlusSizes(contacts, groups, c, g, live, online);
    TallyJoin(OnlineOf(contacts), OnlineOfGroups(groups), kids, Up(buddies), LiveChats(chats, connected), c, g, i, b);
  }

  /** The priority is no counter. */
  lemma PrioritySizes(contacts: Contacts, c: Id, p: Option<Id>)
    requires c in contacts
    ensures CurOf(contacts[c := contacts[c].(priority := p)]) == CurOf(contacts)
    ensures OnlineOf(contacts[c := contacts[c].(priority := p)]) == OnlineOf(contacts)
  {
  }

  /** A contact without buddies is gone, and with it its counters, which are 0. */
  lemma GoneSizes(contacts: Contacts, groups: Groups, c: Id)
    ensures CurOf(contacts - {c}) == CurOf(contacts) - {c} && OnlineOf(contacts - {c}) == OnlineOf(contacts) - {c}
  {
  }

  lemma TallyGone(sizes: Tallies, groupSizes: Tallies, kids: Kids, marked: set<Id>, chats: set<Id>, g: Id, c: Id)
    requires Tally(sizes, groupSizes, kids, marked, chats) && c in sizes && g in groupSizes && g in kids && g !in sizes
      && c !in groupSizes
    requires c in kids && kids[c] == [] && c in kids[g] && c !in chats && NoDups(kids[g])
    requires forall q | q in groupSizes && q in kids && q != g :: c !in kids[q]
    ensures Tally(sizes - {c}, groupSizes, kids[g := Drop(kids[g], c)] - {c}, marked, chats)
  {
    hide Drop, NoDups;
    var kids' := kids[g := Drop(kids[g], c)] - {c};
    assert sizes[c] == Count(kids[c], marked) == 0;
    DropMembers(kids[g], c);
    forall q | q in groupSizes ensures q in kids' && groupSizes[q] == Count(kids'[q], Lit(sizes - {c}) + chats) {
      if q == g {
        DropCount(kids[g], c, Lit(sizes) + chats);
      }
      CountSame(kids'[q], Lit(sizes) + chats, Lit(sizes - {c}) + chats);
    }
  }

  /** A contact without buddies that is counted too high leaves its group's count too high. */
  lemma BesideGone(sizes: Tallies, groupSizes: Tallies, kids: Kids, marked: set<Id>, chats: set<Id>, g: Id, c: Id)
    requires TallyBeside(sizes, groupSizes, kids, marked, chats, c) && c in sizes && g in groupSizes && g in kids
      && g !in sizes && c !in groupSizes
    requires c in kids && kids[c] == [] && c in kids[g] && c !in chats && NoDups(kids[g])
    requires forall q | q in groupSizes && q in kids && q != g :: c !in kids[q]
    ensures Tally(sizes - {c}, groupSizes, kids[g := Drop(kids[g], c)] - {c}, marked, chats) <==>
      Excess(sizes, kids, marked, c) == 0
  {
    hide Drop, NoDups;
    BesideIsTally(sizes, groupSizes, kids, marked, chats, c);
    if Excess(sizes, kids, marked, c) == 0 {
      TallyGone(sizes, groupSizes, kids, marked, chats, g, c);
    } else {
      assert Count(kids[c], marked) == 0;
      DropMembers(kids[g], c);
      DropOfMarked(kids[g], c, Lit(sizes) + chats);
      CountSame(Drop(kids[g], c), Lit(sizes) + chats, Lit(sizes - {c}) + chats);
    }
  }

  lemma DropOfMarked(s: seq<Id>, n: Id, m: set<Id>)
    requires n in s && n in m
    ensures Count(Drop(s, n), m) == Count(s, m) - 1
  {
    CountWithout(s, Place(s, n), m);
  }

  lemma DropCount(s: seq<Id>, n: Id, m: set<Id>)
    requires n in s && n !in m
    ensures Count(Drop(s, n), m) == Count(s, m)
  {
    CountWithout(s, Place(s, n), m);
  }

  lemma BestsButLeaves(cfg: Config, buddies: Buddies, connected: set<Account>, contacts: Contacts, contacts': Contacts,
                       kids: Kids, kids': Kids, c: Id)
    requires Bests(cfg, buddies, connected, contacts, kids) && contacts'.Keys == contacts.Keys
    requires forall d | d in contacts && d != c :: contacts'[d] == contacts[d] && d in kids' && kids'[d] == kids[d]
    ensures BestsBut(cfg, buddies, connected, contacts', kids', c)
  {
    hide IsBest;
  }

  /** All lists have their best buddy again. */
  lemma BestsAgain(cfg: Config, buddies: Buddies, connected: set<Account>, contacts: Contacts, kids: Kids, c: Id)
    requires BestsBut(cfg, buddies, connected, contacts, kids, c)
    requires c in contacts ==> c in kids && IsBest(cfg, buddies, connected, kids[c], contacts[c].priority)
    ensures Bests(cfg, buddies, connected, contacts, kids)
  {
    hide IsBest;
  }

  lemma BestDrop(cfg: Config, buddies: Buddies, connected: set<Account>, s: seq<Id>, b: Id, p: Option<Id>)
    requires IsBest(cfg, buddies, connected, s, p) && b in s && p != Some(b)
    ensures IsBest(cfg, buddies, connected, Drop(s, b), p)
  {
    BestWithout(cfg, buddies, connected, s, Place(s, b), p);
  }

  lemma LiveChatsAre(chats: Chats, connected: set<Account>)
    ensures LiveChats(chats, connected) <= chats.Keys
  {
  }

  lemma BestOf(cfg: Config, buddies: Buddies, connected: set<Account>, contacts: Contacts, kids: Kids, c: Id)
    requires Bests(cfg, buddies, connected, contacts, kids) && c in contacts
    ensures c in kids && IsBest(cfg, buddies, connected, kids[c], contacts[c].priority)
    ensures forall d | d in contacts :: d in kids
  {
  }

  lemma RecordsUpdated(kinds: KindMap, groups: Groups, contacts: Contacts, buddies: Buddies, chats: Chats, nextId: Id,
                       c: Id, x: Contact, g: Id, y: Group)
    requires Records(kinds, groups, contacts, buddies, chats, nextId) && c in contacts && g in groups
    ensures Records(kinds, groups[g := y], contacts[c := x], buddies, chats, nextId)
  {
  }

  /** The state without `b` in `c`, whose best buddy may have been `b`. */
  ghost predicate Departed(cfg: Config, kinds: KindMap, kids: Kids, kids': Kids, groups: Groups, groups': Groups,
                           contacts: Contacts, contacts': Contacts, buddies: Buddies, chats: Chats, nextId: Id,
                           connected: set<Account>, c: Id, b: Id)
  {
    && CurTally(contacts', groups', kids', buddies, chats, connected) && Totals(contacts', kids')
    && BestsBut(cfg, buddies, connected, contacts', kids', c)
    && Records(kinds, groups', contacts', buddies, chats, nextId)
    && (OnlineBeside(contacts, groups, kids, buddies, chats, connected, c) && UpIsLive(buddies, connected)
        && b in buddies ==>
          && OnlineBeside(contacts', groups', kids', buddies, chats, connected, c)
          && OnlineExcess(contacts', kids', buddies, c) ==
            OnlineExcess(contacts, kids, buddies, c) + One(buddies[b].present == SigningOff))
    && (c in contacts && c in kids' && contacts[c].priority != Some(b) ==>
          IsBest(cfg, buddies, connected, kids'[c], contacts[c].priority))
  }

  /** What the departure of a buddy does to the derived state, with the counters adjusted as the code does. */
  lemma Departs(cfg: Config, kinds: KindMap, links: LinkMap, root: Option<Id>, top: seq<Id>, kids: Kids, loose: set<Id>,
                groups: Groups, contacts: Contacts, buddies: Buddies, chats: Chats, nextId: Id, connected: set<Account>,
                c: Id, g: Id, b: Id)
    requires Tree(kinds, links, root, top, kids, loose) && Records(kinds, groups, contacts, buddies, chats, nextId)
    requires Totals(contacts, kids) && CurTally(contacts, groups, kids, buddies, chats, connected)
    requires Bests(cfg, buddies, connected, contacts, kids)
    requires b in buddies && b !in loose && c in contacts && c !in loose
    requires b in links && links[b].parent == Some(c) && c in links && links[c].parent == Some(g)
    ensures g in groups && c in kids && b in kids[c]
    ensures
      var live, online := buddies[b].account in connected, IsOnline(buddies[b], connected);
      Departed(cfg, kinds, kids, kids[c := Drop(kids[c], b)],
               groups, groups[g := GroupLess(groups[g], contacts[c], live, online)],
               contacts, contacts[c := ContactLess(contacts[c], live, online)], buddies, chats, nextId, connected, c, b)
  {
    hide Tree, Records, CurTally, OnlineTally, OnlineBeside, OnlineExcess, Totals, Bests, UpIsLive, IsBest, Drop,
         LiveChats, Nested, IsOnline, CurOf, CurOfGroups, OnlineOf, OnlineOfGroups;
    LiveChatsAre(chats, connected);
    BuddyKind(kinds, groups, contacts, buddies, chats, nextId, b);
    NestedInTree(kinds, links, root, top, kids, loose, groups, contacts, buddies, chats, nextId,
                 LiveChats(chats, connected), c, g);
    HomeOf(kinds, links, root, top, kids, loose, b, c);
    LeaveSizes(contacts, groups, kids, buddies, chats, connected, c, g, b);
    if OnlineBeside(contacts, groups, kids, buddies, chats, connected, c) && UpIsLive(buddies, connected) {
      LeaveBeside(contacts, groups, kids, buddies, chats, connected, c, g, b);
    }
    BestOf(cfg, buddies, connected, contacts, kids, c);
    if contacts[c].priority != Some(b) {
      BestDrop(cfg, buddies, connected, kids[c], b, contacts[c].priority);
    }
    var live, online := buddies[b].account in connected, IsOnline(buddies[b], connected);
    RecordsUpdated(kinds, groups, contacts, buddies, chats, nextId, c, ContactLess(contacts[c], live, online),
                   g, GroupLess(groups[g], contacts[c], live, online));
    BestsButLeaves(cfg, buddies, connected, contacts, contacts[c := ContactLess(contacts[c], live, online)], kids,
                   kids[c := Drop(kids[c], b)], c);
  }

  lemma BuddyKind(kinds: KindMap, groups: Groups, contacts: Contacts, buddies: Buddies, chats: Chats, nextId: Id, n: Id)
    requires Records(kinds, groups, contacts, buddies, chats, nextId)
    ensures n in buddies ==> n in kinds && kinds[n] == BuddyNode
    ensures n in contacts ==> n in kinds && kinds[n] == ContactNode
    ensures n in groups ==> n in kinds && kinds[n] == GroupNode
    ensures n in chats ==> n in kinds && kinds[n] == ChatNode
  {
  }

  // ----- nodes that are freed

  lemma BuddyGoneTallies(contacts: Contacts, groups: Groups, kids: Kids, buddies: Buddies, chats: Chats,
                         connected: set<Account>, b: Id)
    requires forall p | p in kids :: b !in kids[p]
    ensures CurTally(contacts, groups, kids, buddies, chats, connected) ==>
      CurTally(contacts, groups, kids, buddies - {b}, chats, connected)
    ensures OnlineTally(contacts, groups, kids, buddies, chats, connected) ==>
      OnlineTally(contacts, groups, kids, buddies - {b}, chats, connected)
    ensures forall c :: OnlineExcess(contacts, kids, buddies - {b}, c) == OnlineExcess(contacts, kids, buddies, c)
    ensures forall c | OnlineBeside(contacts, groups, kids, buddies, chats, connected, c) ::
              OnlineBeside(contacts, groups, kids, buddies - {b}, chats, connected, c)
  {
    hide Tally;
    forall p | p in kids ensures Count(kids[p], Up(buddies - {b})) == Count(kids[p], Up(buddies)) {
      CountSame(kids[p], Up(buddies), Up(buddies - {b}));
    }
    if CurTally(contacts, groups, kids, buddies, chats, connected) {
      TallySame(CurOf(contacts), CurOfGroups(groups), kids, Live(buddies, connected), Live(buddies - {b}, connected),
                LiveChats(chats, connected), LiveChats(chats, connected));
    }
    if OnlineTally(contacts, groups, kids, buddies, chats, connected) {
      TallySame(OnlineOf(contacts), OnlineOfGroups(groups), kids, Up(buddies), Up(buddies - {b}),
                LiveChats(chats, connected), LiveChats(chats, connected));
    }
  }

  lemma BuddyGoneBests(cfg: Config, kinds: KindMap, links: LinkMap, root: Option<Id>, top: seq<Id>, kids: Kids,
                       loose: set<Id>,
                       groups: Groups, contacts: Contacts, buddies: Buddies, chats: Chats, nextId: Id,
                       connected: set<Account>, b: Id)
    requires Tree(kinds, links, root, top, kids, loose) && Records(kinds, groups, contacts, buddies, chats, nextId)
      && b in loose
    requires Bests(cfg, buddies, connected, contacts, kids)
    ensures Bests(cfg, buddies - {b}, connected, contacts, kids)
  {
    hide Tree, IsBest, SameRank;
    LooseNowhere(kinds, links, root, top, kids, loose, b);
    forall c | c in contacts ensures c in kids && IsBest(cfg, buddies - {b}, connected, kids[c], contacts[c].priority) {
      ContactKids(kinds, links, root, top, kids, loose, c);
      forall n | n in kids[c]
        ensures n in buddies && n in buddies - {b}
          && SameRank(cfg, buddies[n], connected, (buddies - {b})[n], connected)
      {
        SameBuddy(cfg, buddies[n], connected);
      }
      BestSame(cfg, buddies, connected, buddies - {b}, connected, kids[c], contacts[c].priority);
    }
  }

  lemma SameBuddy(cfg: Config, b: Buddy, connected: set<Account>)
    ensures SameRank(cfg, b, connected, b, connected)
  {
  }

  lemma LooseNowhere(kinds: KindMap, links: LinkMap, root: Option<Id>, top: seq<Id>, kids: Kids, loose: set<Id>, n: Id)
    requires Tree(kinds, links, root, top, kids, loose) && n in loose
    ensures (forall p | p in kids :: n !in kids[p]) && n in kinds && n in links && kinds[n] != GroupNode
    ensures kinds[n] != ContactNode ==> n !in kids
  {
  }

  /** Freeing a loose buddy. */
  lemma BuddyGone(cfg: Config, kinds: KindMap, links: LinkMap, root: Option<Id>, top: seq<Id>, kids: Kids,
                  loose: set<Id>,
                  groups: Groups, contacts: Contacts, buddies: Buddies, chats: Chats, nextId: Id,
                  connected: set<Account>, b: Id)
    requires Tree(kinds, links, root, top, kids, loose) && Records(kinds, groups, contacts, buddies, chats, nextId)
      && b in loose && b in buddies
    requires Bests(cfg, buddies, connected, contacts, kids)
      && CurTally(contacts, groups, kids, buddies, chats, connected)
    ensures Tree(kinds - {b}, links - {b}, root, top, kids, loose - {b})
    ensures Records(kinds - {b}, groups, contacts, buddies - {b}, chats, nextId)
    ensures Bests(cfg, buddies - {b}, connected, contacts, kids)
      && CurTally(contacts, groups, kids, buddies - {b}, chats, connected)
    ensures OnlineTally(contacts, groups, kids, buddies, chats, connected) ==>
      OnlineTally(contacts, groups, kids, buddies - {b}, chats, connected)
    ensures UpIsLive(buddies, connected) ==> UpIsLive(buddies - {b}, connected)
    ensures forall c :: OnlineExcess(contacts, kids, buddies - {b}, c) == OnlineExcess(contacts, kids, buddies, c)
    ensures forall c | OnlineBeside(contacts, groups, kids, buddies, chats, connected, c) ::
              OnlineBeside(contacts, groups, kids, buddies - {b}, chats, connected, c)
  {
    hide Tree, IsBest, Bests, CurTally, OnlineTally, OnlineBeside, OnlineExcess;
    LooseNowhere(kinds, links, root, top, kids, loose, b);
    FreedTree(kinds, links, root, top, kids, loose, b);
    assert kids - {b} == kids;
    BuddyGoneTallies(contacts, groups, kids, buddies, chats, connected, b);
    BuddyGoneBests(cfg, kinds, links, root, top, kids, loose, groups, contacts, buddies, chats, nextId, connected, b);
  }

  /** Unlinking and freeing a contact that has no buddies. */
  lemma ContactGone(cfg: Config, kinds: KindMap, links: LinkMap, links': LinkMap, root: Option<Id>, top: seq<Id>,
                    kids: Kids, loose: set<Id>,
                    groups: Groups, contacts: Contacts, buddies: Buddies, chats: Chats, nextId: Id,
                    connected: set<Account>, c: Id, g: Id)
    requires Tree(kinds, links, root, top, kids, loose) && Records(kinds, groups, contacts, buddies, chats, nextId)
    requires c in contacts && c !in loose && c in links && links[c].parent == Some(g) && c in kids && kids[c] == []
      && g in kids
    requires Tree(kinds, links', root, top, kids[g := Drop(kids[g], c)], loose + {c})
    ensures var kids' := kids[g := Drop(kids[g], c)] - {c};
      && Tree(kinds - {c}, links' - {c}, root, top, kids', loose)
      && Records(kinds - {c}, groups, contacts - {c}, buddies, chats, nextId)
      && (Totals(contacts, kids) ==> Totals(contacts - {c}, kids'))
      && (CurTally(contacts, groups, kids, buddies, chats, connected) ==>
          CurTally(contacts - {c}, groups, kids', buddies, chats, connected))
      && (OnlineTally(contacts, groups, kids, buddies, chats, connected) ==>
          OnlineTally(contacts - {c}, groups, kids', buddies, chats, connected))
      && (OnlineBeside(contacts, groups, kids, buddies, chats, connected, c) ==>
            (OnlineTally(contacts - {c}, groups, kids', buddies, chats, connected) <==>
             OnlineExcess(contacts, kids, buddies, c) == 0))
      && (BestsBut(cfg, buddies, connected, contacts, kids, c) ==>
          Bests(cfg, buddies, connected, contacts - {c}, kids'))
  {
    hide Tree, Tally, TallyBeside, Excess, IsBest, Drop, CurOf, CurOfGroups, OnlineOf, OnlineOfGroups, LiveChats, Live,
         Up, Nested;
    LiveChatsAre(chats, connected);
    NestedInTree(kinds, links, root, top, kids, loose, groups, contacts, buddies, chats, nextId,
                 LiveChats(chats, connected), c, g);
    NestedMeans(CurOf(contacts), CurOfGroups(groups), kids, LiveChats(chats, connected), c, g);
    NestedMeans(OnlineOf(contacts), OnlineOfGroups(groups), kids, LiveChats(chats, connected), c, g);
    assert loose + {c} - {c} == loose;
    FreedTree(kinds, links', root, top, kids[g := Drop(kids[g], c)], loose + {c}, c);
    GoneSizes(contacts, groups, c);
    if CurTally(contacts, groups, kids, buddies, chats, connected) {
      TallyGone(CurOf(contacts), CurOfGroups(groups), kids, Live(buddies, connected), LiveChats(chats, connected), g,
                c);
    }
    if OnlineTally(contacts, groups, kids, buddies, chats, connected) {
      TallyGone(OnlineOf(contacts), OnlineOfGroups(groups), kids, Up(buddies), LiveChats(chats, connected), g, c);
    }
    if OnlineBeside(contacts, groups, kids, buddies, chats, connected, c) {
      BesideGone(OnlineOf(contacts), OnlineOfGroups(groups), kids, Up(buddies), LiveChats(chats, connected), g, c);
    }
  }

  lemma NestedMeans(sizes: Tallies, groupSizes: Tallies, kids: Kids, chats: set<Id>, c: Id, g: Id)
    requires Nested(sizes, groupSizes, kids, chats, c, g)
    ensures c in sizes && g in groupSizes && c !in groupSizes && g !in sizes && c !in chats && c != g
    ensures c in kids && g in kids && c in kids[g] && NoDups(kids[g])
    ensures forall q | q in groupSizes && q in kids && q != g :: c !in kids[q]
  {
  }

  /** The lists without `b` in `c`, and without `c` in `g` if it was the last one. */
  function Removed(kids: Kids, g: Id, c: Id, b: Id): Kids
    requires c in kids && g in kids
  {
    if Drop(kids[c], b) == [] then kids[c := []][g := Drop(kids[g], c)] - {c} else kids[c := Drop(kids[c], b)]
  }

  /** Where a buddy of the list is. */
  lemma BuddyPlace(kinds: KindMap, links: LinkMap, root: Option<Id>, top: seq<Id>, kids: Kids, loose: set<Id>,
                   groups: Groups, contacts: Contacts, buddies: Buddies, chats: Chats, nextId: Id, b: Id, c: Id)
    requires Tree(kinds, links, root, top, kids, loose) && Records(kinds, groups, contacts, buddies, chats, nextId)
    requires b in buddies && b !in loose && b in links && links[b].parent == Some(c) && c !in loose
    ensures c in contacts && c in kids && b in kids[c] && c in links && links[c].parent.Some?
    ensures var g := links[c].parent.value; g in groups && g in kids && c in kids[g] && g != c && g in top
  {
    hide Shape, Records;
    BuddyKind(kinds, groups, contacts, buddies, chats, nextId, b);
    assert Home(kinds[b], links[b].parent, kids, b);
    KindRecord(kinds, groups, contacts, buddies, chats, nextId, c);
    assert Home(kinds[c], links[c].parent, kids, c);
    KindRecord(kinds, groups, contacts, buddies, chats, nextId, links[c].parent.value);
  }

  lemma KindRecord(kinds: KindMap, groups: Groups, contacts: Contacts, buddies: Buddies, chats: Chats, nextId: Id,
                   n: Id)
    requires Records(kinds, groups, contacts, buddies, chats, nextId) && n in kinds
    ensures kinds[n] == GroupNode ==> n in groups
    ensures kinds[n] == ContactNode ==> n in contacts
    ensures kinds[n] == BuddyNode ==> n in buddies
    ensures kinds[n] == ChatNode ==> n in chats
  {
  }

  lemma Reprioritised(cfg: Config, kinds: KindMap, groups: Groups, contacts: Contacts, buddies: Buddies, chats: Chats,
                      nextId: Id,
                      connected: set<Account>, kids: Kids, c: Id, p: Option<Id>)
    requires c in contacts && c in kids && Records(kinds, groups, contacts, buddies, chats, nextId)
      && Totals(contacts, kids)
    requires BestsBut(cfg, buddies, connected, contacts, kids, c) && IsBest(cfg, buddies, connected, kids[c], p)
    ensures var contacts' := contacts[c := contacts[c].(priority := p)];
      Records(kinds, groups, contacts', buddies, chats, nextId) && Totals(contacts', kids)
        && Bests(cfg, buddies, connected, contacts', kids)
  {
    hide IsBest;
  }

  lemma BestsAreBut(cfg: Config, buddies: Buddies, connected: set<Account>, contacts: Contacts, kids: Kids, c: Id)
    requires Bests(cfg, buddies, connected, contacts, kids)
    ensures BestsBut(cfg, buddies, connected, contacts, kids, c)
  {
  }

  lemma ChildOf(kinds: KindMap, links: LinkMap, root: Option<Id>, top: seq<Id>, kids: Kids, loose: set<Id>, c: Id)
    requires Tree(kinds, links, root, top, kids, loose) && c in kids
    ensures c in links && links[c].child == First(kids[c])
    ensures forall n | n in kids[c] :: n !in loose && n in links && links[n].parent == Some(c)
  {
    forall n | n in kids[c] ensures n !in loose && n in links && links[n].parent == Some(c) {
      OneHome(kinds, links, root, top, kids, loose, c, n);
    }
  }

  lemma DropOne(s: seq<Id>, b: Id, kinds: KindMap, links: LinkMap, root: Option<Id>, top: seq<Id>, kids: Kids,
                loose: set<Id>, c: Id)
    requires Tree(kinds, links, root, top, kids, loose) && c in kids && s == kids[c] && b in s
    ensures |Drop(s, b)| == |s| - 1 && (Drop(s, b) == [] <==> s == [b])
  {
    ListNoDups(links, root, top, kids, c);
    DropMembers(s, b);
    if |s| == 1 {
      assert s == [b];
    }
  }

  /** A map without some keys. */
  function Less<K(==), V>(m: map<K, V>, gone: set<K>): map<K, V> { m - gone }

  ghost function Members(s: seq<Id>): set<Id> { set b | b in s }

  ghost function Keys(cfg: Config, buddies: Buddies, s: seq<Id>, g: Id): set<Key> {
    set b | b in s && b in buddies :: KeyOf(cfg, buddies[b], g)
  }

  /** The buddies, the index and the lists when the first `k` buddies `s` of a contact are gone. */
  ghost function BuddiesFrom(buddies: Buddies, s: seq<Id>, k: nat): Buddies
    requires k <= |s|
  {
    Less(buddies, Members(s[..k]))
  }

  ghost function IndexFrom(cfg: Config, buddies: Buddies, index: Index, s: seq<Id>, k: nat, g: Id): Index
    requires k <= |s|
  {
    Less(index, Keys(cfg, buddies, s[..k], g))
  }

  ghost function KidsFrom(kids: Kids, c: Id, s: seq<Id>, k: nat): Kids
    requires k <= |s|
  {
    kids[c := s[k..]]
  }

  lemma FromStart(cfg: Config, buddies: Buddies, index: Index, kids: Kids, c: Id, s: seq<Id>, g: Id)
    requires c in kids && kids[c] == s
    ensures BuddiesFrom(buddies, s, 0) == buddies && IndexFrom(cfg, buddies, index, s, 0, g) == index
      && KidsFrom(kids, c, s, 0) == kids
    ensures BuddiesFrom(buddies, s, |s|) == Less(buddies, Members(s))
    ensures IndexFrom(cfg, buddies, index, s, |s|, g) == Less(index, Keys(cfg, buddies, s, g))
  {
    assert s[0..] == s && s[..|s|] == s;
  }

  /** One more of them is taken away. */
  lemma FromNext(cfg: Config, buddies: Buddies, index: Index, kids: Kids, c: Id, s: seq<Id>, k: nat, g: Id)
    requires k < |s| && s[k] in BuddiesFrom(buddies, s, k) && c in kids
    ensures s[k] in buddies && BuddiesFrom(buddies, s, k)[s[k]] == buddies[s[k]]
    ensures Less(BuddiesFrom(buddies, s, k), {s[k]}) == BuddiesFrom(buddies, s, k + 1)
    ensures Less(IndexFrom(cfg, buddies, index, s, k, g), {KeyOf(cfg, buddies[s[k]], g)}) ==
      IndexFrom(cfg, buddies, index, s, k + 1, g)
    ensures KidsFrom(kids, c, s, k) == kids[c := s[k..]] && kids[c := s[k..][1..]] == KidsFrom(kids, c, s, k + 1)
      && s[k..][0] == s[k]
  {
    assert s[..k + 1] == s[..k] + [s[k]];
    assert Members(s[..k + 1]) == Members(s[..k]) + {s[k]};
    assert Keys(cfg, buddies, s[..k + 1], g) == Keys(cfg, buddies, s[..k], g) + {KeyOf(cfg, buddies[s[k]], g)};
    assert s[k..][1..] == s[k + 1..];
  }

  lemma DropFirst(s: seq<Id>)
    requires s != []
    ensures Drop(s, s[0]) == s[1..]
  {
  }

  lemma RemovedFirst(kids: Kids, g: Id, c: Id, t: seq<Id>)
    requires c in kids && g in kids && c != g && t != []
    ensures |t| > 1 ==> Removed(kids[c := t], g, c, t[0]) == kids[c := t[1..]]
    ensures |t| == 1 ==> Removed(kids[c := t], g, c, t[0]) == kids[g := Drop(kids[g], c)] - {c}
  {
    DropFirst(t);
    assert kids[c := t][c := t[1..]] == kids[c := t[1..]];
    assert kids[c := t][c := []][g := Drop(kids[g], c)] - {c} == kids[g := Drop(kids[g], c)] - {c};
  }

  lemma ContactPlace(kinds: KindMap, links: LinkMap, root: Option<Id>, top: seq<Id>, kids: Kids, loose: set<Id>,
                     groups: Groups, contacts: Contacts, buddies: Buddies, chats: Chats, nextId: Id, c: Id, g: Id)
    requires Tree(kinds, links, root, top, kids, loose) && Records(kinds, groups, contacts, buddies, chats, nextId)
    requires c in contacts && c !in loose && c in links && links[c].parent == Some(g)
    ensures c in kids && g in kids && g in groups && c in kids[g] && g != c
  {
    hide Tree, Records;
    BuddyKind(kinds, groups, contacts, buddies, chats, nextId, c);
    HomeOf(kinds, links, root, top, kids, loose, c, g);
    ContactKids(kinds, links, root, top, kids, loose, c);
    KindRecord(kinds, groups, contacts, buddies, chats, nextId, g);
  }

  lemma ContactHere(kinds: KindMap, links: LinkMap, root: Option<Id>, top: seq<Id>, kids: Kids, loose: set<Id>,
                    groups: Groups, contacts: Contacts, buddies: Buddies, chats: Chats, nextId: Id, c: Id)
    requires Tree(kinds, links, root, top, kids, loose) && Records(kinds, groups, contacts, buddies, chats, nextId)
      && c in contacts
    ensures c in links && c in kids
  {
  }

  lemma NoKeys(cfg: Config, buddies: Buddies, index: Index)
    ensures Less(buddies, Members([])) == buddies && forall g :: Less(index, Keys(cfg, buddies, [], g)) == index
  {
  }

  // ----- where the buddies are

  /** Nodes that stay keep their groups when parents do not change. */
  lemma SameGroups(kinds: KindMap, links: LinkMap, links': LinkMap, root: Option<Id>, top: seq<Id>, kids: Kids,
                   loose: set<Id>, b: Id)
    requires Tree(kinds, links', root, top, kids, loose) && b in links' && b !in loose
    requires forall m | m in links' :: m in links && links'[m].parent == links[m].parent
    ensures GroupOf(links', b) == GroupOf(links, b)
  {
    assert Home(kinds[b], links'[b].parent, kids, b);
  }

  lemma Unknown(kinds: KindMap, links: LinkMap, root: Option<Id>, top: seq<Id>, kids: Kids,
                groups: Groups, contacts: Contacts, buddies: Buddies, chats: Chats, nextId: Id, n: Id)
    requires Tree(kinds, links, root, top, kids, {}) && Records(kinds, groups, contacts, buddies, chats, nextId)
      && n !in kinds
    ensures n !in buddies && n !in kids && n !in links && n !in contacts
  {
  }

  lemma TreeKeys(kinds: KindMap, links: LinkMap, root: Option<Id>, top: seq<Id>, kids: Kids, loose: set<Id>, n: Id)
    requires Tree(kinds, links, root, top, kids, loose)
    ensures n in kinds <==> n in links
  {
  }

  lemma KidsFromAt(kids: Kids, c: Id, s: seq<Id>, k: nat)
    requires k <= |s|
    ensures c in KidsFrom(kids, c, s, k) && KidsFrom(kids, c, s, k)[c] == s[k..]
  {
  }

  lemma NextOfFirst(kinds: KindMap, links: LinkMap, root: Option<Id>, top: seq<Id>, kids: Kids, loose: set<Id>,
                    groups: Groups, contacts: Contacts, buddies: Buddies, chats: Chats, nextId: Id, c: Id, s: seq<Id>,
                    k: nat)
    requires Tree(kinds, links, root, top, kids, loose) && Records(kinds, groups, contacts, buddies, chats, nextId)
    requires c in contacts && k < |s| && c in kids && kids[c] == s[k..]
    ensures c in links && links[c].child.Some? && links[c].child.value in links
    ensures links[links[c].child.value].next.Some? <==> k + 1 < |s|
  {
    hide Tree, Records;
    ContactList(kinds, links, root, top, kids, loose, groups, contacts, buddies, chats, nextId, c);
  }

  // ----- new nodes

  /** The record of a new node. */
  datatype Fresh = FreshGroup(name: string) | FreshContact | FreshBuddy(buddy: Buddy) | FreshChat(account: Account)

  function KindOf(x: Fresh): Kind {
    match x
    case FreshGroup(_) => GroupNode
    case FreshContact => ContactNode
    case FreshBuddy(_) => BuddyNode
    case FreshChat(_) => ChatNode
  }

  function WithGroup(groups: Groups, n: Id, x: Fresh): Groups
  {
    if x.FreshGroup? then groups[n := Group(x.name, 0, 0)] else groups
  }
  function WithContact(contacts: Contacts, n: Id, x: Fresh): Contacts {
    if x.FreshContact? then contacts[n := Contact(0, 0, 0, None)] else contacts
  }
  function WithBuddy(buddies: Buddies, n: Id, x: Fresh): Buddies
  {
    if x.FreshBuddy? then buddies[n := x.buddy] else buddies
  }
  function WithChat(chats: Chats, n: Id, x: Fresh): Chats { if x.FreshChat? then chats[n := x.account] else chats }

  lemma NewSizes(contacts: Contacts, groups: Groups, n: Id, x: Fresh)
    ensures CurOf(WithContact(contacts, n, x)) == (if x.FreshContact? then CurOf(contacts)[n := 0] else CurOf(contacts))
    ensures OnlineOf(WithContact(contacts, n, x)) ==
      (if x.FreshContact? then OnlineOf(contacts)[n := 0] else OnlineOf(contacts))
    ensures CurOfGroups(WithGroup(groups, n, x)) ==
      (if x.FreshGroup? then CurOfGroups(groups)[n := 0] else CurOfGroups(groups))
    ensures OnlineOfGroups(WithGroup(groups, n, x)) ==
      (if x.FreshGroup? then OnlineOfGroups(groups)[n := 0] else OnlineOfGroups(groups))
  {
  }

  /** A new contact or group has no children and counts none. */
  lemma TallyNew(sizes: Tallies, groupSizes: Tallies, kids: Kids, marked: set<Id>, chats: set<Id>, n: Id,
                 sizes': Tallies, groupSizes': Tallies)
    requires Tally(sizes, groupSizes, kids, marked, chats) && n !in kids && forall p | p in kids :: n !in kids[p]
    requires (sizes' == sizes[n := 0] && groupSizes' == groupSizes)
      || (sizes' == sizes && groupSizes' == groupSizes[n := 0])
    ensures Tally(sizes', groupSizes', kids[n := []], marked, chats)
  {
    forall g | g in groupSizes' && g != n ensures g in kids && groupSizes'[g] == Count(kids[g], Lit(sizes') + chats) {
      CountSame(kids[g], Lit(sizes) + chats, Lit(sizes') + chats);
    }
  }

  /** Marks that differ at most on a node in no list. */
  ghost predicate SameBut(m: set<Id>, m': set<Id>, n: Id) { forall k | k != n :: k in m <==> k in m' }

  lemma NewMarks(buddies: Buddies, chats: Chats, connected: set<Account>, n: Id, x: Fresh)
    ensures SameBut(Live(buddies, connected), Live(WithBuddy(buddies, n, x), connected), n)
    ensures SameBut(Up(buddies), Up(WithBuddy(buddies, n, x)), n)
    ensures SameBut(LiveChats(chats, connected), LiveChats(WithChat(chats, n, x), connected), n)
  {
  }

  lemma TallyBut(sizes: Tallies, groupSizes: Tallies, kids: Kids, marked: set<Id>, marked': set<Id>, chats: set<Id>,
                 chats': set<Id>, n: Id)
    requires Tally(sizes, groupSizes, kids, marked, chats) && SameBut(marked, marked', n) && SameBut(chats, chats', n)
    requires forall p | p in kids :: n !in kids[p]
    ensures Tally(sizes, groupSizes, kids, marked', chats')
  {
    hide Tally;
    TallySame(sizes, groupSizes, kids, marked, marked', chats, chats');
  }

  lemma NewTallies(sizes: Tallies, groupSizes: Tallies, kids: Kids, marked: set<Id>, marked': set<Id>, chats: set<Id>,
                   chats': set<Id>,
                   n: Id, x: Fresh)
    requires Tally(sizes, groupSizes, kids, marked, chats) && SameBut(marked, marked', n) && SameBut(chats, chats', n)
    requires n !in kids && forall p | p in kids :: n !in kids[p]
    ensures Tally(if x.FreshContact? then sizes[n := 0] else sizes,
                  if x.FreshGroup? then groupSizes[n := 0] else groupSizes,
                  WithNew(kids, n, KindOf(x)), marked', chats')
  {
    hide Tally, SameBut;
    TallyBut(sizes, groupSizes, kids, marked, marked', chats, chats', n);
    if x.FreshContact? || x.FreshGroup? {
      TallyNew(sizes, groupSizes, kids, marked', chats', n,
               if x.FreshContact? then sizes[n := 0]
               else sizes, if x.FreshGroup? then groupSizes[n := 0] else groupSizes);
    }
  }

  lemma NewBests(cfg: Config, buddies: Buddies, connected: set<Account>, contacts: Contacts, kids: Kids, n: Id,
                 x: Fresh)
    requires Bests(cfg, buddies, connected, contacts, kids) && n !in kids && n !in buddies
    requires forall c, m | c in contacts && c in kids && m in kids[c] :: m in buddies
    ensures Bests(cfg, WithBuddy(buddies, n, x), connected, WithContact(contacts, n, x), WithNew(kids, n, KindOf(x)))
  {
    hide IsBest, SameRank;
    var buddies', contacts', kids' :=
      WithBuddy(buddies, n, x), WithContact(contacts, n, x), WithNew(kids, n, KindOf(x));
    forall c | c in contacts' ensures c in kids' && IsBest(cfg, buddies', connected, kids'[c], contacts'[c].priority) {
      if c in contacts {
        assert c != n;
        forall m | m in kids[c]
          ensures m in buddies && m in buddies' && SameRank(cfg, buddies[m], connected, buddies'[m], connected)
        {
          SameBuddy(cfg, buddies[m], connected);
        }
        BestSame(cfg, buddies, connected, buddies', connected, kids[c], contacts[c].priority);
      } else {
        NewBest(cfg, buddies', connected);
      }
    }
  }

  lemma NewBest(cfg: Config, buddies: Buddies, connected: set<Account>)
    ensures IsBest(cfg, buddies, connected, [], None)
  {
  }

  lemma NewNowhere(kinds: KindMap, links: LinkMap, root: Option<Id>, top: seq<Id>, kids: Kids, loose: set<Id>, n: Id)
    requires Tree(kinds, links, root, top, kids, loose) && n !in kinds
    ensures n !in links && n !in kids && n !in top && forall p | p in kids :: n !in kids[p]
  {
  }

  lemma AllBuddies(kinds: KindMap, links: LinkMap, root: Option<Id>, top: seq<Id>, kids: Kids, loose: set<Id>,
                   groups: Groups, contacts: Contacts, buddies: Buddies, chats: Chats, nextId: Id)
    requires Tree(kinds, links, root, top, kids, loose) && Records(kinds, groups, contacts, buddies, chats, nextId)
    ensures forall c, m | c in contacts && c in kids && m in kids[c] :: m in buddies
  {
    hide Tree;
    forall c, m | c in contacts && c in kids && m in kids[c] ensures m in buddies {
      ContactKids(kinds, links, root, top, kids, loose, c);
    }
  }

  /** The keys of a table of one kind after a new node. */
  ghost predicate IsTable<V>(m: map<Id, V>, kinds: KindMap, kind: Kind)
  {
    forall n :: n in m <==> n in kinds && kinds[n] == kind
  }

  lemma NewTable<V>(m: map<Id, V>, kinds: KindMap, kind: Kind, n: Id, k: Kind, v: V)
    requires IsTable(m, kinds, kind) && n !in kinds
    ensures k == kind ==> IsTable(m[n := v], kinds[n := k], kind)
    ensures k != kind ==> IsTable(m, kinds[n := k], kind)
  {
  }

  lemma NewRecords(kinds: KindMap, groups: Groups, contacts: Contacts, buddies: Buddies, chats: Chats, n: Id, x: Fresh)
    requires Records(kinds, groups, contacts, buddies, chats, n)
    ensures n !in kinds && n !in buddies
    ensures Records(kinds[n := KindOf(x)], WithGroup(groups, n, x), WithContact(contacts, n, x),
                    WithBuddy(buddies, n, x), WithChat(chats, n, x), n + 1)
  {
    assert IsTable<Group>(groups, kinds, GroupNode) && IsTable<Contact>(contacts, kinds, ContactNode);
    assert IsTable<Buddy>(buddies, kinds, BuddyNode) && IsTable<Account>(chats, kinds, ChatNode);
    TablesNew(kinds, groups, contacts, buddies, chats, n, x);
  }

  lemma TablesNew(kinds: KindMap, groups: Groups, contacts: Contacts, buddies: Buddies, chats: Chats, n: Id, x: Fresh)
    requires n !in kinds && IsTable<Group>(groups, kinds, GroupNode) && IsTable<Contact>(contacts, kinds, ContactNode)
    requires IsTable<Buddy>(buddies, kinds, BuddyNode) && IsTable<Account>(chats, kinds, ChatNode)
    ensures var kinds' := kinds[n := KindOf(x)];
      && IsTable<Group>(WithGroup(groups, n, x), kinds', GroupNode)
      && IsTable<Contact>(WithContact(contacts, n, x), kinds', ContactNode)
      && IsTable<Buddy>(WithBuddy(buddies, n, x), kinds', BuddyNode)
      && IsTable<Account>(WithChat(chats, n, x), kinds', ChatNode)
  {
    hide IsTable;
    NewTable<Group>(groups, kinds, GroupNode, n, KindOf(x), Group(if x.FreshGroup? then x.name else "", 0, 0));
    NewTable<Contact>(contacts, kinds, ContactNode, n, KindOf(x), Contact(0, 0, 0, None));
    NewTable<Buddy>(buddies, kinds, BuddyNode, n, KindOf(x),
                    if x.FreshBuddy? then x.buddy else Buddy(0, "", Offline, false, 0, 0));
    NewTable<Account>(chats, kinds, ChatNode, n, KindOf(x), if x.FreshChat? then x.account else 0);
  }

  lemma NewTotals(contacts: Contacts, kids: Kids, n: Id, x: Fresh)
    requires Totals(contacts, kids) && n !in kids
    ensures Totals(WithContact(contacts, n, x), WithNew(kids, n, KindOf(x)))
  {
  }

  /** A new node keeps all of the derived state. */
  lemma NewNode(cfg: Config, kinds: KindMap, links: LinkMap, root: Option<Id>, top: seq<Id>, kids: Kids, loose: set<Id>,
                groups: Groups, contacts: Contacts, buddies: Buddies, chats: Chats, n: Id, connected: set<Account>,
                x: Fresh)
    requires Tree(kinds, links, root, top, kids, loose) && Records(kinds, groups, contacts, buddies, chats, n)
    requires Totals(contacts, kids) && Bests(cfg, buddies, connected, contacts, kids)
    requires CurTally(contacts, groups, kids, buddies, chats, connected)
    ensures
      var kinds', kids' := kinds[n := KindOf(x)], WithNew(kids, n, KindOf(x));
      var groups', contacts', buddies', chats' :=
        WithGroup(groups, n, x), WithContact(contacts, n, x), WithBuddy(buddies, n, x), WithChat(chats, n, x);
      && Tree(kinds', links[n := FREE], root, top, kids', loose)
      && Records(kinds', groups', contacts', buddies', chats', n + 1)
      && Totals(contacts', kids') && Bests(cfg, buddies', connected, contacts', kids')
      && CurTally(contacts', groups', kids', buddies', chats', connected)
      && (OnlineTally(contacts, groups, kids, buddies, chats, connected) ==>
          OnlineTally(contacts', groups', kids', buddies', chats', connected))
      && n !in kinds && n !in top && n !in kids && n !in buddies && n !in links
  {
    hide Tree, Records, Tally, Totals, Bests, CurOf, CurOfGroups, OnlineOf, OnlineOfGroups, Live, LiveChats, Up,
         WithNew, KindOf,
      WithGroup, WithContact, WithBuddy, WithChat, SameBut;
    NewRecords(kinds, groups, contacts, buddies, chats, n, x);
    NewNowhere(kinds, links, root, top, kids, loose, n);
    NewTree(kinds, links, root, top, kids, loose, n, KindOf(x));
    AllBuddies(kinds, links, root, top, kids, loose, groups, contacts, buddies, chats, n);
    NewBests(cfg, buddies, connected, contacts, kids, n, x);
    NewTotals(contacts, kids, n, x);
    NewSizes(contacts, groups, n, x);
    NewMarks(buddies, chats, connected, n, x);
    NewTallies(CurOf(contacts), CurOfGroups(groups), kids, Live(buddies, connected),
               Live(WithBuddy(buddies, n, x), connected),
               LiveChats(chats, connected), LiveChats(WithChat(chats, n, x), connected), n, x);
    if OnlineTally(contacts, groups, kids, buddies, chats, connected) {
      NewTallies(OnlineOf(contacts), OnlineOfGroups(groups), kids, Up(buddies), Up(WithBuddy(buddies, n, x)),
                 LiveChats(chats, connected), LiveChats(WithChat(chats, n, x), connected), n, x);
    }
  }

  lemma NewGroupOf(kinds: KindMap, links: LinkMap, root: Option<Id>, top: seq<Id>, kids: Kids, n: Id, b: Id)
    requires Tree(kinds, links, root, top, kids, {}) && n !in kinds && b != n
    ensures GroupOf(links[n := FREE], b) == GroupOf(links, b)
  {
    hide Shape;
    if b in links {
      assert Home(kinds[b], links[b].parent, kids, b);
    }
  }

  lemma FreshHasNoHome(links: LinkMap, n: Id)
    ensures GroupOf(links[n := FREE], n) == None
  {
  }

  /** The homes of buddies do not change with a new node. */
  lemma NewHomes(kinds: KindMap, links: LinkMap, root: Option<Id>, top: seq<Id>, kids: Kids, buddies: Buddies, n: Id,
                 x: Fresh)
    requires Tree(kinds, links, root, top, kids, {}) && n !in kinds && n !in buddies
    ensures HomesOf(links[n := FREE], WithBuddy(buddies, n, x)) == HomesOf(links, buddies)
    ensures forall b | b in HomesOf(links, buddies) :: b in buddies && b != n
  {
    hide Tree, GroupOf;
    forall b | b != n ensures GroupOf(links[n := FREE], b) == GroupOf(links, b) {
      NewGroupOf(kinds, links, root, top, kids, n, b);
    }
    FreshHasNoHome(links, n);
  }

  lemma NewNames(buddies: Buddies, n: Id, x: Fresh)
    requires n !in buddies
    ensures forall b | b in buddies :: b in WithBuddy(buddies, n, x) && WithBuddy(buddies, n, x)[b] == buddies[b]
    ensures forall connected :: UpIsLive(buddies, connected) && (x.FreshBuddy? ==> x.buddy.present == Offline) ==>
              UpIsLive(WithBuddy(buddies, n, x), connected)
  {
  }

  /** All of it at once. */
  lemma NewNodeState(cfg: Config, kinds: KindMap, links: LinkMap, root: Option<Id>, top: seq<Id>, kids: Kids,
                     groups: Groups, contacts: Contacts, buddies: Buddies, chats: Chats, n: Id, connected: set<Account>,
                     index: Index, x: Fresh)
    requires OkState(cfg, kinds, links, root, top, kids, {}, groups, contacts, buddies, chats, n, connected)
    requires x.FreshBuddy? ==> x.buddy.present == Offline
    ensures n !in kinds && n !in top && n !in kids && n !in links && n !in contacts
    ensures OkState(cfg, kinds[n := KindOf(x)], links[n := FREE], root, top, WithNew(kids, n, KindOf(x)), {},
                    WithGroup(groups, n, x),
                    WithContact(contacts, n, x), WithBuddy(buddies, n, x), WithChat(chats, n, x), n + 1, connected)
    ensures OnlineState(groups, contacts, kids, buddies, chats, connected) ==>
              OnlineState(WithGroup(groups, n, x), WithContact(contacts, n, x), WithNew(kids, n, KindOf(x)),
                          WithBuddy(buddies, n, x),
                          WithChat(chats, n, x), connected)
    ensures IndexAs(cfg, index, buddies, HomesOf(links, buddies)) ==>
              IndexAs(cfg, index, WithBuddy(buddies, n, x), HomesOf(links[n := FREE], WithBuddy(buddies, n, x)))
  {
    hide Tree, Records, CurTally, OnlineTally, Totals, Bests, Scores, WithNew, IndexAs, HomesOf, UpIsLive, WithGroup,
         WithContact,
      WithBuddy, WithChat, KindOf;
    NewNode(cfg, kinds, links, root, top, kids, {}, groups, contacts, buddies, chats, n, connected, x);
    BuddyKind(kinds, groups, contacts, buddies, chats, n, n);
    NewNames(buddies, n, x);
    NewHomes(kinds, links, root, top, kids, buddies, n, x);
    if IndexAs(cfg, index, buddies, HomesOf(links, buddies)) {
      IndexSame(cfg, index, buddies, WithBuddy(buddies, n, x), HomesOf(links, buddies));
    }
  }

  // ----- the list of groups

  /** Walking the groups. */
  lemma TopList(kinds: KindMap, links: LinkMap, root: Option<Id>, top: seq<Id>, kids: Kids, loose: set<Id>,
                groups: Groups, contacts: Contacts, buddies: Buddies, chats: Chats, nextId: Id)
    requires Tree(kinds, links, root, top, kids, loose) && Records(kinds, groups, contacts, buddies, chats, nextId)
    ensures root == Here(top, 0) && NoDups(top)
    ensures forall i | 0 <= i < |top| ::
      top[i] in links && top[i] in groups && top[i] in kids && links[top[i]].next == Here(top, i + 1)
    ensures forall g | g in top :: g in links && g in groups && links[g].parent == None
  {
    hide Homes, NoDups;
    assert IsList(links, top, None);
    forall i | 0 <= i < |top| ensures top[i] in groups && top[i] in kids {
      assert top[i] in top;
    }
  }

  /** The list of groups with `g` moved after `node`, or to its front. */
  function Regrouped(top: seq<Id>, g: Id, node: Option<Id>): seq<Id> {
    var t := Drop(top, g);
    if node.Some? && node.value in t then With(t, Place(t, node.value) + 1, g) else With(t, 0, g)
  }

  lemma RegroupedMembers(top: seq<Id>, g: Id, node: Option<Id>)
    requires NoDups(top)
    ensures NoDups(Regrouped(top, g, node)) && forall m :: m in Regrouped(top, g, node) <==> m in top || m == g
  {
    hide Drop, With, NoDups;
    var t := Drop(top, g);
    DropMembers(top, g);
    WithMembers(t, if node.Some? && node.value in t then Place(t, node.value) + 1 else 0, g);
  }

  /** A tree whose list of groups has the same groups, or one more, in another order. */
  lemma RegroupedTree(kinds: KindMap, links: LinkMap, links': LinkMap, root: Option<Id>, root': Option<Id>,
                      top: seq<Id>, top': seq<Id>,
                      kids: Kids, loose: set<Id>, g: Id)
    requires Tree(kinds, links, root, top, kids, loose) && g in kinds && kinds[g] == GroupNode
      && Shape(links', root', top', kids)
    requires forall m :: m in top' <==> m in top || m == g
    requires links'.Keys == links.Keys && forall m | m in links :: links'[m].parent == links[m].parent
    ensures Tree(kinds, links', root', top', kids, loose)
  {
    hide Shape;
    forall n | n in kinds && n in links' && n !in loose ensures Home(kinds[n], links'[n].parent, kids, n) {
      assert Home(kinds[n], links[n].parent, kids, n);
    }
  }

  /** Parents of groups are never set, so homes do not change either. */
  lemma HomesByParents(links: LinkMap, links': LinkMap, buddies: Buddies)
    requires links'.Keys == links.Keys && forall m | m in links :: links'[m].parent == links[m].parent
    ensures HomesOf(links', buddies) == HomesOf(links, buddies)
  {
  }

  lemma UnlinkedByTop(links: LinkMap, links': LinkMap, n: Id)
    requires n in links && links[n].parent.None?
    requires links[n].prev.Some? ==>
      links[n].prev.value in links && links[n].prev.value != n && links[n].prev != links[n].next
    requires links[n].next.Some? ==> links[n].next.value in links && links[n].next.value != n
    requires
      var l := links[n];
      var a := if l.prev.Some? then links[l.prev.value := links[l.prev.value].(next := l.next)] else links;
      links' == if l.next.Some? then a[l.next.value := a[l.next.value].(prev := l.prev)] else a
    ensures UnlinkedAs(links, links', n)
  {
  }

  lemma TopNeighbours(links: LinkMap, root: Option<Id>, top: seq<Id>, kids: Kids, n: Id)
    requires Shape(links, root, top, kids) && n in top
    ensures n in links && links[n].parent.None?
    ensures links[n].prev.Some? ==>
      links[n].prev.value in links && links[n].prev.value != n && links[n].prev != links[n].next
    ensures links[n].next.Some? ==> links[n].next.value in links && links[n].next.value != n
    ensures root == Some(n) <==> Place(top, n) == 0
    ensures First(Drop(top, n)) == if root == Some(n) then links[n].next else root
  {
    var i := Place(top, n);
    assert IsList(links, top, None);
    assert i + 1 < |top| ==> top[i + 1] in links;
    assert i > 0 ==> top[i - 1] in links;
  }

  lemma DropTop(links: LinkMap, links': LinkMap, root: Option<Id>, top: seq<Id>, kids: Kids, n: Id)
    requires Shape(links, root, top, kids) && n in top && n in links && UnlinkedAs(links, links', n)
    ensures Shape(links', First(Drop(top, n)), Drop(top, n), kids)
  {
    UnlinkedTop(links, links', root, top, kids, Place(top, n));
  }

  /** The statements that put a group after `sib`, or first. */
  lemma LinkedByTop(links: LinkMap, links': LinkMap, n: Id, sib: Option<Id>, next: Option<Id>)
    requires n in links && links[n].parent.None? && next != Some(n) && sib != Some(n)
    requires sib.Some? ==> sib.value in links && links[sib.value].next == next && next != sib
    requires next.Some? ==> next.value in links
    requires
      var a := links[n := links[n].(next := next, prev := sib)];
      var b := if next.Some? then a[next.value := a[next.value].(prev := Some(n))] else a;
      links' == if sib.Some? then b[sib.value := b[sib.value].(next := Some(n))] else b
    ensures LinkedAs(links, links', n, None, sib, next)
  {
  }

  lemma DropAbsent(links: LinkMap, root: Option<Id>, top: seq<Id>, kids: Kids, n: Id)
    requires Shape(links, root, top, kids)
    ensures n !in top ==> Drop(top, n) == top && root != Some(n)
    ensures n in top ==> First(Drop(top, n)) == if root == Some(n) then (if n in links then links[n].next else None)
      else root
  {
    if n in top {
      TopNeighbours(links, root, top, kids, n);
    }
  }

  lemma ListPlace(links: LinkMap, s: seq<Id>, parent: Option<Id>, i: nat)
    requires IsList(links, s, parent) && i < |s|
    ensures s[i] in links && links[s[i]].next == Here(s, i + 1) && Here(s, i + 1) != Some(s[i])
  {
  }

  lemma FirstWith(top: seq<Id>, i: nat, n: Id)
    requires i <= |top|
    ensures First(With(top, i, n)) == if i == 0 then Some(n) else First(top)
  {
  }

  lemma TopPlace(links: LinkMap, root: Option<Id>, top: seq<Id>, kids: Kids, n: Id, node: Option<Id>)
    requires Shape(links, root, top, kids) && Loose(n, top, kids) && (node.Some? ==> node.value in top)
    ensures var i := if node.Some? then Place(top, node.value) + 1 else 0;
      && i <= |top| && Before(top, i) == node
      && Here(top, i) == (if node.Some? then (if node.value in links then links[node.value].next else None) else root)
      && (node.Some? ==> node.value in links && node.value != n && links[node.value].next != node)
      && (Here(top, i).Some? ==> Here(top, i).value in links && Here(top, i).value != n)
      && First(With(top, i, n)) == (if node.Some? then root else Some(n))
  {
    hide IsList, NoDups, With;
    var i := if node.Some? then Place(top, node.value) + 1 else 0;
    FirstWith(top, i, n);
    if node.Some? {
      ListPlace(links, top, None, i - 1);
    }
    if i < |top| {
      ListPlace(links, top, None, i);
      assert top[i] in top;
    }
  }

  lemma AloneOnTop(links: LinkMap, root: Option<Id>, top: seq<Id>, kids: Kids, g: Id)
    requires Shape(links, root, top, kids) && root.None? && g in links
      && links[g] == links[g].(prev := None, next := None, parent := None)
    ensures top == [] && Shape(links, Some(g), [g], kids)
    ensures forall node: Option<Id> :: Regrouped(top, g, node) == [g]
  {
  }

  lemma GroupAlone(kinds: KindMap, links: LinkMap, root: Option<Id>, top: seq<Id>, kids: Kids, g: Id)
    requires Tree(kinds, links, root, top, kids, {}) && g in kinds && kinds[g] == GroupNode
    ensures g in links && links[g].parent.None? && forall p | p in kids :: g !in kids[p]
  {
    hide Shape;
    assert Home(kinds[g], links[g].parent, kids, g);
  }

  lemma TopNoDups(links: LinkMap, root: Option<Id>, top: seq<Id>, kids: Kids)
    requires Shape(links, root, top, kids)
    ensures NoDups(top)
  {
  }

  lemma GroupReady(kinds: KindMap, links: LinkMap, root: Option<Id>, top: seq<Id>, kids: Kids, g: Id, node: Option<Id>)
    requires Tree(kinds, links, root, top, kids, {}) && g in kinds && kinds[g] == GroupNode
    ensures g in links && links[g].parent.None? && Loose(g, Drop(top, g), kids)
    ensures node.Some? && node.value in top && node != Some(g) ==> node.value in Drop(top, g)
    ensures node != Some(g) && (node.Some? ==> node.value in top) ==>
              Regrouped(top, g, node) ==
                With(Drop(top, g), if node.Some? then Place(Drop(top, g), node.value) + 1 else 0, g)
  {
    hide Tree, Drop, With, NoDups, Place;
    TreeShape(kinds, links, root, top, kids, {});
    TopNoDups(links, root, top, kids);
    DropMembers(top, g);
    GroupAlone(kinds, links, root, top, kids, g);
  }

  lemma TreeShape(kinds: KindMap, links: LinkMap, root: Option<Id>, top: seq<Id>, kids: Kids, loose: set<Id>)
    requires Tree(kinds, links, root, top, kids, loose)
    ensures Shape(links, root, top, kids)
    ensures root.None? ==> top == []
  {
  }

  // ----- contacts and chats that move between groups

  function GroupMinus(g: Group, live: bool, lit: bool): Group
  {
    Group(g.name, g.currentsize - One(live), g.online - One(lit))
  }
  function GroupAdd(g: Group, live: bool, lit: bool): Group
  {
    Group(g.name, g.currentsize + One(live), g.online + One(lit))
  }

  /** Whether a group counts a node among its current and its online ones. */
  function CountsLive(contacts: Contacts, chats: Chats, connected: set<Account>, n: Id): bool {
    if n in contacts then contacts[n].currentsize > 0 else n in chats && chats[n] in connected
  }

  function CountsLit(contacts: Contacts, chats: Chats, connected: set<Account>, n: Id): bool {
    if n in contacts then contacts[n].online > 0 else n in chats && chats[n] in connected
  }

  lemma CountsAre(contacts: Contacts, chats: Chats, connected: set<Account>, n: Id)
    requires n in contacts ==> n !in chats
    ensures CountsLive(contacts, chats, connected, n) <==> n in Lit(CurOf(contacts)) + LiveChats(chats, connected)
    ensures CountsLit(contacts, chats, connected, n) <==> n in Lit(OnlineOf(contacts)) + LiveChats(chats, connected)
  {
  }

  lemma OneGroup(groups: Groups, g: Id, y: Group)
    ensures CurOfGroups(groups[g := y]) == CurOfGroups(groups)[g := y.currentsize]
    ensures OnlineOfGroups(groups[g := y]) == OnlineOfGroups(groups)[g := y.online]
    ensures CurOfGroups(groups).Keys == OnlineOfGroups(groups).Keys == groups.Keys
  {
  }

  lemma GroupOutTallies(contacts: Contacts, groups: Groups, kids: Kids, buddies: Buddies, chats: Chats,
                        connected: set<Account>, n: Id, g: Id)
    requires g in groups && g in kids && g !in contacts && n in kids[g] && (n in contacts ==> n !in chats)
    ensures var groups' := groups[g := GroupMinus(groups[g], CountsLive(contacts, chats, connected, n),
                                                  CountsLit(contacts, chats, connected, n))];
      var kids' := kids[g := Drop(kids[g], n)];
      && (CurTally(contacts, groups, kids, buddies, chats, connected) ==>
          CurTally(contacts, groups', kids', buddies, chats, connected))
      && (OnlineTally(contacts, groups, kids, buddies, chats, connected) ==>
          OnlineTally(contacts, groups', kids', buddies, chats, connected))
  {
    hide Tally, CurOf, CurOfGroups, OnlineOf, OnlineOfGroups, Live, LiveChats, Up, Place, Without, CountsLive,
         CountsLit;
    CountsAre(contacts, chats, connected, n);
    SizeKeys(contacts, groups);
    OneGroup(groups, g, GroupMinus(groups[g], CountsLive(contacts, chats, connected, n),
                                   CountsLit(contacts, chats, connected, n)));
    GroupValue(groups, g);
    if CurTally(contacts, groups, kids, buddies, chats, connected) {
      TallyOut(CurOf(contacts), CurOfGroups(groups), kids, Live(buddies, connected), LiveChats(chats, connected), g,
               Place(kids[g], n));
    }
    if OnlineTally(contacts, groups, kids, buddies, chats, connected) {
      TallyOut(OnlineOf(contacts), OnlineOfGroups(groups), kids, Up(buddies), LiveChats(chats, connected), g,
               Place(kids[g], n));
    }
  }

  lemma GroupValue(groups: Groups, g: Id)
    requires g in groups
    ensures g in CurOfGroups(groups) && CurOfGroups(groups)[g] == groups[g].currentsize
    ensures g in OnlineOfGroups(groups) && OnlineOfGroups(groups)[g] == groups[g].online
  {
  }

  lemma GroupInTallies(contacts: Contacts, groups: Groups, kids: Kids, buddies: Buddies, chats: Chats,
                       connected: set<Account>, n: Id, g: Id, i: nat)
    requires g in groups && g in kids && g !in contacts && i <= |kids[g]| && (n in contacts ==> n !in chats)
    ensures var groups' := groups[g := GroupAdd(groups[g], CountsLive(contacts, chats, connected, n),
                                                CountsLit(contacts, chats, connected, n))];
      var kids' := kids[g := With(kids[g], i, n)];
      && (CurTally(contacts, groups, kids, buddies, chats, connected) ==>
          CurTally(contacts, groups', kids', buddies, chats, connected))
      && (OnlineTally(contacts, groups, kids, buddies, chats, connected) ==>
          OnlineTally(contacts, groups', kids', buddies, chats, connected))
  {
    hide Tally, CurOf, CurOfGroups, OnlineOf, OnlineOfGroups, Live, LiveChats, Up, With, CountsLive, CountsLit;
    CountsAre(contacts, chats, connected, n);
    SizeKeys(contacts, groups);
    OneGroup(groups, g, GroupAdd(groups[g], CountsLive(contacts, chats, connected, n),
                                 CountsLit(contacts, chats, connected, n)));
    GroupValue(groups, g);
    if CurTally(contacts, groups, kids, buddies, chats, connected) {
      TallyIn(CurOf(contacts), CurOfGroups(groups), kids, Live(buddies, connected), LiveChats(chats, connected), g, i,
              n);
    }
    if OnlineTally(contacts, groups, kids, buddies, chats, connected) {
      TallyIn(OnlineOf(contacts), OnlineOfGroups(groups), kids, Up(buddies), LiveChats(chats, connected), g, i, n);
    }
  }

  /** Lists of contacts do not change with that of a group. */
  lemma GroupBests(cfg: Config, buddies: Buddies, connected: set<Account>, contacts: Contacts, kids: Kids, g: Id,
                   s: seq<Id>)
    requires Bests(cfg, buddies, connected, contacts, kids) && Totals(contacts, kids) && g !in contacts
    ensures Bests(cfg, buddies, connected, contacts, kids[g := s]) && Totals(contacts, kids[g := s])
  {
    hide IsBest;
  }

  lemma GroupRecord(kinds: KindMap, groups: Groups, contacts: Contacts, buddies: Buddies, chats: Chats, nextId: Id,
                    g: Id, y: Group)
    requires Records(kinds, groups, contacts, buddies, chats, nextId) && g in groups
    ensures Records(kinds, groups[g := y], contacts, buddies, chats, nextId) && g !in contacts
    ensures forall n | n in contacts :: n !in chats
  {
  }

  /** A contact or chat leaves its group. */
  lemma OutOfGroup(cfg: Config, kinds: KindMap, links: LinkMap, links': LinkMap, root: Option<Id>, top: seq<Id>,
                   kids: Kids,
                   groups: Groups, contacts: Contacts, buddies: Buddies, chats: Chats, nextId: Id,
                   connected: set<Account>, n: Id, g: Id)
    requires OkState(cfg, kinds, links, root, top, kids, {}, groups, contacts, buddies, chats, nextId, connected)
    requires g in groups && g in kids && n in kids[g]
    requires Tree(kinds, links', root, top, kids[g := Drop(kids[g], n)], {n})
    ensures var groups' := groups[g := GroupMinus(groups[g], CountsLive(contacts, chats, connected, n),
                                                  CountsLit(contacts, chats, connected, n))];
      var kids' := kids[g := Drop(kids[g], n)];
      && OkState(cfg, kinds, links', root, top, kids', {n}, groups', contacts, buddies, chats, nextId, connected)
      && (OnlineState(groups, contacts, kids, buddies, chats, connected) ==>
          OnlineState(groups', contacts, kids', buddies, chats, connected))
  {
    hide Tree, Records, Totals, CurTally, OnlineTally, Bests, Scores, UpIsLive, Drop, CountsLive, CountsLit;
    GroupRecord(kinds, groups, contacts, buddies, chats, nextId, g,
                GroupMinus(groups[g], CountsLive(contacts, chats, connected, n),
                           CountsLit(contacts, chats, connected, n)));
    GroupOutTallies(contacts, groups, kids, buddies, chats, connected, n, g);
    GroupBests(cfg, buddies, connected, contacts, kids, g, Drop(kids[g], n));
  }

  /** A loose contact or chat joins a group. */
  lemma IntoGroup(cfg: Config, kinds: KindMap, links: LinkMap, links': LinkMap, root: Option<Id>, top: seq<Id>,
                  kids: Kids,
                  groups: Groups, contacts: Contacts, buddies: Buddies, chats: Chats, nextId: Id,
                  connected: set<Account>, n: Id, g: Id, i: nat)
    requires OkState(cfg, kinds, links, root, top, kids, {n}, groups, contacts, buddies, chats, nextId, connected)
    requires g in groups && g in kids && i <= |kids[g]|
    requires Tree(kinds, links', root, top, kids[g := With(kids[g], i, n)], {})
    ensures var groups' := groups[g := GroupAdd(groups[g], CountsLive(contacts, chats, connected, n),
                                                CountsLit(contacts, chats, connected, n))];
      var kids' := kids[g := With(kids[g], i, n)];
      && OkState(cfg, kinds, links', root, top, kids', {}, groups', contacts, buddies, chats, nextId, connected)
      && (OnlineState(groups, contacts, kids, buddies, chats, connected) ==>
          OnlineState(groups', contacts, kids', buddies, chats, connected))
  {
    hide Tree, Records, Totals, CurTally, OnlineTally, Bests, Scores, UpIsLive, With, CountsLive, CountsLit;
    GroupRecord(kinds, groups, contacts, buddies, chats, nextId, g,
                GroupAdd(groups[g], CountsLive(contacts, chats, connected, n),
                         CountsLit(contacts, chats, connected, n)));
    GroupInTallies(contacts, groups, kids, buddies, chats, connected, n, g, i);
    GroupBests(cfg, buddies, connected, contacts, kids, g, With(kids[g], i, n));
  }

  /** A node that was never in the list is as good as loose. */
  lemma NewIsLoose(kinds: KindMap, links: LinkMap, root: Option<Id>, top: seq<Id>, kids: Kids, loose: set<Id>, n: Id)
    requires Tree(kinds, links, root, top, kids, loose) && n in kinds && n in links && links[n].parent.None?
      && kinds[n] != GroupNode && n !in loose
    ensures Tree(kinds, links, root, top, kids, loose + {n}) && (n in kids ==> kids[n] == [])
  {
    hide Shape;
    assert Home(kinds[n], links[n].parent, kids, n);
    forall p | p in kids && n in kids[p] ensures false {
      OneHome(kinds, links, root, top, kids, loose, p, n);
    }
  }

  lemma GroupListed(kinds: KindMap, links: LinkMap, root: Option<Id>, top: seq<Id>, kids: Kids, loose: set<Id>, g: Id)
    requires Tree(kinds, links, root, top, kids, loose) && g in kids && g in kinds && kinds[g] == GroupNode
      && kids[g] != []
    ensures g in top
  {
  }

  lemma KidsKnown(kinds: KindMap, links: LinkMap, root: Option<Id>, top: seq<Id>, kids: Kids, loose: set<Id>, p: Id)
    requires Tree(kinds, links, root, top, kids, loose) && p in kids
    ensures forall n | n in kids[p] :: n in kinds && n in links
  {
  }

  /** The place after `node`, or the first. */
  function After(s: seq<Id>, node: Option<Id>): nat {
    if node.Some? && node.value in s then Place(s, node.value) + 1 else 0
  }

  lemma AfterFits(s: seq<Id>, node: Option<Id>)
    ensures After(s, node) <= |s| && (node.None? ==> After(s, node) == 0)
    ensures node.Some? && node.value in s ==> After(s, node) == Place(s, node.value) + 1
  {
  }

  /** The lists when `n` goes from `from`, if it was anywhere, to the place after `node` in `g`. */
  function Placed(kids: Kids, from: Option<Id>, n: Id, g: Id, node: Option<Id>): Kids {
    var k := if from.Some? && from.value in kids then kids[from.value := Drop(kids[from.value], n)] else kids;
    if g in k then k[g := With(k[g], After(k[g], node), n)] else k
  }

  lemma StillThere(s: seq<Id>, n: Id, m: Id)
    requires NoDups(s) && m in s && m != n
    ensures m in Drop(s, n)
  {
    DropMembers(s, n);
  }

  /** A chat is nobody's parent. */
  lemma ChatHomes(kinds: KindMap, links: LinkMap, links': LinkMap, root: Option<Id>, top: seq<Id>, kids: Kids,
                  buddies: Buddies, n: Id)
    requires Tree(kinds, links', root, top, kids, {}) && n in kinds && kinds[n] == ChatNode
    requires links'.Keys == links.Keys && forall m | m in links && m != n :: links'[m].parent == links[m].parent
    requires n !in buddies
    ensures HomesOf(links', buddies) == HomesOf(links, buddies)
  {
    hide Shape, GroupOf;
    forall b | b in buddies ensures GroupOf(links', b) == GroupOf(links, b) {
      ChatHome(kinds, links, links', root, top, kids, n, b);
    }
  }

  lemma ChatHome(kinds: KindMap, links: LinkMap, links': LinkMap, root: Option<Id>, top: seq<Id>, kids: Kids, n: Id,
                 b: Id)
    requires Tree(kinds, links', root, top, kids, {}) && n in kinds && kinds[n] == ChatNode && b != n
    requires links'.Keys == links.Keys && forall m | m in links && m != n :: links'[m].parent == links[m].parent
    ensures GroupOf(links', b) == GroupOf(links, b)
  {
    hide Shape;
    if b in links' {
      assert Home(kinds[b], links'[b].parent, kids, b);
    }
  }

  lemma NodeStays(kinds: KindMap, links: LinkMap, root: Option<Id>, top: seq<Id>, kids: Kids, g: Id, n: Id, m: Id)
    requires Tree(kinds, links, root, top, kids, {}) && g in kids && m in kids[g] && m != n
    ensures m in Drop(kids[g], n)
  {
    ListNoDups(links, root, top, kids, g);
    StillThere(kids[g], n, m);
  }

  lemma TopKids(kinds: KindMap, links: LinkMap, root: Option<Id>, top: seq<Id>, kids: Kids, loose: set<Id>)
    requires Tree(kinds, links, root, top, kids, loose)
    ensures forall g | g in top :: g in kids
  {
  }

  lemma PlacedFirst(kids: Kids, from: Option<Id>, n: Id, g: Id)
    requires g in kids
    ensures var k := Placed(kids, from, n, g, None); g in k && k[g] != [] && k[g][0] == n
  {
  }

  lemma LooseTallies(contacts: Contacts, groups: Groups, kids: Kids, buddies: Buddies, chats: Chats,
                     connected: set<Account>, n: Id)
    requires forall p | p in kids :: n !in kids[p]
    ensures CurTally(contacts, groups, kids, buddies, chats, connected) ==>
      CurTally(contacts, groups, kids, buddies, chats - {n}, connected)
    ensures OnlineTally(contacts, groups, kids, buddies, chats, connected) ==>
      OnlineTally(contacts, groups, kids, buddies, chats - {n}, connected)
  {
    hide Tally;
    if CurTally(contacts, groups, kids, buddies, chats, connected) {
      TallySame(CurOf(contacts), CurOfGroups(groups), kids, Live(buddies, connected), Live(buddies, connected),
                LiveChats(chats, connected), LiveChats(chats - {n}, connected));
    }
    if OnlineTally(contacts, groups, kids, buddies, chats, connected) {
      TallySame(OnlineOf(contacts), OnlineOfGroups(groups), kids, Up(buddies), Up(buddies),
                LiveChats(chats, connected), LiveChats(chats - {n}, connected));
    }
  }

  lemma ChatRecords(kinds: KindMap, groups: Groups, contacts: Contacts, buddies: Buddies, chats: Chats, nextId: Id,
                    n: Id)
    requires Records(kinds, groups, contacts, buddies, chats, nextId) && n in chats
    ensures Records(kinds - {n}, groups, contacts, buddies, chats - {n}, nextId) && n in kinds && kinds[n] == ChatNode
  {
  }

  /** Freeing a loose chat. */
  lemma ChatGone(cfg: Config, kinds: KindMap, links: LinkMap, root: Option<Id>, top: seq<Id>, kids: Kids,
                 groups: Groups, contacts: Contacts, buddies: Buddies, chats: Chats, nextId: Id,
                 connected: set<Account>, n: Id)
    requires OkState(cfg, kinds, links, root, top, kids, {n}, groups, contacts, buddies, chats, nextId, connected)
      && n in chats
    ensures OkState(cfg, kinds - {n}, links - {n}, root, top, kids, {}, groups, contacts, buddies, chats - {n}, nextId,
                    connected)
    ensures OnlineState(groups, contacts, kids, buddies, chats, connected) ==>
      OnlineState(groups, contacts, kids, buddies, chats - {n}, connected)
  {
    hide Tree, Records, Totals, CurTally, OnlineTally, Bests, Scores, UpIsLive;
    ChatRecords(kinds, groups, contacts, buddies, chats, nextId, n);
    LooseNowhere(kinds, links, root, top, kids, {n}, n);
    FreedTree(kinds, links, root, top, kids, {n}, n);
    assert kids - {n} == kids && {n} - {n} == {};
    LooseTallies(contacts, groups, kids, buddies, chats, connected, n);
  }

  lemma GoneHomes(kinds: KindMap, links: LinkMap, links': LinkMap, root: Option<Id>, top: seq<Id>, kids: Kids,
                  buddies: Buddies, n: Id)
    requires Tree(kinds, links', root, top, kids, {}) && n !in buddies && n !in kids
    requires forall b | b in buddies :: b in kinds
    requires links'.Keys == links.Keys - {n} && forall m | m in links' :: links'[m].parent == links[m].parent
    ensures HomesOf(links', buddies) == HomesOf(links, buddies)
  {
    hide Shape, GroupOf;
    forall b | b in buddies ensures GroupOf(links', b) == GroupOf(links, b) {
      SameGroups(kinds, links, links', root, top, kids, {}, b);
    }
  }

  lemma HomeIn(links: LinkMap, buddies: Buddies, b: Id, c: Id, g: Id)
    requires b in buddies && HasParent(links, b, c) && HasParent(links, c, g)
    ensures b in HomesOf(links, buddies) && HomesOf(links, buddies)[b] == g && GroupOf(links, b) == Some(g)
  {
  }

  lemma BuddiesKnown(kinds: KindMap, groups: Groups, contacts: Contacts, buddies: Buddies, chats: Chats, nextId: Id)
    requires Records(kinds, groups, contacts, buddies, chats, nextId)
    ensures forall b | b in buddies :: b in kinds
  {
  }

  // ----- buddies that move with their contact

  ghost function KidsMix(kids: Kids, c: Id, kept: seq<Id>, s: seq<Id>, k: nat): Kids
    requires k <= |s|
  {
    kids[c := kept + s[k..]]
  }

  ghost function BuddiesMix(buddies: Buddies, s: seq<Id>, k: nat, kept: seq<Id>): Buddies
    requires k <= |s|
  {
    Less(buddies, Members(s[..k]) - Members(kept))
  }

  lemma MixStart(kids: Kids, c: Id, s: seq<Id>, buddies: Buddies)
    requires c in kids && kids[c] == s
    ensures KidsMix(kids, c, [], s, 0) == kids && BuddiesMix(buddies, s, 0, []) == buddies
  {
    assert [] + s[0..] == s;
  }

  lemma MixAt(kids: Kids, c: Id, kept: seq<Id>, s: seq<Id>, k: nat)
    requires k <= |s|
    ensures c in KidsMix(kids, c, kept, s, k) && KidsMix(kids, c, kept, s, k)[c] == kept + s[k..]
  {
  }

  /** One more buddy is kept. */
  lemma MixKeep(kids: Kids, c: Id, kept: seq<Id>, s: seq<Id>, k: nat, buddies: Buddies)
    requires k < |s|
    ensures KidsMix(kids, c, kept + [s[k]], s, k + 1) == KidsMix(kids, c, kept, s, k)
    ensures BuddiesMix(buddies, s, k + 1, kept + [s[k]]) == BuddiesMix(buddies, s, k, kept) || s[k] in s[..k]
  {
    assert kept + [s[k]] + s[k + 1..] == kept + s[k..];
    assert s[..k + 1] == s[..k] + [s[k]];
    if s[k] !in s[..k] {
      assert Members(s[..k + 1]) - Members(kept + [s[k]]) == Members(s[..k]) - Members(kept);
    }
  }

  /** One more buddy is deleted. */
  lemma MixDelete(kids: Kids, c: Id, g: Id, kept: seq<Id>, s: seq<Id>, k: nat, buddies: Buddies)
    requires k < |s| && s[k] !in kept && c in kids && g in kids && c != g
    ensures Less(BuddiesMix(buddies, s, k, kept), {s[k]}) == BuddiesMix(buddies, s, k + 1, kept)
    ensures Drop(kept + s[k..], s[k]) == kept + s[k + 1..]
    ensures kept + s[k + 1..] != [] ==>
      Removed(KidsMix(kids, c, kept, s, k), g, c, s[k]) == KidsMix(kids, c, kept, s, k + 1)
    ensures kept + s[k + 1..] == [] ==>
      Removed(KidsMix(kids, c, kept, s, k), g, c, s[k]) == kids[g := Drop(kids[g], c)] - {c}
  {
    DropJoined(kept, s[k..]);
    assert s[k..][1..] == s[k + 1..];
    assert s[..k + 1] == s[..k] + [s[k]];
    assert Members(s[..k + 1]) - Members(kept) == (Members(s[..k]) - Members(kept)) + {s[k]};
    var t := kept + s[k + 1..];
    assert kids[c := kept + s[k..]][c := t] == kids[c := t];
    assert kids[c := kept + s[k..]][c := []][g := Drop(kids[g], c)] - {c} == kids[g := Drop(kids[g], c)] - {c};
  }

  lemma {:induction false} PlaceIs(s: seq<Id>, i: nat, n: Id)
    requires i < |s| && s[i] == n && n !in s[..i]
    ensures Place(s, n) == i
    decreases i
  {
    if i > 0 {
      assert s[0] == s[..i][0] && s[1..][..i - 1] == s[..i][1..];
      PlaceIs(s[1..], i - 1, n);
    }
  }

  lemma DropJoined(a: seq<Id>, t: seq<Id>)
    requires t != [] && t[0] !in a
    ensures Drop(a + t, t[0]) == a + t[1..]
  {
    PlaceIs(a + t, |a|, t[0]);
  }

  /** Some of the buddies `s` are gone; all others are where they were. */
  ghost predicate Shrunk(home: HomeMap, home0: HomeMap, buddies: Buddies, buddies0: Buddies, s: seq<Id>) {
    && (forall d | d in home ::
        d in home0 && home[d] == home0[d] && d in buddies0 && d in buddies && buddies[d] == buddies0[d])
    && (forall d | d in home0 :: d in home || d in s)
  }

  ghost predicate AllAt(home: HomeMap, s: seq<Id>, g: Id) { forall d | d in s :: d in home && home[d] == g }

  lemma TurnKey(cfg: Config, index0: Index, buddies0: Buddies, home0: HomeMap, index: Index, buddies: Buddies,
                home: HomeMap,
                s: seq<Id>, k: nat, kept: seq<Id>, g0: Id, g: Id)
    requires IndexAs(cfg, index0, buddies0, home0) && Shrunk(home, home0, buddies, buddies0, s) && AllAt(home0, s, g0)
      && g0 != g
    requires IndexAs(cfg, index, buddies, Rehomed(home, Members(kept), g)) && k < |s|
    requires kept == Survivors(cfg, buddies0, index0, s[..k], g)
    requires s[k] in buddies && s[k] !in kept && s[k] in home
    ensures KeyOf(cfg, buddies[s[k]], g) in index - {KeyOf(cfg, buddies[s[k]], g0)} <==>
      KeyOf(cfg, buddies0[s[k]], g) in index0
    ensures home[s[k]] == g0 && buddies[s[k]] == buddies0[s[k]]
  {
    hide IndexAs, KeyOf, Rehomed;
    var b := s[k];
    assert b in s && home0[b] == g0;
    forall d | d in kept ensures d in s {
      SurvivorsMember(cfg, buddies0, index0, s[..k], g, d);
    }
    KeyStaysFree(cfg, index0, buddies0, home0, index, buddies, home, Members(kept), b, g);
  }

  /** What a turn does to the index. */
  lemma TurnIndex(cfg: Config, index0: Index, buddies0: Buddies, home0: HomeMap, index: Index, buddies: Buddies,
                  home: HomeMap,
                  s: seq<Id>, k: nat, kept: seq<Id>, g0: Id, g: Id)
    requires IndexAs(cfg, index0, buddies0, home0) && Shrunk(home, home0, buddies, buddies0, s) && AllAt(home0, s, g0)
      && g0 != g
    requires IndexAs(cfg, index, buddies, Rehomed(home, Members(kept), g)) && k < |s|
    requires kept == Survivors(cfg, buddies0, index0, s[..k], g)
    requires s[k] in buddies && s[k] !in kept && s[k] in home
    ensures buddies[s[k]] == buddies0[s[k]]
    ensures KeyOf(cfg, buddies[s[k]], g) in index - {KeyOf(cfg, buddies[s[k]], g0)} <==>
      KeyOf(cfg, buddies0[s[k]], g) in index0
    ensures
      var b := s[k];
      var index' := index - {KeyOf(cfg, buddies[b], g0)};
      if KeyOf(cfg, buddies[b], g) !in index' then
        && IndexAs(cfg, index'[KeyOf(cfg, buddies[b], g) := b], buddies, Rehomed(home, Members(kept + [b]), g))
        && kept + [b] == Survivors(cfg, buddies0, index0, s[..k + 1], g)
      else
        && IndexAs(cfg, index' - {KeyOf(cfg, buddies[b], g0)}, buddies - {b}, Rehomed(home - {b}, Members(kept), g))
        && kept == Survivors(cfg, buddies0, index0, s[..k + 1], g)
  {
    hide IndexAs, KeyOf, Rehomed, Survivors, Shrunk, AllAt;
    var b := s[k];
    TurnKey(cfg, index0, buddies0, home0, index, buddies, home, s, k, kept, g0, g);
    AtHome(home, home0, buddies, buddies0, s, k, g0);
    SurvivorsNext(cfg, buddies0, index0, s, k, g);
    IndexMove(cfg, index, buddies, home, Members(kept), b, g);
    assert Members(kept + [b]) == Members(kept) + {b};
    var index' := index - {KeyOf(cfg, buddies[b], g0)};
    assert index' - {KeyOf(cfg, buddies[b], g0)} == index';
    if KeyOf(cfg, buddies[b], g) in index' {
      HomelessGone(cfg, index', buddies, Rehomed(home - {b}, Members(kept), g), b);
      RehomedLacks(home - {b}, Members(kept), g, b);
      assert kept + [] == kept;
    }
  }

  /** Whether a contact leaves another group when it goes to `g`. */
  predicate Leaves(links: LinkMap, c: Id, g: Id) { c in links && links[c].parent.Some? && links[c].parent != Some(g) }

  /** A buddy without a name that came where its key was taken shares it with another one now. */
  lemma NamelessClash(cfg: Config, index0: Index, buddies0: Buddies, home0: HomeMap, index: Index, buddies: Buddies,
                      home: HomeMap,
                      s: seq<Id>, kept: seq<Id>, g0: Id, g: Id)
    requires IndexAs(cfg, index0, buddies0, home0) && IndexAs(cfg, index, buddies, home)
    requires AllAt(home0, s, g0) && g0 != g && AllAt(home, kept, g)
    requires forall d | d in home0 && d !in s :: d in home && home[d] == home0[d]
    requires forall d | d in buddies :: d in buddies0 && buddies[d] == buddies0[d]
    requires forall b | b in s && b in buddies0 && buddies0[b].name == "" :: b in kept
    ensures NamelessFree(cfg, buddies0, index0, s, g)
  {
    hide KeyOf;
    forall b | b in s && b in buddies0 && buddies0[b].name == "" ensures KeyOf(cfg, buddies0[b], g) !in index0 {
      var k := KeyOf(cfg, buddies0[b], g);
      IndexFinds(cfg, index, buddies, home, k, b);
      KeyGroup(cfg, buddies0[b], g);
      if k in index0 {
        var d := index0[k];
        IndexFinds(cfg, index0, buddies0, home0, k, d);
        IndexFinds(cfg, index, buddies, home, k, d);
      }
    }
  }

  lemma AtHome(home: HomeMap, home0: HomeMap, buddies: Buddies, buddies0: Buddies, s: seq<Id>, k: nat, g0: Id)
    requires Shrunk(home, home0, buddies, buddies0, s) && AllAt(home0, s, g0) && k < |s| && s[k] in home
    ensures home[s[k]] == g0 && s[k] in buddies0
  {
    assert s[k] in s;
  }

  lemma HomelessGone(cfg: Config, index: Index, buddies: Buddies, home: HomeMap, b: Id)
    requires IndexAs(cfg, index, buddies, home)
    ensures b !in home ==> IndexAs(cfg, index, buddies - {b}, home)
  {
    if b !in home {
      IndexSame(cfg, index, buddies, buddies - {b}, home);
    }
  }

  lemma ListNoDupsOf(kinds: KindMap, links: LinkMap, root: Option<Id>, top: seq<Id>, kids: Kids, loose: set<Id>, p: Id)
    requires Tree(kinds, links, root, top, kids, loose) && p in kids
    ensures NoDups(kids[p])
  {
    ListNoDups(links, root, top, kids, p);
  }

  lemma TurnSeq(kept: seq<Id>, s: seq<Id>, k: nat)
    requires k < |s|
    ensures s[k] in kept + s[k..] && |kept + s[k..]| >= 1
    ensures |kept + s[k..]| == 1 <==> kept == [] && k + 1 == |s|
    ensures kept + s[k..] == [s[k]] <==> kept == [] && k + 1 == |s|
    ensures kept + s[k + 1..] == [] <==> kept == [] && k + 1 == |s|
  {
    assert (kept + s[k..])[|kept|] == s[k];
  }

  lemma NotKept(kept: seq<Id>, s: seq<Id>, k: nat)
    requires k < |s| && NoDups(kept + s[k..])
    ensures s[k] !in kept
  {
    var t := kept + s[k..];
    assert t[|kept|] == s[k];
    assert forall i | 0 <= i < |kept| :: t[i] == kept[i];
  }

  /** No buddy of `s` but those in `kept` was signing off. */
  ghost predicate NoneLost(buddies: Buddies, s: seq<Id>, kept: seq<Id>) {
    forall b | b in s && b !in kept && b in buddies :: buddies[b].present != SigningOff
  }

  /** How many of the first `k` were signing off and are not kept. */
  ghost function Lost(buddies: Buddies, s: seq<Id>, k: nat, kept: seq<Id>): nat
    requires k <= |s|
  {
    Count(s[..k], Leaving(buddies) - Members(kept))
  }

  lemma LostStart(buddies: Buddies, s: seq<Id>)
    ensures Lost(buddies, s, 0, []) == 0
  {
  }

  lemma LostNext(buddies: Buddies, s: seq<Id>, k: nat, kept: seq<Id>)
    requires k < |s| && s[k] in buddies && s[k] !in s[..k] && s[k] !in kept
    ensures Lost(buddies, s, k + 1, kept + [s[k]]) == Lost(buddies, s, k, kept)
    ensures Lost(buddies, s, k + 1, kept) == Lost(buddies, s, k, kept) + One(buddies[s[k]].present == SigningOff)
  {
    hide Count;
    var t, b := s[..k], s[k];
    assert s[..k + 1] == t + [b];
    CountSplit(t, [b], Leaving(buddies) - Members(kept));
    CountSplit(t, [b], Leaving(buddies) - Members(kept + [b]));
    CountSingle(b, Leaving(buddies) - Members(kept));
    CountSingle(b, Leaving(buddies) - Members(kept + [b]));
    CountSame(t, Leaving(buddies) - Members(kept), Leaving(buddies) - Members(kept + [b]));
  }

  lemma LostNone(buddies: Buddies, s: seq<Id>, kept: seq<Id>)
    ensures Lost(buddies, s, |s|, kept) == 0 <==> NoneLost(buddies, s, kept)
  {
    assert s[..|s|] == s;
    CountZero(s, Leaving(buddies) - Members(kept));
  }

  lemma {:induction false} CountZero(s: seq<Id>, m: set<Id>)
    ensures Count(s, m) == 0 <==> forall b | b in s :: b !in m
    decreases |s|
  {
    if s != [] {
      CountZero(s[1..], m);
      assert s == [s[0]] + s[1..];
    }
  }

  lemma PendingMix(buddies: Buddies, s: seq<Id>, k: nat, kept: seq<Id>)
    requires k <= |s|
    ensures Pending(buddies) ==> Pending(BuddiesMix(buddies, s, k, kept))
  {
    MixRecords(buddies, s, k, kept);
  }

  lemma MixRecords(buddies0: Buddies, s: seq<Id>, k: nat, kept: seq<Id>)
    requires k <= |s|
    ensures var buddies := BuddiesMix(buddies0, s, k, kept);
      && (forall b | b in buddies :: b in buddies0 && buddies[b] == buddies0[b])
      && (forall b | b in buddies0 && b !in s :: b in buddies)
      && (forall b | b in kept && b in buddies0 :: b in buddies)
  {
    forall b | b in buddies0 && b !in s ensures b in BuddiesMix(buddies0, s, k, kept) {
      assert b !in s[..k];
    }
  }

  /** While buddies are only deleted, the others stay where they were. */
  lemma HomesShrink(kinds: KindMap, links: LinkMap, links0: LinkMap, root: Option<Id>, top: seq<Id>, kids: Kids,
                    groups: Groups, contacts: Contacts, buddies: Buddies, buddies0: Buddies, chats: Chats, nextId: Id,
                    s: seq<Id>)
    requires Tree(kinds, links, root, top, kids, {}) && Records(kinds, groups, contacts, buddies, chats, nextId)
    requires forall m | m in links :: m in links0 && links[m].parent == links0[m].parent
    requires forall b | b in buddies :: b in buddies0 && buddies[b] == buddies0[b]
    requires forall b | b in buddies0 && b !in s :: b in buddies
    ensures Shrunk(HomesOf(links, buddies), HomesOf(links0, buddies0), buddies, buddies0, s)
  {
    hide Tree, GroupOf;
    BuddiesKnown(kinds, groups, contacts, buddies, chats, nextId);
    forall b | b in buddies ensures GroupOf(links, b) == GroupOf(links0, b) {
      TreeKeys(kinds, links, root, top, kids, {}, b);
      SameGroups(kinds, links0, links, root, top, kids, {}, b);
    }
  }

  lemma OneGone(kinds: KindMap, links: LinkMap, links0: LinkMap, root: Option<Id>, top: seq<Id>, kids: Kids,
                groups: Groups, contacts: Contacts, buddies: Buddies, buddies0: Buddies, chats: Chats, nextId: Id,
                b: Id)
    requires Tree(kinds, links, root, top, kids, {}) && Records(kinds, groups, contacts, buddies, chats, nextId)
    requires forall m | m in links :: m in links0 && links[m].parent == links0[m].parent
    requires buddies == Less(buddies0, {b})
    ensures HomesOf(links, buddies) == HomesOf(links0, buddies0) - {b}
  {
    hide Tree, GroupOf;
    BuddiesKnown(kinds, groups, contacts, buddies, chats, nextId);
    forall d | d in buddies ensures GroupOf(links, d) == GroupOf(links0, d) {
      TreeKeys(kinds, links, root, top, kids, {}, d);
      SameGroups(kinds, links0, links, root, top, kids, {}, d);
    }
  }

  lemma TurnAt(kept: seq<Id>, s: seq<Id>, k: nat)
    requires k < |s| && NoDups(kept + s[k..])
    ensures var t := kept + s[k..];
      |kept| < |t| && t[|kept|] == s[k] && Here(t, |kept| + 1) == Here(s, k + 1) && s[k] !in kept
  {
    NotKept(kept, s, k);
  }

  lemma FirstTime(s: seq<Id>, k: nat)
    requires NoDups(s) && k < |s|
    ensures s[k] !in s[..k]
  {
  }

  lemma LessIs<K, V>(m: map<K, V>, gone: set<K>)
    ensures Less(m, gone) == m - gone
  {
  }

  /** A contact that goes to another group takes its buddies with it. */
  lemma HomesMoved(kinds: KindMap, links: LinkMap, links': LinkMap, root: Option<Id>, top: seq<Id>, kids: Kids,
                   groups: Groups, contacts: Contacts, buddies: Buddies, chats: Chats, nextId: Id, c: Id, g: Id)
    requires Tree(kinds, links', root, top, kids, {}) && Records(kinds, groups, contacts, buddies, chats, nextId)
    requires c in contacts && c in kids && c in links' && links'[c].parent == Some(g)
    requires links'.Keys == links.Keys && forall m | m in links && m != c :: links'[m].parent == links[m].parent
    requires kids[c] == [] || (c in links && links[c].parent.Some?)
    ensures HomesOf(links', buddies) == Rehomed(HomesOf(links, buddies), Members(kids[c]), g)
  {
    hide Tree, GroupOf;
    BuddiesKnown(kinds, groups, contacts, buddies, chats, nextId);
    forall b | b in buddies
      ensures GroupOf(links', b) == if b in kids[c] then Some(g) else GroupOf(links, b)
      ensures b in kids[c] ==> GroupOf(links, b).Some?
    {
      TreeKeys(kinds, links', root, top, kids, {}, b);
      MovedGroup(kinds, links, links', root, top, kids, c, g, b);
    }
  }

  lemma MovedGroup(kinds: KindMap, links: LinkMap, links': LinkMap, root: Option<Id>, top: seq<Id>, kids: Kids, c: Id,
                   g: Id, b: Id)
    requires Tree(kinds, links', root, top, kids, {}) && c in kinds && kinds[c] == ContactNode && b in kinds
      && kinds[b] == BuddyNode
    requires c in kids && c in links' && links'[c].parent == Some(g)
    requires links'.Keys == links.Keys && forall m | m in links && m != c :: links'[m].parent == links[m].parent
    requires kids[c] == [] || (c in links && links[c].parent.Some?)
    ensures GroupOf(links', b) == if b in kids[c] then Some(g) else GroupOf(links, b)
    ensures b in kids[c] ==> GroupOf(links, b).Some?
  {
    hide Shape;
    assert Home(kinds[b], links'[b].parent, kids, b);
    if b in kids[c] {
      OneHome(kinds, links', root, top, kids, {}, c, b);
    }
  }

  lemma SameHomes(home: HomeMap, s: seq<Id>, g: Id)
    requires forall b | b in s && b in home :: home[b] == g
    ensures Rehomed(home, Members(s), g) == home
  {
  }

  lemma PlacedKeeps(kids: Kids, from: Option<Id>, c: Id, g: Id, node: Option<Id>)
    requires c in kids && c != g && from != Some(c)
    ensures var k := Placed(kids, from, c, g, node); c in k && k[c] == kids[c]
  {
  }

  lemma AllMixed(kids: Kids, c: Id, kept: seq<Id>, s: seq<Id>)
    ensures KidsMix(kids, c, kept, s, |s|) == kids[c := kept]
    ensures c in kids[c := kept] && kids[c := kept][c] == kept
  {
    assert kept + s[|s|..] == kept;
  }

  lemma KidsOfOther(kids: Kids, kids': Kids, c: Id, g: Id)
    requires c in kids && (kids' == kids || (g !in kids && kids' == kids[g := []]))
    ensures c in kids' && kids'[c] == kids[c]
  {
  }

  /** Only the record of `c` is another one, and its online count is `n` more. */
  ghost predicate OnlyContact(contacts: Contacts, contacts': Contacts, c: Id, n: int) {
    && contacts'.Keys == contacts.Keys
    && (forall d | d in contacts && d != c :: contacts'[d] == contacts[d])
    && (c in contacts ==> contacts'[c].online == contacts[c].online + n)
  }

  /** The lists with `b` in `c`, after `node` or first. */
  ghost predicate JoinedKids(kids: Kids, kids': Kids, c: Id, node: Option<Id>, b: Id) {
    c in kids && kids' == kids[c := With(kids[c], After(kids[c], node), b)]
  }

  /** The record of a contact that counts one buddy more. */
  ghost predicate JoinedRecord(contacts: Contacts, contacts': Contacts, c: Id, buddies: Buddies,
                               connected: set<Account>, b: Id)
  {
    && b in buddies && c in contacts
    && contacts' == contacts[c := ContactPlus(contacts[c], buddies[b].account in connected,
                                              IsOnline(buddies[b], connected))]
  }

  lemma JoinedThenBest(contacts: Contacts, contacts': Contacts, c: Id, buddies: Buddies, connected: set<Account>, b: Id,
                       p: Option<Id>)
    requires JoinedRecord(contacts, contacts', c, buddies, connected, b)
    ensures c in contacts' && OnlyContact(contacts, contacts'[c := contacts'[c].(priority := p)], c,
                                          UpBy(buddies, connected, b))
  {
  }

  /** How much a buddy adds to the online count. */
  function UpBy(buddies: Buddies, connected: set<Account>, b: Id): int {
    if b in buddies && IsOnline(buddies[b], connected) then 1 else 0
  }

  predicate IsLeaving(buddies: Buddies, b: Id) { b in buddies && buddies[b].present == SigningOff }

  ghost predicate IndexedAt(cfg: Config, buddies: Buddies, index: Index, index': Index, b: Id, g: Id) {
    b in buddies && index' == index[KeyOf(cfg, buddies[b], g) := b]
  }

  predicate HasParent(links: LinkMap, n: Id, p: Id) { n in links && links[n].parent == Some(p) }

  /** The parents of all nodes but `b` are the same. */
  ghost predicate SameParentsBut(links: LinkMap, links': LinkMap, b: Id) {
    links'.Keys == links.Keys && forall m | m in links && m != b :: links'[m].parent == links[m].parent
  }

  // ----- a buddy that arrives

  /** The state with `b` in `c`, whose best buddy may have changed. */
  ghost predicate Arrived(cfg: Config, kinds: KindMap, kids: Kids, kids': Kids, groups: Groups, groups': Groups,
                          contacts: Contacts, contacts': Contacts, buddies: Buddies, chats: Chats, nextId: Id,
                          connected: set<Account>, c: Id, b: Id)
  {
    && CurTally(contacts', groups', kids', buddies, chats, connected) && Totals(contacts', kids')
    && BestsBut(cfg, buddies, connected, contacts', kids', c)
    && Records(kinds, groups', contacts', buddies, chats, nextId)
    && (OnlineTally(contacts, groups, kids, buddies, chats, connected) && UpIsLive(buddies, connected)
        && b in buddies && buddies[b].present != SigningOff ==>
          OnlineTally(contacts', groups', kids', buddies, chats, connected))
  }

  lemma Arrives(cfg: Config, kinds: KindMap, links: LinkMap, root: Option<Id>, top: seq<Id>, kids: Kids, loose: set<Id>,
                groups: Groups, contacts: Contacts, buddies: Buddies, chats: Chats, nextId: Id, connected: set<Account>,
                c: Id, g: Id, i: nat, b: Id)
    requires Tree(kinds, links, root, top, kids, loose) && Records(kinds, groups, contacts, buddies, chats, nextId)
    requires Totals(contacts, kids) && CurTally(contacts, groups, kids, buddies, chats, connected)
    requires Bests(cfg, buddies, connected, contacts, kids)
    requires b in buddies && c in contacts && c !in loose
    requires c in links && links[c].parent == Some(g) && c in kids && i <= |kids[c]|
    ensures g in groups
    ensures
      var live, online := buddies[b].account in connected, IsOnline(buddies[b], connected);
      Arrived(cfg, kinds, kids, kids[c := With(kids[c], i, b)],
              groups, groups[g := GroupPlus(groups[g], contacts[c], live, online)],
              contacts, contacts[c := ContactPlus(contacts[c], live, online)], buddies, chats, nextId, connected, c, b)
  {
    hide Tree, Records, CurTally, OnlineTally, Totals, Bests, UpIsLive, IsBest, With, LiveChats, Nested, IsOnline,
         CurOf, CurOfGroups, OnlineOf, OnlineOfGroups;
    LiveChatsAre(chats, connected);
    NestedInTree(kinds, links, root, top, kids, loose, groups, contacts, buddies, chats, nextId,
                 LiveChats(chats, connected), c, g);
    JoinSizes(contacts, groups, kids, buddies, chats, connected, c, g, i, b);
    if OnlineTally(contacts, groups, kids, buddies, chats, connected) && UpIsLive(buddies, connected)
      && buddies[b].present != SigningOff {
      JoinOnline(contacts, groups, kids, buddies, chats, connected, c, g, i, b);
    }
    BestOf(cfg, buddies, connected, contacts, kids, c);
    var live, online := buddies[b].account in connected, IsOnline(buddies[b], connected);
    RecordsUpdated(kinds, groups, contacts, buddies, chats, nextId, c, ContactPlus(contacts[c], live, online),
                   g, GroupPlus(groups[g], contacts[c], live, online));
    BestsButLeaves(cfg, buddies, connected, contacts, contacts[c := ContactPlus(contacts[c], live, online)], kids,
                   kids[c := With(kids[c], i, b)], c);
  }

  /** A buddy with a new place, all others where they were. */
  lemma HomesArrived(kinds: KindMap, links: LinkMap, links': LinkMap, root: Option<Id>, top: seq<Id>, kids: Kids,
                     groups: Groups, contacts: Contacts, buddies: Buddies, chats: Chats, nextId: Id, c: Id, g: Id,
                     b: Id)
    requires Tree(kinds, links', root, top, kids, {}) && Records(kinds, groups, contacts, buddies, chats, nextId)
    requires b in buddies && b in links' && links'[b].parent == Some(c) && c in links' && links'[c].parent == Some(g)
      && c !in buddies
    requires forall m | m in links' && m != b :: m in links && links'[m].parent == links[m].parent
    ensures HomesOf(links', buddies) == HomesOf(links, buddies)[b := g]
  {
    hide Tree, GroupOf;
    BuddiesKnown(kinds, groups, contacts, buddies, chats, nextId);
    GroupIs(links', b, c, g);
    forall d | d in buddies && d != b ensures GroupOf(links', d) == GroupOf(links, d) {
      BuddyKind(kinds, groups, contacts, buddies, chats, nextId, d);
      BuddyKind(kinds, groups, contacts, buddies, chats, nextId, b);
      OtherGroup(kinds, links, links', root, top, kids, b, d);
    }
  }

  lemma GroupIs(links: LinkMap, b: Id, c: Id, g: Id)
    requires b in links && links[b].parent == Some(c) && c in links && links[c].parent == Some(g)
    ensures GroupOf(links, b) == Some(g)
  {
  }

  lemma OtherGroup(kinds: KindMap, links: LinkMap, links': LinkMap, root: Option<Id>, top: seq<Id>, kids: Kids, b: Id,
                   d: Id)
    requires Tree(kinds, links', root, top, kids, {}) && d in kinds && kinds[d] == BuddyNode && b in kinds
      && kinds[b] == BuddyNode && d != b
    requires forall m | m in links' && m != b :: m in links && links'[m].parent == links[m].parent
    ensures GroupOf(links', d) == GroupOf(links, d)
  {
    hide Shape;
    assert Home(kinds[d], links'[d].parent, kids, d);
  }

  /** What adding or moving a buddy does to the index: it stays right if and only if the key is free in the
      group, or is the buddy's own. */
  lemma IndexArrives(cfg: Config, index: Index, buddies: Buddies, home: HomeMap, b: Id, g: Id)
    requires IndexAs(cfg, index, buddies, home) && b in buddies
    ensures
      var k := KeyOf(cfg, buddies[b], g);
      var index' := if b in home && home[b] != g then index - {KeyOf(cfg, buddies[b], home[b])} else index;
      IndexAs(cfg, index'[k := b], buddies, home[b := g]) <==> (k !in index || index[k] == b)
  {
    hide IndexAs;
    var k := KeyOf(cfg, buddies[b], g);
    if b !in home {
      IndexPut(cfg, index, buddies, home, b, g);
      if k in index {
        IndexFinds(cfg, index, buddies, home, k, index[k]);
      }
    } else if home[b] != g {
      var index' := index - {KeyOf(cfg, buddies[b], home[b])};
      IndexDrop(cfg, index, buddies, home, b);
      IndexPut(cfg, index', buddies, home - {b}, b, g);
      assert (home - {b})[b := g] == home[b := g];
      if k in index {
        IndexFinds(cfg, index, buddies, home, k, index[k]);
      }
    } else {
      IndexFinds(cfg, index, buddies, home, k, b);
      assert index[k := b] == index && home[b := g] == home;
    }
  }

  lemma PlusNames(groups: Groups, g: Id, c: Contact, live: bool, online: bool)
    ensures g in groups ==> SameNames(groups, groups[g := GroupPlus(groups[g], c, live, online)])
  {
  }

  /** The record of `c` counts `n` less online, or is gone; the others are as they were. */
  ghost predicate LeftContact(contacts: Contacts, contacts': Contacts, c: Id, n: int, gone: bool) {
    && contacts'.Keys == (if gone then contacts.Keys - {c} else contacts.Keys)
    && (forall d | d in contacts && d != c :: d in contacts' && contacts'[d] == contacts[d])
    && (!gone && c in contacts ==> contacts'[c].online == contacts[c].online - n)
  }

  lemma LeftGone(contacts: Contacts, c: Id, x: Contact, n: int)
    requires c in contacts
    ensures LeftContact(contacts, contacts[c := x] - {c}, c, n, true)
  {
  }

  lemma LeftStays(contacts: Contacts, c: Id, live: bool, up: bool, p: Option<Id>)
    requires c in contacts
    ensures var x := ContactLess(contacts[c], live, up);
      LeftContact(contacts, contacts[c := x][c := x.(priority := p)], c, One(up), false)
  {
  }

  /** Nodes may go, but those that stay keep their parents. */
  ghost predicate FewerLinks(links: LinkMap, links': LinkMap) {
    links'.Keys <= links.Keys && forall m | m in links' :: links'[m].parent == links[m].parent
  }

  lemma RemovedInSteps(kids: Kids, g: Id, c: Id, b: Id)
    requires c in kids && g in kids && c != g
    ensures Drop(kids[c], b) != [] ==> Removed(kids, g, c, b) == kids[c := Drop(kids[c], b)]
    ensures Drop(kids[c], b) == [] ==>
              var k := kids[c := Drop(kids[c], b)]; g in k && Removed(kids, g, c, b) == k[g := Drop(k[g], c)] - {c}
  {
  }

  // ----- a buddy that is signing off and moves

  /** Its old contact has let it go uncounted and its new one has taken it uncounted, so the new one counts too few. */
  lemma LeavingMiscounts(contacts: Contacts, groups: Groups, kids: Kids, buddies: Buddies, chats: Chats,
                         connected: set<Account>,
                         contacts': Contacts, groups': Groups, kids': Kids, c: Id, i: nat, b: Id)
    requires OnlineTally(contacts, groups, kids, buddies, chats, connected)
    requires c in contacts && c in contacts' && contacts'[c].online == contacts[c].online && c in kids && i <= |kids[c]|
    requires c in kids' && kids'[c] == With(kids[c], i, b) && b in buddies && buddies[b].present != Offline
    ensures !OnlineTally(contacts', groups', kids', buddies, chats, connected)
  {
    hide With;
    CountWith(kids[c], i, b, Up(buddies));
    assert OnlineOf(contacts)[c] == contacts[c].online && OnlineOf(contacts')[c] == contacts'[c].online;
  }

  lemma CountMoved(s: seq<Id>, b: Id, i: nat, m: set<Id>)
    requires b in s && i <= |Drop(s, b)|
    ensures Count(With(Drop(s, b), i, b), m) == Count(s, m)
  {
    CountWithout(s, Place(s, b), m);
    CountWith(Drop(s, b), i, b, m);
  }

  /** A contact that is not counted anew while its buddies change places still counts right. */
  lemma PermutedCounts(contacts: Contacts, groups: Groups, kids: Kids, buddies: Buddies, chats: Chats,
                       connected: set<Account>,
                       contacts': Contacts, groups': Groups, kids': Kids, c: Id, b: Id, i: nat)
    requires OnlineTally(contacts, groups, kids, buddies, chats, connected) && SameOnline(groups, groups')
    requires contacts'.Keys == contacts.Keys && forall d | d in contacts :: contacts'[d].online == contacts[d].online
    requires c in contacts && c !in groups && c in kids && b in kids[c] && i <= |Drop(kids[c], b)|
    requires kids' == kids[c := With(Drop(kids[c], b), i, b)]
    ensures OnlineTally(contacts', groups', kids', buddies, chats, connected)
  {
    hide With, Drop;
    CountMoved(kids[c], b, i, Up(buddies));
    SameSizes(contacts, contacts', groups, groups');
  }

  lemma SameSizes(contacts: Contacts, contacts': Contacts, groups: Groups, groups': Groups)
    requires SameOnline(groups, groups')
    requires contacts'.Keys == contacts.Keys && forall d | d in contacts :: contacts'[d].online == contacts[d].online
    ensures OnlineOf(contacts') == OnlineOf(contacts) && OnlineOfGroups(groups') == OnlineOfGroups(groups)
  {
    assert forall d :: d in contacts' <==> d in contacts'.Keys;
    assert forall g :: g in groups' <==> g in groups'.Keys;
  }

  /** The lists when `b` leaves the place the links give it, if any, for the one after `node` in `c`. */
  function Rehoused(kids: Kids, links: LinkMap, b: Id, c: Id, node: Option<Id>): Kids {
    var k := KidsOut(kids, links, b);
    if c in k then k[c := With(k[c], After(k[c], node), b)] else k
  }

  function KidsOut(kids: Kids, links: LinkMap, b: Id): Kids {
    if b in links && links[b].parent.Some? && links[b].parent.value in kids && GroupOf(links, b).Some?
      && GroupOf(links, b).value in kids
    then Removed(kids, GroupOf(links, b).value, links[b].parent.value, b)
    else kids
  }

  lemma KidsOutAt(kids: Kids, g: Id, c0: Id, b: Id, c: Id, node: Option<Id>)
    requires c0 in kids && g in kids && c0 != g && c in kids && c != g && NoDups(kids[c])
    requires c == c0 ==> Drop(kids[c], b) != []
    requires node.Some? ==> node.value in kids[c] && node.value != b
    ensures var k := Removed(kids, g, c0, b);
      && c in k && k[c] == (if c == c0 then Drop(kids[c], b) else kids[c])
      && (node.Some? ==> node.value in k[c])
  {
    hide Drop, NoDups;
    DropMembers(kids[c], b);
  }

  /** What moving a buddy does to the homes, in two steps. */
  lemma TwoSteps(links: LinkMap, links1: LinkMap, links2: LinkMap, b: Id)
    requires FewerLinks(links, links1) && SameParentsBut(links1, links2, b)
    ensures forall m | m in links2 && m != b :: m in links && links2[m].parent == links[m].parent
  {
    forall m | m in links2 ensures m in links1 {
      assert m in links2.Keys;
    }
    forall m | m in links1 ensures m in links {
      assert m in links1.Keys;
    }
  }

  lemma AllLinks(links: LinkMap)
    ensures FewerLinks(links, links)
  {
  }

  /** Nobody else in the group has the key of the buddy. */
  predicate KeyFree(cfg: Config, buddies: Buddies, index: Index, b: Id, g: Id) {
    b in buddies && (KeyOf(cfg, buddies[b], g) !in index || index[KeyOf(cfg, buddies[b], g)] == b)
  }

  lemma StillParent(links: LinkMap, links': LinkMap, c: Id, g: Id, b: Id)
    requires SameParentsBut(links, links', b) && HasParent(links, c, g) && c != b
    ensures HasParent(links', c, g)
  {
    assert c in links.Keys;
  }

  lemma StillParentFewer(links: LinkMap, links': LinkMap, c: Id, g: Id)
    requires FewerLinks(links, links') && HasParent(links, c, g) && c in links'
    ensures HasParent(links', c, g)
  {
  }

  lemma LeftKeys(contacts: Contacts, contacts': Contacts, c0: Id, n: int, gone: bool, c: Id)
    requires LeftContact(contacts, contacts', c0, n, gone) && c in contacts && (gone ==> c != c0)
    ensures c in contacts'
    ensures contacts'[c].online == contacts[c].online - if c == c0 then n else 0
  {
    assert c in contacts'.Keys;
  }

  lemma OnlyKeys(contacts: Contacts, contacts': Contacts, c: Id, n: int)
    requires OnlyContact(contacts, contacts', c, n)
    ensures c in contacts ==> c in contacts' && contacts'[c].online == contacts[c].online + n
  {
    assert c in contacts'.Keys <==> c in contacts.Keys;
  }

  lemma LeavingAddsNothing(buddies: Buddies, connected: set<Account>, b: Id)
    requires IsLeaving(buddies, b)
    ensures UpBy(buddies, connected, b) == 0 && b in buddies && buddies[b].present != Offline
  {
  }

  /** A buddy that is signing off moves within its contact. */
  lemma LeavingStays(contacts: Contacts, groups: Groups, kids: Kids, buddies: Buddies, chats: Chats,
                     connected: set<Account>,
                     contacts1: Contacts, contacts': Contacts, groups1: Groups, groups': Groups, kids1: Kids,
                     kids': Kids, c: Id, b: Id, node: Option<Id>)
    requires OnlineTally(contacts, groups, kids, buddies, chats, connected)
    requires SameOnline(groups, groups1) && SameOnline(groups1, groups')
    requires LeftContact(contacts, contacts1, c, 0, false) && OnlyContact(contacts1, contacts', c, 0)
    requires c in contacts && c !in groups && c in kids && b in kids[c]
    requires kids1 == kids[c := Drop(kids[c], b)] && JoinedKids(kids1, kids', c, node, b)
    ensures OnlineTally(contacts', groups', kids', buddies, chats, connected)
  {
    hide OnlineTally, With, Drop;
    SameOnlineChain(groups, groups1, groups');
    AfterFits(kids1[c], node);
    forall d | d in contacts ensures d in contacts' && contacts'[d].online == contacts[d].online {
      assert d in contacts1.Keys && d in contacts'.Keys;
    }
    var i := After(kids1[c], node);
    assert kids1[c] == Drop(kids[c], b);
    assert kids' == kids[c := With(Drop(kids[c], b), i, b)];
    PermutedCounts(contacts, groups, kids, buddies, chats, connected, contacts', groups', kids', c, b, i);
  }

  /** A buddy that is signing off moves to another contact. */
  lemma LeavingGoes(contacts: Contacts, groups: Groups, kids: Kids, buddies: Buddies, chats: Chats,
                    connected: set<Account>,
                    contacts1: Contacts, contacts': Contacts, groups': Groups, kids1: Kids, kids': Kids, c: Id, b: Id,
                    node: Option<Id>)
    requires OnlineTally(contacts, groups, kids, buddies, chats, connected)
    requires c in contacts && c in contacts1 && contacts1[c].online == contacts[c].online
      && OnlyContact(contacts1, contacts', c, 0)
    requires c in kids && c in kids1 && kids1[c] == kids[c] && JoinedKids(kids1, kids', c, node, b)
    requires b in buddies && buddies[b].present != Offline
    ensures !OnlineTally(contacts', groups', kids', buddies, chats, connected)
  {
    hide OnlineTally, With, Drop;
    OnlyKeys(contacts1, contacts', c, 0);
    AfterFits(kids1[c], node);
    LeavingMiscounts(contacts, groups, kids, buddies, chats, connected, contacts', groups', kids', c,
                     After(kids1[c], node), b);
  }

  /** More nodes may be there; those that were keep their parents. */
  ghost predicate MoreLinks(links: LinkMap, links': LinkMap) {
    links.Keys <= links'.Keys && forall m | m in links :: links'[m].parent == links[m].parent
  }

  lemma SameLinks(links: LinkMap)
    ensures MoreLinks(links, links)
  {
  }

  /** A group may have come, then `c`, then `c` was linked; nobody else has another parent. */
  lemma OwnPlaced(links: LinkMap, links1: LinkMap, links2: LinkMap, links': LinkMap, c: Id)
    requires MoreLinks(links, links1) && links2 == links1[c := FREE] && c !in links1
      && SameParentsBut(links2, links', c)
    ensures MoreLinks(links, links')
  {
    forall m | m in links ensures m in links' && links'[m].parent == links[m].parent {
      assert m in links1.Keys && m in links2.Keys && m in links'.Keys;
    }
  }

  lemma NameStays(groups: Groups, groups': Groups, g: Id)
    requires SameNames(groups, groups') && g in groups
    ensures g in groups' && groups'[g].name == groups[g].name
  {
    assert g in groups'.Keys;
  }

  /** The node, if it is a buddy. */
  function IfBuddy(buddies: Buddies, node: Option<Id>): Option<Id> {
    if node.Some? && node.value in buddies then node else None
  }

  /** The test for moving a buddy on top of itself. */
  predicate AlreadyThere(links: LinkMap, b: Id, contact: Option<Id>, node: Option<Id>) {
    node == Some(b) ||
    (node.None? && b in links && links[b].parent.Some? && contact.Some? && links[b].parent == contact
     && contact.value in links && links[contact.value].child == Some(b))
  }

  /** The list of `c` with `b` in it. */
  ghost predicate JoinedList(kids: Kids, kids': Kids, c: Id, node: Option<Id>, b: Id) {
    c in kids && c in kids' && kids'[c] == With(kids[c], After(kids[c], node), b)
  }

  lemma JoinedListIs(kids: Kids, kids1: Kids, kids': Kids, c: Id, node: Option<Id>, b: Id)
    requires c in kids && c in kids1 && kids1[c] == kids[c] && JoinedKids(kids1, kids', c, node, b)
    ensures JoinedList(kids, kids', c, node, b)
  {
  }

  lemma JoinedAlone(kids: Kids, kids': Kids, c: Id, node: Option<Id>, b: Id)
    requires JoinedList(kids, kids', c, node, b) && kids[c] == []
    ensures c in kids' && kids'[c] == [b]
  {
  }

  lemma MoreIsSame(links: LinkMap, links': LinkMap, b: Id, c: Id)
    requires MoreLinks(links, links') && b in links
    ensures b in links' && links'[b].parent == links[b].parent && (HasParent(links', b, c) <==> HasParent(links, b, c))
  {
    assert b in links'.Keys;
  }

  // ----- merging contacts

  /** The target's list when the first `k` of `s` have come to place `i`. */
  function MergedList(t: seq<Id>, i: nat, s: seq<Id>, k: nat): seq<Id>
    requires i <= |t| && k <= |s|
  {
    t[..i] + s[..k] + t[i..]
  }

  /** The lists then; the source goes with its last buddy. */
  function Merged(kids: Kids, source: Id, target: Id, g0: Id, s: seq<Id>, i: nat, k: nat): Kids
    requires target in kids && i <= |kids[target]| && k <= |s| && g0 in kids
  {
    var l := MergedList(kids[target], i, s, k);
    if k < |s| || s == [] then kids[source := s[k..]][target := l]
    else kids[g0 := Drop(kids[g0], source)][target := l] - {source}
  }

  lemma MergedAt(t: seq<Id>, i: nat, s: seq<Id>, k: nat)
    requires i <= |t| && k < |s|
    ensures With(MergedList(t, i, s, k), i + k, s[k]) == MergedList(t, i, s, k + 1)
  {
    var l := MergedList(t, i, s, k);
    assert l[..i + k] == t[..i] + s[..k] && l[i + k..] == t[i..];
    assert s[..k + 1] == s[..k] + [s[k]];
  }

  /** The place after the buddy that came last. */
  lemma MergedAfter(t: seq<Id>, i: nat, s: seq<Id>, k: nat, prev: Option<Id>)
    requires i <= |t| && k <= |s| && NoDups(MergedList(t, i, s, k))
    requires prev == if k > 0 then Some(s[k - 1]) else Before(t, i)
    ensures After(MergedList(t, i, s, k), prev) == i + k
    ensures prev.Some? ==> prev.value in MergedList(t, i, s, k)
  {
    var l := MergedList(t, i, s, k);
    if i + k > 0 {
      assert l[i + k - 1] == if k > 0 then s[k - 1] else t[i - 1];
      PlaceIs(l, i + k - 1, prev.value);
    }
  }

  lemma UpdatedTwice(kids: Kids, source: Id, target: Id, a: seq<Id>, l: seq<Id>, u: seq<Id>, l': seq<Id>)
    requires source != target
    ensures kids[source := a][target := l][source := u][target := l'] == kids[source := u][target := l']
  {
  }

  lemma UpdatedLast(kids: Kids, source: Id, target: Id, g: Id, a: seq<Id>, l: seq<Id>, x: seq<Id>, l': seq<Id>)
    requires source != target && g != source && g != target
    ensures (kids[source := a][target := l][source := []][g := x] - {source})[target := l'] ==
      kids[g := x][target := l'] - {source}
  {
  }

  lemma MergedNow(kids: Kids, source: Id, target: Id, g0: Id, s: seq<Id>, i: nat, k: nat)
    requires target in kids && g0 in kids && i <= |kids[target]| && k < |s| && source != target && g0 != source
      && g0 != target
    ensures var now := Merged(kids, source, target, g0, s, i, k);
      && now == kids[source := s[k..]][target := MergedList(kids[target], i, s, k)]
      && source in now && now[source] == s[k..] && g0 in now && now[g0] == kids[g0]
      && target in now && now[target] == MergedList(kids[target], i, s, k)
  {
    hide MergedList;
  }

  lemma MergedStep(kids: Kids, source: Id, target: Id, g0: Id, s: seq<Id>, i: nat, k: nat, now: Kids, out: Kids,
                   now': Kids)
    requires target in kids && source in kids && g0 in kids && i <= |kids[target]| && k < |s|
    requires source != target && g0 != source && g0 != target
    requires now == Merged(kids, source, target, g0, s, i, k)
    requires source in now && g0 in now && out == Removed(now, g0, source, s[k])
    requires target in out && target in now && out[target] == now[target]
      && now' == out[target := With(now[target], i + k, s[k])]
    ensures now' == Merged(kids, source, target, g0, s, i, k + 1)
  {
    hide With, MergedList, Drop;
    MergedAt(kids[target], i, s, k);
    MergedNow(kids, source, target, g0, s, i, k);
    assert s[k..][0] == s[k] && s[k..][1..] == s[k + 1..];
    DropFirst(s[k..]);
    var l, l' := MergedList(kids[target], i, s, k), MergedList(kids[target], i, s, k + 1);
    if k + 1 < |s| {
      UpdatedTwice(kids, source, target, s[k..], l, s[k + 1..], l');
    } else {
      UpdatedLast(kids, source, target, g0, s[k..], l, Drop(kids[g0], source), l');
    }
  }

  /** A buddy that moved has not taken the key of one that is still to move. */
  lemma MergeFree(cfg: Config, buddies: Buddies, index: Index, home: HomeMap, index': Index, b: Id, g: Id, d: Id)
    requires IndexAs(cfg, index, buddies, home) && IndexAs(cfg, index', buddies, home[b := g])
    requires b in home && d in home && home[b] == home[d] && b != d && KeyFree(cfg, buddies, index, d, g)
    ensures KeyFree(cfg, buddies, index', d, g)
  {
    var k := KeyOf(cfg, buddies[d], g);
    if k in index' && index'[k] != d {
      var x := index'[k];
      IndexFinds(cfg, index', buddies, home[b := g], k, x);
      var k0 := KeyOf(cfg, buddies[d], home[d]);
      IndexFinds(cfg, index, buddies, home, k0, d);
      IndexFinds(cfg, index, buddies, home, k0, b);
      IndexFinds(cfg, index, buddies, home, k, x);
    }
  }

  lemma GroupsAre(groups0: Groups, groups: Groups, source: Id, target: Id, g0: Id, g: Id)
    requires SameNames(groups0, groups) && source !in groups0 && target !in groups0 && g0 in groups0 && g in groups0
    ensures source !in groups && target !in groups && g0 in groups && g in groups
    ensures g0 != source && g0 != target && g != source && g != target
  {
    assert source !in groups.Keys && target !in groups.Keys && g0 in groups.Keys && g in groups.Keys;
  }

  lemma MergedOther(kids: Kids, source: Id, target: Id, g0: Id, s: seq<Id>, i: nat, k: nat, g: Id)
    requires target in kids && g0 in kids && i <= |kids[target]| && k < |s| && source != target && g in kids
      && g != source && g != target
    ensures g in Merged(kids, source, target, g0, s, i, k) && Merged(kids, source, target, g0, s, i, k)[g] == kids[g]
  {
    hide MergedList;
  }

  lemma NotThere(links: LinkMap, b: Id, target: Id, source: Id, prev: Option<Id>)
    requires HasParent(links, b, source) && source != target && prev != Some(b)
    ensures !AlreadyThere(links, b, Some(target), prev)
  {
  }

  /** The buddies counted as online that came, and the others that came with them. */
  function OnlineOnes(buddies: Buddies, connected: set<Account>): set<Id>
  {
    set b | b in buddies && IsOnline(buddies[b], connected)
  }

  lemma OnesStart(buddies: Buddies, connected: set<Account>, s: seq<Id>)
    ensures Count(s[..0], OnlineOnes(buddies, connected)) == 0
  {
  }

  lemma OnesNext(buddies: Buddies, connected: set<Account>, s: seq<Id>, k: nat)
    requires k < |s|
    ensures Count(s[..k + 1], OnlineOnes(buddies, connected)) ==
      Count(s[..k], OnlineOnes(buddies, connected)) + UpBy(buddies, connected, s[k])
  {
    assert s[..k + 1] == s[..k] + [s[k]];
    CountSplit(s[..k], [s[k]], OnlineOnes(buddies, connected));
    CountSingle(s[k], OnlineOnes(buddies, connected));
  }

  lemma {:induction false} OnesAndLeaving(buddies: Buddies, connected: set<Account>, s: seq<Id>)
    requires UpIsLive(buddies, connected)
    ensures Count(s, Up(buddies)) == Count(s, OnlineOnes(buddies, connected)) + Count(s, Leaving(buddies))
    decreases |s|
  {
    if s != [] {
      OnesAndLeaving(buddies, connected, s[1..]);
    }
  }

  /** A contact that counts only the online ones of those that came is right if and only if none of them was signing
      off. */
  lemma MergedCounts(contacts: Contacts, groups: Groups, kids: Kids, buddies: Buddies, chats: Chats,
                     connected: set<Account>,
                     contacts': Contacts, groups': Groups, kids': Kids, target: Id, s: seq<Id>, i: nat)
    requires OnlineTally(contacts, groups, kids, buddies, chats, connected) && UpIsLive(buddies, connected)
    requires target in contacts && target in contacts' && target in kids && i <= |kids[target]|
    requires target in kids' && kids'[target] == MergedList(kids[target], i, s, |s|)
    requires contacts'[target].online == contacts[target].online + Count(s, OnlineOnes(buddies, connected))
    requires OnlineTally(contacts', groups', kids', buddies, chats, connected)
    ensures NoneLeaving(buddies, s)
  {
    hide Up, OnlineOnes, Leaving, Count;
    var t, m := kids[target], Up(buddies);
    assert t == t[..i] + t[i..] && MergedList(t, i, s, |s|) == t[..i] + (s + t[i..]);
    CountSplit(t[..i], t[i..], m);
    CountSplit(t[..i], s + t[i..], m);
    CountSplit(s, t[i..], m);
    OnesAndLeaving(buddies, connected, s);
    LeavingCount(buddies, s);
    assert OnlineOf(contacts)[target] == Count(t, m) && OnlineOf(contacts')[target] == Count(kids'[target], m);
  }

  /** If a key was taken where the buddies went, two buddies have it there now. */
  lemma MergeClash(cfg: Config, index: Index, buddies: Buddies, home: HomeMap, index': Index, s: seq<Id>, g0: Id, g: Id)
    requires IndexAs(cfg, index, buddies, home) && AllAt(home, s, g0) && (forall b | b in s :: b in buddies)
    requires IndexAs(cfg, index', buddies, Rehomed(home, Members(s), g))
    ensures AllFree(cfg, buddies, index, s, g)
  {
    hide KeyOf;
    forall b | b in s ensures KeyFree(cfg, buddies, index, b, g) {
      var k := KeyOf(cfg, buddies[b], g);
      IndexFinds(cfg, index', buddies, Rehomed(home, Members(s), g), k, b);
      if k in index {
        var d := index[k];
        IndexFinds(cfg, index, buddies, home, k, d);
        IndexFinds(cfg, index', buddies, Rehomed(home, Members(s), g), k, d);
        KeyGroup(cfg, buddies[b], g);
      }
    }
  }

  lemma KeyGroup(cfg: Config, b: Buddy, g: Id)
    ensures KeyOf(cfg, b, g).group == g
  {
  }

  lemma RehomedMore(home: HomeMap, s: seq<Id>, k: nat, g: Id)
    requires k < |s| && s[k] in home
    ensures Rehomed(home, Members(s[..k]), g)[s[k] := g] == Rehomed(home, Members(s[..k + 1]), g)
  {
    assert s[..k + 1] == s[..k] + [s[k]];
  }

  /** The contact that a contact or a buddy stands for. */
  function MergeTarget(links: LinkMap, contacts: Contacts, buddies: Buddies, node: Id): Option<Id> {
    if node in contacts then Some(node)
    else if node in buddies && node in links then links[node].parent
    else None
  }

  lemma LaterDiffers(s: seq<Id>, k: nat, j: nat)
    requires k < j < |s| && NoDups(s[k..])
    ensures s[k] != s[j]
  {
    assert s[k..][0] == s[k] && s[k..][j - k] == s[j];
  }

  lemma MergedNone(kids: Kids, source: Id, target: Id, g0: Id, i: nat)
    requires target in kids && source in kids && g0 in kids && i <= |kids[target]| && source != target
    ensures Merged(kids, source, target, g0, kids[source], i, 0) == kids
  {
    var s, t := kids[source], kids[target];
    assert s[0..] == s && MergedList(t, i, s, 0) == t;
    if s == [] {
      assert s[..0] == [];
    }
  }

  function ParentOr(links: LinkMap, n: Id): Id {
    if n in links && links[n].parent.Some? then links[n].parent.value else n
  }

  ghost predicate AllFree(cfg: Config, buddies: Buddies, index: Index, s: seq<Id>, g: Id) {
    forall b | b in s :: KeyFree(cfg, buddies, index, b, g)
  }

  /** All buddies of `source` are in `target` now, after `node` if that is a buddy, else at the end. */
  ghost predicate MergeDone(kids: Kids, links: LinkMap, source: Id, target: Id, node: Id, kids': Kids) {
    && source in kids && target in kids && source in links && links[source].parent.Some?
    && links[source].parent.value in kids
    && var t, s := kids[target], kids[source];
       var i := if node == target then |t| else After(t, Some(node));
       i <= |t| && kids' == Merged(kids, source, target, links[source].parent.value, s, i, |s|)
  }

  lemma AllFromStart(s: seq<Id>)
    ensures s[0..] == s
  {
  }

  lemma MergeFreeRest(cfg: Config, buddies: Buddies, index: Index, home: HomeMap, index': Index, s: seq<Id>, k: nat,
                      g0: Id, g: Id)
    requires k < |s| && NoDups(s[k..]) && AllFree(cfg, buddies, index, s[k..], g) && IndexAs(cfg, index, buddies, home)
    requires forall j | k <= j < |s| :: s[j] in home && home[s[j]] == g0
    requires s[k] in s[k..] && KeyFree(cfg, buddies, index, s[k], g) ==> IndexAs(cfg, index', buddies, home[s[k] := g])
    ensures KeyFree(cfg, buddies, index, s[k], g) && IndexAs(cfg, index', buddies, home[s[k] := g])
    ensures AllFree(cfg, buddies, index', s[k + 1..], g)
  {
    hide IndexAs, KeyFree, NoDups;
    assert s[k..][0] == s[k];
    forall b | b in s[k + 1..] ensures KeyFree(cfg, buddies, index', b, g) {
      var j :| k + 1 <= j < |s| && s[j] == b;
      assert s[k..][j - k] == b;
      LaterDiffers(s, k, j);
      MergeFree(cfg, buddies, index, home, index', s[k], g, b);
    }
  }

  // ----- a buddy whose record changes

  /** Only the record of `b` changes, and not its account. */
  ghost predicate Rerecorded(buddies: Buddies, b: Id, x: Buddy) { b in buddies && x.account == buddies[b].account }

  lemma RerecordedMarks(buddies: Buddies, connected: set<Account>, b: Id, x: Buddy)
    requires Rerecorded(buddies, b, x)
    ensures Live(buddies[b := x], connected) == Live(buddies, connected)
    ensures Up(buddies[b := x]) == if x.present != Offline then Up(buddies) + {b} else Up(buddies) - {b}
    ensures b in Up(buddies) <==> buddies[b].present != Offline
  {
  }

  lemma RerecordedRecords(kinds: KindMap, groups: Groups, contacts: Contacts, buddies: Buddies, chats: Chats,
                          nextId: Id, b: Id, x: Buddy)
    requires Records(kinds, groups, contacts, buddies, chats, nextId) && b in buddies
    ensures Records(kinds, groups, contacts, buddies[b := x], chats, nextId)
  {
  }

  lemma RerecordedBests(cfg: Config, kinds: KindMap, links: LinkMap, root: Option<Id>, top: seq<Id>, kids: Kids,
                        loose: set<Id>,
                        groups: Groups, contacts: Contacts, buddies: Buddies, chats: Chats, nextId: Id,
                        connected: set<Account>, b: Id, x: Buddy, c: Id)
    requires Tree(kinds, links, root, top, kids, loose) && Records(kinds, groups, contacts, buddies, chats, nextId)
    requires Bests(cfg, buddies, connected, contacts, kids) && b in buddies
    requires c in kids && b in kids[c]
    ensures BestsBut(cfg, buddies[b := x], connected, contacts, kids, c)
    ensures SameRank(cfg, buddies[b], connected, x, connected) ==>
      Bests(cfg, buddies[b := x], connected, contacts, kids)
  {
    hide Tree, IsBest, SameRank, NoDups;
    OneHome(kinds, links, root, top, kids, loose, c, b);
    var buddies' := buddies[b := x];
    forall d | d in contacts && (d != c || SameRank(cfg, buddies[b], connected, x, connected))
      ensures d in kids && IsBest(cfg, buddies', connected, kids[d], contacts[d].priority)
    {
      ContactKids(kinds, links, root, top, kids, loose, d);
      forall n | n in kids[d]
        ensures n in buddies && n in buddies' && SameRank(cfg, buddies[n], connected, buddies'[n], connected)
      {
        SameBuddy(cfg, buddies[n], connected);
      }
      BestSame(cfg, buddies, connected, buddies', connected, kids[d], contacts[d].priority);
    }
  }

  /** The list after a record has changed: only the best buddy of one contact may be another. */
  lemma RerecordedState(cfg: Config, kinds: KindMap, links: LinkMap, root: Option<Id>, top: seq<Id>, kids: Kids,
                        groups: Groups, contacts: Contacts, buddies: Buddies, chats: Chats, nextId: Id,
                        connected: set<Account>, b: Id, x: Buddy, c: Id)
    requires OkState(cfg, kinds, links, root, top, kids, {}, groups, contacts, buddies, chats, nextId, connected)
    requires Rerecorded(buddies, b, x) && c in kids && b in kids[c]
    ensures OkButState(cfg, kinds, links, root, top, kids, {}, groups, contacts, buddies[b := x], chats, nextId,
                       connected, c)
    ensures SameRank(cfg, buddies[b], connected, x, connected) ==>
              OkState(cfg, kinds, links, root, top, kids, {}, groups, contacts, buddies[b := x], chats, nextId,
                      connected)
  {
    hide Tree, Records, Tally, Bests, BestsBut, Live, SameRank, Scores, Totals;
    RerecordedMarks(buddies, connected, b, x);
    RerecordedRecords(kinds, groups, contacts, buddies, chats, nextId, b, x);
    RerecordedBests(cfg, kinds, links, root, top, kids, {}, groups, contacts, buddies, chats, nextId, connected, b, x,
                    c);
  }

  /** Names of homes: the index does not care for the rest of a record. */
  lemma RerecordedIndex(cfg: Config, index: Index, links: LinkMap, buddies: Buddies, b: Id, x: Buddy)
    requires Rerecorded(buddies, b, x)
    ensures HomesOf(links, buddies[b := x]) == HomesOf(links, buddies)
    ensures x.name == buddies[b].name && IndexAs(cfg, index, buddies, HomesOf(links, buddies)) ==>
              IndexAs(cfg, index, buddies[b := x], HomesOf(links, buddies[b := x]))
  {
    hide GroupOf, IndexAs;
    assert HomesOf(links, buddies[b := x]) == HomesOf(links, buddies);
    if x.name == buddies[b].name && IndexAs(cfg, index, buddies, HomesOf(links, buddies)) {
      IndexSame(cfg, index, buddies, buddies[b := x], HomesOf(links, buddies));
    }
  }

  /** One contact and its group count one buddy more, or less, as online. */
  function OnlinePlus(contacts: Contacts, c: Id): Contacts {
    if c in contacts then contacts[c := contacts[c].(online := contacts[c].online + 1)] else contacts
  }
  function OnlineMinus(contacts: Contacts, c: Id): Contacts {
    if c in contacts then contacts[c := contacts[c].(online := contacts[c].online - 1)] else contacts
  }
  function OnlinePlusGroup(groups: Groups, contacts: Contacts, c: Id, g: Id): Groups {
    if g in groups && c in contacts && contacts[c].online == 0 then
      groups[g := groups[g].(online := groups[g].online + 1)] else groups
  }
  function OnlineMinusGroup(groups: Groups, contacts: Contacts, c: Id, g: Id): Groups {
    if g in groups && c in contacts && contacts[c].online == 1 then
      groups[g := groups[g].(online := groups[g].online - 1)] else groups
  }

  lemma OnlineSteps(contacts: Contacts, groups: Groups, c: Id, g: Id)
    requires c in contacts && g in groups
    ensures OnlineOf(OnlinePlus(contacts, c)) == More(OnlineOf(contacts), OnlineOfGroups(groups), c, g, true).0
    ensures OnlineOfGroups(OnlinePlusGroup(groups, contacts, c, g)) ==
      More(OnlineOf(contacts), OnlineOfGroups(groups), c, g, true).1
    ensures OnlineOf(OnlineMinus(contacts, c)) == Fewer(OnlineOf(contacts), OnlineOfGroups(groups), c, g, true).0
    ensures OnlineOfGroups(OnlineMinusGroup(groups, contacts, c, g)) ==
      Fewer(OnlineOf(contacts), OnlineOfGroups(groups), c, g, true).1
    ensures CurOf(OnlinePlus(contacts, c)) == CurOf(OnlineMinus(contacts, c)) == CurOf(contacts)
    ensures CurOfGroups(OnlinePlusGroup(groups, contacts, c, g)) ==
      CurOfGroups(OnlineMinusGroup(groups, contacts, c, g)) == CurOfGroups(groups)
  {
  }

  lemma OnlineRecords(cfg: Config, kinds: KindMap, groups: Groups, contacts: Contacts, buddies: Buddies, chats: Chats,
                      nextId: Id,
                      connected: set<Account>, kids: Kids, contacts': Contacts, groups': Groups)
    requires contacts'.Keys == contacts.Keys && groups'.Keys == groups.Keys
    requires forall c | c in contacts ::
      contacts'[c].priority == contacts[c].priority && contacts'[c].totalsize == contacts[c].totalsize
    ensures Records(kinds, groups, contacts, buddies, chats, nextId) ==>
      Records(kinds, groups', contacts', buddies, chats, nextId)
    ensures Totals(contacts, kids) ==> Totals(contacts', kids)
    ensures Bests(cfg, buddies, connected, contacts, kids) ==> Bests(cfg, buddies, connected, contacts', kids)
  {
    hide IsBest;
    assert forall c :: c in contacts' <==> c in contacts'.Keys;
    assert forall g :: g in groups' <==> g in groups'.Keys;
  }

  lemma OnlineFields(contacts: Contacts, groups: Groups, c: Id, g: Id)
    ensures OnlinePlus(contacts, c).Keys == OnlineMinus(contacts, c).Keys == contacts.Keys
    ensures OnlinePlusGroup(groups, contacts, c, g).Keys == OnlineMinusGroup(groups, contacts, c, g).Keys == groups.Keys
    ensures forall d | d in contacts ::
              && OnlinePlus(contacts, c)[d].priority == OnlineMinus(contacts, c)[d].priority == contacts[d].priority
              && OnlinePlus(contacts, c)[d].totalsize == OnlineMinus(contacts, c)[d].totalsize == contacts[d].totalsize
    ensures SameNames(groups, OnlinePlusGroup(groups, contacts, c, g))
      && SameNames(groups, OnlineMinusGroup(groups, contacts, c, g))
  {
  }

  /** Adjusting online counts leaves the rest of the derived state right. */
  lemma OnlineAdjusted(cfg: Config, kinds: KindMap, links: LinkMap, root: Option<Id>, top: seq<Id>, kids: Kids,
                       groups: Groups, contacts: Contacts, buddies: Buddies, chats: Chats, nextId: Id,
                       connected: set<Account>, c: Id, g: Id)
    requires OkState(cfg, kinds, links, root, top, kids, {}, groups, contacts, buddies, chats, nextId, connected)
      && c in contacts && g in groups
    ensures OkState(cfg, kinds, links, root, top, kids, {}, OnlinePlusGroup(groups, contacts, c, g),
                    OnlinePlus(contacts, c), buddies, chats, nextId, connected)
    ensures OkState(cfg, kinds, links, root, top, kids, {}, OnlineMinusGroup(groups, contacts, c, g),
                    OnlineMinus(contacts, c), buddies, chats, nextId, connected)
  {
    hide Tree, Records, Tally, Bests, Totals, Scores, OnlinePlus, OnlineMinus, OnlinePlusGroup, OnlineMinusGroup, CurOf,
         CurOfGroups, OnlineOf, OnlineOfGroups;
    OnlineSteps(contacts, groups, c, g);
    OnlineFields(contacts, groups, c, g);
    OnlineRecords(cfg, kinds, groups, contacts, buddies, chats, nextId, connected, kids, OnlinePlus(contacts, c),
                  OnlinePlusGroup(groups, contacts, c, g));
    OnlineRecords(cfg, kinds, groups, contacts, buddies, chats, nextId, connected, kids, OnlineMinus(contacts, c),
                  OnlineMinusGroup(groups, contacts, c, g));
  }

  /** A buddy comes online, or goes offline, and is counted so. */
  lemma OnlineFlips(kinds: KindMap, links: LinkMap, root: Option<Id>, top: seq<Id>, kids: Kids,
                    groups: Groups, contacts: Contacts, buddies: Buddies, chats: Chats, nextId: Id,
                    connected: set<Account>, c: Id, g: Id, b: Id, x: Buddy)
    requires Tree(kinds, links, root, top, kids, {}) && Records(kinds, groups, contacts, buddies, chats, nextId)
    requires OnlineTally(contacts, groups, kids, buddies, chats, connected) && Rerecorded(buddies, b, x)
    requires c in contacts && HasParent(links, c, g) && c in kids && b in kids[c] && g in groups
    ensures buddies[b].present == Offline && x.present != Offline ==>
              OnlineTally(OnlinePlus(contacts, c), OnlinePlusGroup(groups, contacts, c, g), kids, buddies[b := x],
                          chats, connected)
    ensures buddies[b].present != Offline && x.present == Offline ==>
              OnlineTally(OnlineMinus(contacts, c), OnlineMinusGroup(groups, contacts, c, g), kids, buddies[b := x],
                          chats, connected)
    ensures (buddies[b].present == Offline) == (x.present == Offline) ==>
      OnlineTally(contacts, groups, kids, buddies[b := x], chats, connected)
  {
    hide Tree, Records, Tally, OnlinePlus, OnlineMinus, OnlinePlusGroup, OnlineMinusGroup, OnlineOf, OnlineOfGroups, Up,
         LiveChats, Nested, OnlyIn, More, Fewer;
    LiveChatsAre(chats, connected);
    NestedInTree(kinds, links, root, top, kids, {}, groups, contacts, buddies, chats, nextId,
                 LiveChats(chats, connected), c, g);
    OnlyHere(kinds, links, root, top, kids, OnlineOf(contacts), b, c);
    RerecordedMarks(buddies, connected, b, x);
    OnlineSteps(contacts, groups, c, g);
    if buddies[b].present == Offline && x.present != Offline {
      TallyMark(OnlineOf(contacts), OnlineOfGroups(groups), kids, Up(buddies), LiveChats(chats, connected), c, g, b);
    } else if buddies[b].present != Offline && x.present == Offline {
      TallyUnmark(OnlineOf(contacts), OnlineOfGroups(groups), kids, Up(buddies), LiveChats(chats, connected), c, g, b);
    } else if x.present != Offline {
      assert Up(buddies) + {b} == Up(buddies);
    } else {
      assert Up(buddies) - {b} == Up(buddies);
    }
  }

  /** A sign-on report for a buddy that is counted already counts it twice. */
  predicate CountedTwice(b: Buddy, connected: set<Account>, online: bool) {
    online && (b.present == Online || b.present == SigningOn) && b.account !in connected
  }

  lemma CountedAgain(groups: Groups, contacts: Contacts, kids: Kids, buddies: Buddies, chats: Chats,
                     connected: set<Account>, c: Id, g: Id, b: Id, x: Buddy)
    requires OnlineTally(contacts, groups, kids, buddies, chats, connected) && Rerecorded(buddies, b, x)
      && c in contacts
    requires buddies[b].present != Offline && x.present != Offline
    ensures !OnlineTally(OnlinePlus(contacts, c), OnlinePlusGroup(groups, contacts, c, g), kids, buddies[b := x], chats,
                         connected)
  {
    hide Up, LiveChats;
    RerecordedMarks(buddies, connected, b, x);
    assert Up(buddies) + {b} == Up(buddies);
    assert OnlineOf(contacts)[c] == contacts[c].online
      && OnlineOf(OnlinePlus(contacts, c))[c] == contacts[c].online + 1;
  }

  lemma OnlyHere(kinds: KindMap, links: LinkMap, root: Option<Id>, top: seq<Id>, kids: Kids, sizes: Tallies, b: Id,
                 c: Id)
    requires Tree(kinds, links, root, top, kids, {}) && c in kids && b in kids[c]
    ensures OnlyIn(sizes, kids, b, c)
  {
    OneHome(kinds, links, root, top, kids, {}, c, b);
  }

  /** Whoever is coming or going has a timer that will settle it. */
  ghost predicate Pending(buddies: Buddies) {
    forall b | b in buddies && (buddies[b].present == SigningOn || buddies[b].present == SigningOff) ::
      buddies[b].timer != 0
  }

  lemma PendingLess(buddies: Buddies, gone: set<Id>)
    ensures Pending(buddies) ==> Pending(buddies - gone)
  {
  }

  lemma PendingNew(buddies: Buddies, n: Id, x: Fresh)
    requires x.FreshBuddy? ==> x.buddy.present == Offline
    ensures Pending(buddies) ==> Pending(WithBuddy(buddies, n, x))
  {
  }

  lemma RerecordedPending(buddies: Buddies, b: Id, x: Buddy)
    requires Pending(buddies) && (x.present == SigningOn || x.present == SigningOff ==> x.timer != 0)
    ensures Pending(buddies[b := x])
  {
  }

  lemma RerecordedUp(buddies: Buddies, connected: set<Account>, b: Id, x: Buddy)
    requires UpIsLive(buddies, connected)
    ensures UpIsLive(buddies[b := x], connected) <==> (x.present != Offline ==> x.account in connected)
  {
    assert b in buddies[b := x];
    forall d | d in buddies[b := x] && d != b ensures d in buddies && buddies[b := x][d] == buddies[d] {
    }
  }

  /** Where presence settles. */
  function Settled(p: Presence): Presence {
    if p == SigningOn then Online else if p == SigningOff then Offline else p
  }

  lemma SettledRank(cfg: Config, b: Buddy, connected: set<Account>)
    ensures SameRank(cfg, b, connected, b.(present := Settled(b.present), timer := 0), connected)
  {
  }

  /** The buddies when the presence of `b` is reported. */
  function Signed(buddies: Buddies, connected: set<Account>, b: Id, online: bool, handle: nat): Buddies {
    if b !in buddies || IsOnline(buddies[b], connected) == online then buddies
    else buddies[b := buddies[b].(present := if online then SigningOn else SigningOff, timer := handle)]
  }

  lemma PendingSame(buddies: Buddies, b: Id, x: Buddy)
    requires Pending(buddies) && b in buddies && x.present == buddies[b].present && x.timer == buddies[b].timer
    ensures Pending(buddies[b := x])
  {
  }

  function Fired(b: Buddy): Buddy { b.(present := Settled(b.present), timer := 0) }

  /** Some timers have fired; those that have not are in `rest`. */
  ghost predicate SettlingFrom(buddies: Buddies, buddies': Buddies, rest: seq<Id>) {
    && buddies'.Keys == buddies.Keys
    && (forall b | b in buddies ::
        buddies'[b] == buddies[b] || (buddies[b].timer != 0 && buddies'[b] == Fired(buddies[b])))
    && (forall b | b in buddies && buddies'[b].timer != 0 :: b in rest)
  }

  lemma SettlingNext(buddies: Buddies, buddies': Buddies, rest: seq<Id>)
    requires rest != [] && rest[0] in buddies' && SettlingFrom(buddies, buddies', rest)
    ensures buddies'[rest[0]].timer == 0 ==> SettlingFrom(buddies, buddies', rest[1..])
    ensures buddies'[rest[0]].timer != 0 ==>
      SettlingFrom(buddies, buddies'[rest[0] := Fired(buddies'[rest[0]])], rest[1..])
  {
    var b := rest[0];
    assert rest == [b] + rest[1..];
    assert b in buddies.Keys;
  }

  lemma AllSettled(buddies: Buddies, buddies': Buddies)
    requires SettlingFrom(buddies, buddies', []) && Pending(buddies)
    ensures buddies'.Keys == buddies.Keys
    ensures forall b | b in buddies ::
      buddies'[b] == Fired(buddies[b]) && (buddies'[b].present == Online || buddies'[b].present == Offline)
  {
  }

  lemma NameRank(cfg: Config, b: Buddy, connected: set<Account>, name: string)
    ensures SameRank(cfg, b, connected, b.(name := name), connected)
  {
  }
}
