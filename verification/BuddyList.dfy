/** The buddy list: groups of contacts and chats, contacts of buddies. */
module BuddyList {
  import opened BlistTree
  import opened BlistState
  import opened BlistDerived
  import opened BlistAccounts
  import opened Wrappers

  class BuddyList {
    const cfg: Config
    var root: Option<Id>
    var links: LinkMap
    var kinds: KindMap
    var groups: Groups
    var contacts: Contacts
    var buddies: Buddies
    var chats: Chats
    /** The hash table of all buddies. */
    var index: Index
    /** The accounts that have a connection. */
    var connected: set<Account>
    var nextId: Id
    /** The groups in the list and the children of every node, as the links tell them. */
    ghost var top: seq<Id>
    ghost var kids: Kids

    ghost predicate IsTree(loose: set<Id>)
      reads this
    {
      Tree(kinds, links, root, top, kids, loose) && Records(kinds, groups, contacts, buddies, chats, nextId)
    }

    /** All of the derived state but the online counts and the index is right; the loose nodes are between places. */
    ghost predicate Ok(loose: set<Id>)
      reads this
    {
      OkState(cfg, kinds, links, root, top, kids, loose, groups, contacts, buddies, chats, nextId, connected)
    }

    ghost predicate Valid() reads this { Ok({}) }

    /** The online counts are right. */
    ghost predicate OnlineOk()
      reads this
    {
      OnlineState(groups, contacts, kids, buddies, chats, connected)
    }

    /** So they are, whoever may be on a connected account. */
    ghost predicate Counted() reads this { OnlineTally(contacts, groups, kids, buddies, chats, connected) }

    /** The index is the one the tree calls for. */
    ghost predicate Indexed() reads this { IndexAs(cfg, index, buddies, HomesOf(links, buddies)) }

    constructor (cfg: Config)
      requires Scores(cfg)
      ensures Valid() && OnlineOk() && Indexed()
      ensures this.cfg == cfg && top == [] && connected == {}
    {
      this.cfg := cfg;
      root, links, kinds, groups, contacts, buddies, chats := None, map[], map[], map[], map[], map[], map[];
      index, connected, nextId, top, kids := map[], {}, 0, [], map[];
    }

    // ----- links

    /** The statements that take a node out of its list. */
    method Unlink(n: Id, ghost loose: set<Id>)
      requires Tree(kinds, links, root, top, kids, loose) && n in kinds && n !in loose && n in links
        && links[n].parent.Some?
      modifies `links, `kids
      ensures Tree(kinds, links, root, top, kids, loose + {n})
      ensures var p := old(links[n].parent.value);
        p in old(kids) && n in old(kids[p]) && kids == old(kids)[p := Drop(old(kids[p]), n)]
      ensures links.Keys == old(links).Keys && forall m | m in links :: links[m].parent == old(links)[m].parent
    {
      hide Shape, Kinds, UnlinkedAs, Drop, Loose;
      var l := links[n];
      assert Home(kinds[n], l.parent, kids, n);
      ghost var p := l.parent.value;
      OneHome(kinds, links, root, top, kids, loose, p, n);
      ghost var before := links;
      NeighboursOf(links, root, top, kids, p, n);
      if l.prev.Some? {
        links := links[l.prev.value := links[l.prev.value].(next := l.next)];
      }
      if l.next.Some? {
        links := links[l.next.value := links[l.next.value].(prev := l.prev)];
      }
      if links[l.parent.value].child == Some(n) {
        links := links[l.parent.value := links[l.parent.value].(child := l.next)];
      }
      UnlinkedBy(before, links, n);
      UnlinkedTree(kinds, before, links, root, top, kids, loose, p, n);
      SameParents(before, links, n);
      kids := kids[p := Drop(kids[p], n)];
    }

    /** The statements that put a loose node after a sibling. */
    method LinkAfter(n: Id, sib: Id, ghost p: Id, ghost loose: set<Id>)
      requires Tree(kinds, links, root, top, kids, loose) && n in loose && sib in kinds && sib in links
      requires links[sib].parent == Some(p) && p in kids && sib in kids[p]
      requires n in kinds && p in kinds && Holds(kinds[p], kinds[n])
      requires kinds[p] == ContactNode ==> p !in loose && p in links && links[p].parent.Some?
      modifies `links, `kids
      ensures Tree(kinds, links, root, top, kids, loose - {n})
      ensures kids == old(kids)[p := With(old(kids[p]), Place(old(kids[p]), sib) + 1, n)]
      ensures links.Keys == old(links).Keys && n in links && links[n].parent == Some(p)
      ensures forall m | m in links && m != n :: links[m].parent == old(links)[m].parent
    {
      hide Tree, LinkedAs, With, Loose, Place, Before, Here;
      OneHome(kinds, links, root, top, kids, loose, p, sib);
      ghost var i := Place(kids[p], sib) + 1;
      SiblingsAt(kinds, links, root, top, kids, loose, p, sib);
      LooseIsLoose(kinds, links, root, top, kids, loose, p, n);
      ghost var before := links;
      if links[sib].next.Some? {
        links := links[links[sib].next.value := links[links[sib].next.value].(prev := Some(n))];
      }
      links := links[n := links[n].(next := links[sib].next, prev := Some(sib), parent := links[sib].parent)];
      links := links[sib := links[sib].(next := Some(n))];
      LinkedByAfter(before, links, n, sib);
      LinkedTree(kinds, before, links, root, top, kids, loose, p, i, n);
      LinkedParents(before, links, n, Some(p), Before(kids[p], i), Here(kids[p], i));
      kids := kids[p := With(kids[p], i, n)];
    }

    /** The statements that make a loose node the first child of a parent. */
    method LinkFirst(n: Id, p: Id, ghost loose: set<Id>)
      requires Tree(kinds, links, root, top, kids, loose) && n in loose && p in kids
      requires n in kinds && p in kinds && Holds(kinds[p], kinds[n]) && (kinds[p] == GroupNode ==> p in top)
      requires kinds[p] == ContactNode ==> p !in loose && p in links && links[p].parent.Some?
      modifies `links, `kids
      ensures Tree(kinds, links, root, top, kids, loose - {n})
      ensures kids == old(kids)[p := With(old(kids[p]), 0, n)]
      ensures links.Keys == old(links).Keys && n in links && links[n].parent == Some(p)
      ensures forall m | m in links && m != n :: links[m].parent == old(links)[m].parent
    {
      hide Tree, LinkedAs, With, Loose, Before, Here;
      FirstChild(kinds, links, root, top, kids, loose, p);
      LooseIsLoose(kinds, links, root, top, kids, loose, p, n);
      ghost var before := links;
      if links[p].child.Some? {
        links := links[links[p].child.value := links[links[p].child.value].(prev := Some(n))];
      }
      links := links[n := links[n].(prev := None, next := links[p].child)];
      links := links[p := links[p].(child := Some(n))];
      links := links[n := links[n].(parent := Some(p))];
      LinkedByFirst(before, links, n, p);
      LinkedTree(kinds, before, links, root, top, kids, loose, p, 0, n);
      LinkedParents(before, links, n, Some(p), Before(kids[p], 0), Here(kids[p], 0));
      kids := kids[p := With(kids[p], 0, n)];
    }

    /** `gaim_contact_compute_priority_buddy`: the buddy with the least score among those on connected
        accounts, the first or the last of them. */
    method ComputePriority(c: Id, ghost loose: set<Id>)
      requires IsTree(loose) && c in contacts && Scores(cfg)
      modifies `contacts
      ensures c in contacts && contacts == old(contacts)[c := old(contacts[c]).(priority := contacts[c].priority)]
      ensures c in kids && IsBest(cfg, buddies, connected, kids[c], contacts[c].priority)
    {
      hide Score, Candidate, IsBest, Tree, Records, Scores;
      ContactList(kinds, links, root, top, kids, loose, groups, contacts, buddies, chats, nextId, c);
      var priority: Option<Id>, contact_score := None, INT_MAX;
      var bnode := links[c].child;
      ghost var s, i := kids[c], 0;
      NoBest(cfg, buddies, connected, s);
      while bnode.Some?
        invariant contacts == old(contacts) && i <= |s| && bnode == Here(s, i)
        invariant IsBest(cfg, buddies, connected, s[..i], priority)
        invariant priority.None? ==> contact_score == INT_MAX
        invariant priority.Some? ==>
          priority.value in buddies && contact_score == Score(cfg, buddies[priority.value], connected)
        decreases |s| - i
      {
        var b := bnode.value;
        assert b == s[i];
        ScoreBound(cfg, buddies[b], connected);
        BestNext(cfg, buddies, connected, s, i, priority);
        CandidateIs(buddies, connected, b);
        if buddies[b].account in connected {
          ScoreParts(cfg, buddies[b], connected);
          var score := 0;
          if !IsOnline(buddies[b], connected) {
            score := score + cfg.offlineScore;
          }
          if buddies[b].unavailable {
            score := score + cfg.awayScore;
          }
          if buddies[b].idle != 0 {
            score := score + cfg.idleScore;
          }
          score := score + cfg.accountScore(buddies[b].account);
          if score < contact_score {
            priority, contact_score := bnode, score;
          }
          if cfg.lastMatch && score == contact_score {
            priority := bnode;
          }
        }
        bnode := links[b].next;
        i := i + 1;
      }
      assert s[..i] == s;
      contacts := contacts[c := contacts[c].(priority := priority)];
    }

    // ----- counters

    /** The counters when a buddy leaves its contact. */
    method LeaveCounts(b: Id, c: Id, g: Id)
      requires b in buddies && c in contacts && g in groups
      modifies `contacts, `groups
      ensures contacts == old(contacts)[c := ContactLess(old(contacts[c]), buddies[b].account in connected,
                                                         IsOnline(buddies[b], connected))]
      ensures groups == old(groups)[g := GroupLess(old(groups[g]), old(contacts[c]), buddies[b].account in connected,
                                                   IsOnline(buddies[b], connected))]
    {
      if IsOnline(buddies[b], connected) {
        contacts := contacts[c := contacts[c].(online := contacts[c].online - 1)];
        if contacts[c].online == 0 {
          groups := groups[g := groups[g].(online := groups[g].online - 1)];
        }
      }
      if buddies[b].account in connected {
        contacts := contacts[c := contacts[c].(currentsize := contacts[c].currentsize - 1)];
        if contacts[c].currentsize == 0 {
          groups := groups[g := groups[g].(currentsize := groups[g].currentsize - 1)];
        }
      }
      contacts := contacts[c := contacts[c].(totalsize := contacts[c].totalsize - 1)];
    }

    /** The counters when a buddy joins a contact. */
    method JoinCounts(b: Id, c: Id, g: Id)
      requires b in buddies && c in contacts && g in groups
      modifies `contacts, `groups
      ensures contacts == old(contacts)[c := ContactPlus(old(contacts[c]), buddies[b].account in connected,
                                                         IsOnline(buddies[b], connected))]
      ensures groups == old(groups)[g := GroupPlus(old(groups[g]), old(contacts[c]), buddies[b].account in connected,
                                                   IsOnline(buddies[b], connected))]
    {
      if IsOnline(buddies[b], connected) {
        contacts := contacts[c := contacts[c].(online := contacts[c].online + 1)];
        if contacts[c].online == 1 {
          groups := groups[g := groups[g].(online := groups[g].online + 1)];
        }
      }
      if buddies[b].account in connected {
        contacts := contacts[c := contacts[c].(currentsize := contacts[c].currentsize + 1)];
        if contacts[c].currentsize == 1 {
          groups := groups[g := groups[g].(currentsize := groups[g].currentsize + 1)];
        }
      }
      contacts := contacts[c := contacts[c].(totalsize := contacts[c].totalsize + 1)];
    }

    /** `Ok` but for the priority of one contact. */
    ghost predicate OkBut(loose: set<Id>, c: Id)
      reads this
    {
      OkButState(cfg, kinds, links, root, top, kids, loose, groups, contacts, buddies, chats, nextId, connected, c)
    }

    /** The online counts are right, but that of the contact may be too high, by `Over`. */
    ghost predicate Beside(c: Id)
      reads this
    {
      OnlineBeside(contacts, groups, kids, buddies, chats, connected, c) && UpIsLive(buddies, connected)
    }

    ghost function Over(c: Id): int reads this { OnlineExcess(contacts, kids, buddies, c) }

    lemma OverIs(c: Id)
      ensures OnlineOk() <==> Beside(c) && Over(c) == 0
    {
      OnlineBesideIs(contacts, groups, kids, buddies, chats, connected, c);
    }

    /** A buddy leaves its contact: unlinked first, as when it is removed, or counted out first, as when it moves. */
    method TakeOut(b: Id, c: Id, g: Id, unlinkFirst: bool, ghost loose: set<Id>)
      requires Ok(loose) && b in buddies && b !in loose && c in contacts && c !in loose
      requires b in links && links[b].parent == Some(c) && c in links && links[c].parent == Some(g)
      modifies `links, `kids, `contacts, `groups
      ensures OkBut(loose + {b}, c)
      ensures c in old(kids) && b in old(kids[c]) && kids == old(kids)[c := Drop(old(kids[c]), b)]
      ensures contacts == old(contacts)[c := ContactLess(old(contacts[c]), buddies[b].account in connected,
                                                         IsOnline(buddies[b], connected))]
      ensures g in old(groups) && groups ==
        old(groups)[g := GroupLess(old(groups[g]), old(contacts[c]), buddies[b].account in connected,
                                   IsOnline(buddies[b], connected))]
      ensures links.Keys == old(links).Keys && forall m | m in links :: links[m].parent == old(links)[m].parent
      ensures old(OnlineOk()) && buddies[b].present != SigningOff ==> OnlineOk()
      ensures old(Beside(c)) ==> Beside(c) && Over(c) == old(Over(c)) + One(buddies[b].present == SigningOff)
      ensures c in kids && (old(contacts[c].priority) != Some(b) ==>
                            IsBest(cfg, buddies, connected, kids[c], old(contacts[c].priority)))
    {
      hide Tree, Records, CurTally, OnlineTally, OnlineBeside, OnlineExcess, Totals, Bests, BestsBut, UpIsLive, IsBest,
           Drop, Scores, IsOnline, ContactLess, GroupLess;
      OverIs(c);
      Departs(cfg, kinds, links, root, top, kids, loose, groups, contacts, buddies, chats, nextId, connected, c, g, b);
      BuddyKind(kinds, groups, contacts, buddies, chats, nextId, b);
      if unlinkFirst {
        Unlink(b, loose);
        LeaveCounts(b, c, g);
      } else {
        LeaveCounts(b, c, g);
        Unlink(b, loose);
      }
      OverIs(c);
    }

    // ----- removing

    /** The buddy is freed. */
    method FreeBuddy(b: Id, ghost loose: set<Id>)
      requires Ok(loose) && b in loose && b in buddies
      modifies `links, `kinds, `buddies
      ensures Ok(loose - {b}) && (old(OnlineOk()) ==> OnlineOk())
      ensures forall c | old(Beside(c)) :: Beside(c) && Over(c) == old(Over(c))
      ensures buddies == old(buddies) - {b} && kinds == old(kinds) - {b} && links == old(links) - {b}
    {
      hide Tree, Records, CurTally, OnlineTally, OnlineBeside, OnlineExcess, Totals, Bests, UpIsLive, Scores;
      BuddyGone(cfg, kinds, links, root, top, kids, loose, groups, contacts, buddies, chats, nextId, connected, b);
      links := links - {b};
      kinds := kinds - {b};
      buddies := buddies - {b};
    }

    /** `gaim_blist_remove_contact` for a contact without buddies. */
    method RemoveEmptyContact(c: Id, ghost loose: set<Id>)
      requires OkBut(loose, c) && c in contacts && c !in loose && c in links && links[c].parent.Some? && c in kids
        && kids[c] == []
      modifies `links, `kids, `kinds, `contacts
      ensures Ok(loose) && (old(Beside(c)) ==> (OnlineOk() <==> old(Over(c)) == 0))
      ensures contacts == old(contacts) - {c} && kinds == old(kinds) - {c} && links.Keys == old(links).Keys - {c}
      ensures forall m | m in links :: links[m].parent == old(links)[m].parent
      ensures var g := old(links[c].parent.value); g in old(kids) && kids == old(kids)[g := Drop(old(kids[g]), c)] - {c}
    {
      hide Tree, Records, CurTally, OnlineTally, OnlineBeside, OnlineExcess, Totals, Bests, BestsBut, UpIsLive, Scores,
           Drop;
      ghost var links0, kids0 := links, kids;
      ghost var g := links[c].parent.value;
      BuddyKind(kinds, groups, contacts, buddies, chats, nextId, c);
      Unlink(c, loose);
      ContactGone(cfg, kinds, links0, links, root, top, kids0, loose, groups, contacts, buddies, chats, nextId,
                  connected, c, g);
      kids := kids - {c};
      links := links - {c};
      kinds := kinds - {c};
      contacts := contacts - {c};
    }

    /** The contact finds its best buddy again if the one that left was it. */
    method FixPriority(b: Id, c: Id, ghost loose: set<Id>)
      requires OkBut(loose, c) && c in contacts
      requires c in kids && (contacts[c].priority != Some(b) ==>
                             IsBest(cfg, buddies, connected, kids[c], contacts[c].priority))
      modifies `contacts
      ensures Ok(loose) && (old(Beside(c)) ==> Beside(c) && Over(c) == old(Over(c)))
      ensures contacts.Keys == old(contacts).Keys
    {
      hide Tree, Records, CurTally, OnlineTally, OnlineBeside, OnlineExcess, Bests, BestsBut, UpIsLive, Scores, IsBest;
      if contacts[c].priority == Some(b) {
        Recompute(c, loose);
      } else {
        BestsAgain(cfg, buddies, connected, contacts, kids, c);
      }
    }

    /** The best buddy of a contact is chosen anew. */
    method Recompute(c: Id, ghost loose: set<Id>)
      requires OkBut(loose, c) && c in contacts
      modifies `contacts
      ensures Ok(loose) && (Counted() <==> old(Counted())) && (OnlineOk() <==> old(OnlineOk()))
      ensures old(Beside(c)) ==> Beside(c) && Over(c) == old(Over(c))
      ensures contacts.Keys == old(contacts).Keys
      ensures forall d | d in contacts && d != c :: contacts[d] == old(contacts)[d]
      ensures contacts == old(contacts)[c := old(contacts[c]).(priority := contacts[c].priority)]
    {
      hide Tree, Records, Tally, TallyBeside, Excess, Bests, BestsBut, UpIsLive, Scores, IsBest, CurOf, OnlineOf;
      ghost var contacts0 := contacts;
      ComputePriority(c, loose);
      PrioritySizes(contacts0, c, contacts[c].priority);
      Reprioritised(cfg, kinds, groups, contacts0, buddies, chats, nextId, connected, kids, c, contacts[c].priority);
    }

    /** All of `gaim_blist_remove_buddy` but the removal of a contact it leaves empty. */
    method TakeAway(b: Id, c: Id, g: Id)
      requires Valid() && b in buddies && c in contacts
      requires b in links && links[b].parent == Some(c) && c in links && links[c].parent == Some(g)
      modifies `links, `kids, `kinds, `contacts, `groups, `buddies, `index
      ensures Valid() && (old(Indexed()) ==> Indexed()) && (old(TimersOk()) ==> TimersOk())
      ensures old(Beside(c)) ==> Beside(c) && Over(c) == old(Over(c)) + One(old(buddies[b]).present == SigningOff)
      ensures buddies == Less(old(buddies), {b}) && index == Less(old(index), {KeyOf(cfg, old(buddies[b]), g)})
      ensures c in old(kids) && b in old(kids[c]) && kids == old(kids)[c := Drop(old(kids[c]), b)]
      ensures contacts.Keys == old(contacts).Keys && links.Keys == old(links).Keys - {b}
        && SameNames(old(groups), groups)
      ensures forall m | m in links :: links[m].parent == old(links)[m].parent
    {
      hide Tree, Records, CurTally, OnlineTally, OnlineBeside, OnlineExcess, Totals, Bests, BestsBut, UpIsLive, Scores,
           IsBest, Drop, IsOnline, KeyOf, SameNames, IndexAs, HomesOf, Pending, Less;
      assert {} + {b} == {b} && {b} - {b} == {};
      TakeOut(b, c, g, true, {});
      OneRenamed(old(groups), g,
                 GroupLess(old(groups[g]), old(contacts[c]), buddies[b].account in connected,
                           IsOnline(buddies[b], connected)));
      FixPriority(b, c, {b});
      index := index - {KeyOf(cfg, buddies[b], g)};
      FreeBuddy(b, {b});
      LessIs(old(buddies), {b});
      LessIs(old(index), {KeyOf(cfg, old(buddies)[b], g)});
      GoneIndex(b, c, g, old(links), old(buddies), old(index));
      PendingLess(old(buddies), {b});
    }

    /** The index without the key of a buddy that is gone. */
    lemma GoneIndex(b: Id, c: Id, g: Id, links0: LinkMap, buddies0: Buddies, index0: Index)
      requires Valid() && buddies == Less(buddies0, {b}) && b in buddies0
        && index == Less(index0, {KeyOf(cfg, buddies0[b], g)})
      requires links.Keys <= links0.Keys && forall m | m in links :: links[m].parent == links0[m].parent
      requires HasParent(links0, b, c) && HasParent(links0, c, g)
      ensures IndexAs(cfg, index0, buddies0, HomesOf(links0, buddies0)) ==> Indexed()
    {
      hide OkState, IndexAs, HomesOf, KeyOf, Less;
      HomesGone(links0, buddies0, b);
      LessIs(buddies0, {b});
      LessIs(index0, {KeyOf(cfg, buddies0[b], g)});
      HomeIn(links0, buddies0, b, c, g);
      if IndexAs(cfg, index0, buddies0, HomesOf(links0, buddies0)) {
        IndexDrop(cfg, index0, buddies0, HomesOf(links0, buddies0), b);
        HomelessGone(cfg, index, buddies0, HomesOf(links, buddies), b);
      }
    }

    lemma EmptyHomes(c: Id, links0: LinkMap)
      requires Valid() && c !in kinds
      requires links.Keys == links0.Keys - {c} && forall m | m in links :: links[m].parent == links0[m].parent
      ensures HomesOf(links, buddies) == HomesOf(links0, buddies)
    {
      hide Tree, Records, HomesOf;
      BuddiesKnown(kinds, groups, contacts, buddies, chats, nextId);
      Unknown(kinds, links, root, top, kids, groups, contacts, buddies, chats, nextId, c);
      GoneHomes(kinds, links0, links, root, top, kids, buddies, c);
    }

    /** `gaim_blist_remove_buddy` */
    method RemoveBuddy(b: Id)
      requires Valid() && b in buddies && b in links && links[b].parent.Some?
      modifies `links, `kids, `kinds, `contacts, `groups, `buddies, `index
      ensures Valid() && (old(Indexed()) ==> Indexed()) && (old(TimersOk()) ==> TimersOk())
      ensures old(OnlineOk()) ==> (OnlineOk() <==> old(buddies[b]).present != SigningOff)
      ensures var c := old(links[b].parent.value);
        var over := old(Over(c)) + One(old(buddies[b]).present == SigningOff);
        old(Beside(c)) ==> if c in contacts then Beside(c) && Over(c) == over else OnlineOk() <==> over == 0
      ensures buddies == Less(old(buddies), {b})
      ensures old(GroupOf(links, b)).Some?
        && index == Less(old(index), {KeyOf(cfg, old(buddies[b]), old(GroupOf(links, b)).value)})
      ensures var c := old(links[b].parent.value); var g := old(GroupOf(links, b)).value;
        && c in old(kids) && g in old(kids) && b in old(kids[c]) && kids == Removed(old(kids), g, c, b)
        && contacts.Keys == (if old(kids[c]) == [b] then old(contacts).Keys - {c} else old(contacts).Keys)
      ensures links.Keys <= old(links).Keys && forall m | m in links :: links[m].parent == old(links)[m].parent
      ensures SameNames(old(groups), groups)
      decreases if links[b].parent.value in kids then |kids[links[b].parent.value]| else 0, 0
    {
      hide Tree, Records, CurTally, OnlineTally, OnlineBeside, OnlineExcess, IndexAs, HomesOf, Pending, Totals, Bests,
           BestsBut, UpIsLive, Scores, IsBest, Drop, IsOnline, KeyOf, Keys, Members, Less, SameNames;
      var c := links[b].parent.value;
      OverIs(c);
      BuddyPlace(kinds, links, root, top, kids, {}, groups, contacts, buddies, chats, nextId, b, c);
      var g := links[c].parent.value;
      DropOne(kids[c], b, kinds, links, root, top, kids, {}, c);
      TakeAway(b, c, g);
      ChildOf(kinds, links, root, top, kids, {}, c);
      if links[c].child.None? {
        NoKeys(cfg, buddies, index);
        ghost var groups1 := groups;
        RemoveContact(c);
        SameNamesChain(old(groups), groups1, groups);
      } else {
        OverIs(c);
      }
    }

    /** `gaim_blist_remove_contact`: removes the buddies one by one, the last of which takes the contact with it. */
    method RemoveContact(c: Id)
      requires Valid() && c in contacts && c in links && links[c].parent.Some? && c in kids
      modifies `links, `kids, `kinds, `contacts, `groups, `buddies, `index
      ensures Valid() && (old(Indexed()) ==> Indexed()) && (old(TimersOk()) ==> TimersOk())
      ensures old(Beside(c)) ==> (OnlineOk() <==> old(Over(c)) + Count(old(kids[c]), Leaving(old(buddies))) == 0)
      ensures contacts.Keys == old(contacts).Keys - {c}
      ensures buddies == Less(old(buddies), Members(old(kids[c])))
      ensures var g := old(links[c].parent.value);
        && g in old(kids) && kids == old(kids)[g := Drop(old(kids[g]), c)] - {c}
        && index == Less(old(index), Keys(cfg, old(buddies), old(kids[c]), g))
      ensures links.Keys <= old(links).Keys && forall m | m in links :: links[m].parent == old(links)[m].parent
      ensures SameNames(old(groups), groups)
        && (old(kids[c]) == [] ==> contacts == old(contacts) - {c} && groups == old(groups))
      ensures old(OnlineOk()) ==> (OnlineOk() <==> NoneLeaving(old(buddies), old(kids[c])))
      decreases |kids[c]|, 4
    {
      hide Tree, Records, CurTally, OnlineTally, OnlineBeside, OnlineExcess, IndexAs, HomesOf, Pending, Totals, Bests,
           BestsBut, UpIsLive, Scores, IsBest, Drop, IsOnline, NoneLeaving, Leaving;
      ChildOf(kinds, links, root, top, kids, {}, c);
      OverIs(c);
      LeavingCount(buddies, kids[c]);
      if links[c].child.Some? {
        RemoveAll(c);
      } else {
        BestsAreBut(cfg, buddies, connected, contacts, kids, c);
        ghost var links0 := links;
        RemoveEmptyContact(c, {});
        EmptyHomes(c, links0);
        SameGroupNames(groups);
      }
    }

    /** Removes the first buddy of a contact. */
    method RemoveHead(c: Id, ghost g: Id, ghost kids0: Kids, ghost t: seq<Id>, ghost x: Id, ghost r: Buddy)
      requires Valid() && c in contacts && c in links && links[c].parent == Some(g)
      requires kids == kids0[c := t] && c in kids && c in kids0 && kids[c] == t && |t| > 0 && g != c
      requires x == t[0] && x in buddies && buddies[x] == r
      modifies `links, `kids, `kinds, `contacts, `groups, `buddies, `index
      ensures Valid() && g in kids0 && (old(Indexed()) ==> Indexed()) && (old(TimersOk()) ==> TimersOk())
      ensures var over := old(Over(c)) + One(r.present == SigningOff);
        old(Beside(c)) ==> if |t| > 1 then Beside(c) && Over(c) == over else OnlineOk() <==> over == 0
      ensures buddies == Less(old(buddies), {x}) && index == Less(old(index), {KeyOf(cfg, r, g)})
      ensures |t| > 1 ==> kids == kids0[c := t[1..]] && contacts.Keys == old(contacts).Keys && c in links
      ensures |t| == 1 ==> kids == kids0[g := Drop(kids0[g], c)] - {c} && contacts.Keys == old(contacts).Keys - {c}
      ensures links.Keys <= old(links).Keys && forall m | m in links :: links[m].parent == old(links)[m].parent
      ensures SameNames(old(groups), groups)
      decreases |t|, 1
    {
      hide Tree, Records, CurTally, OnlineTally, OnlineBeside, OnlineExcess, IndexAs, HomesOf, Pending, Totals, Bests,
           UpIsLive, Scores, IsBest, Drop, IsOnline, Removed, Less, SameNames;
      ContactList(kinds, links, root, top, kids, {}, groups, contacts, buddies, chats, nextId, c);
      ChildOf(kinds, links, root, top, kids, {}, c);
      var b := links[c].child.value;
      BuddyPlace(kinds, links, root, top, kids, {}, groups, contacts, buddies, chats, nextId, b, c);
      RemovedFirst(kids0, g, c, t);
      RemoveBuddy(b);
      if |t| > 1 {
        assert t != [b];
        ContactHere(kinds, links, root, top, kids, {}, groups, contacts, buddies, chats, nextId, c);
      } else {
        assert t == [b];
      }
    }

    /** The first `k` of the buddies `s` of a contact have been removed, and nothing else has changed. */
    ghost predicate Emptying(c: Id, g: Id, s: seq<Id>, k: nat, kids0: Kids, buddies0: Buddies, index0: Index,
                             links0: LinkMap, contactIds: set<Id>, groups0: Groups)
      reads this
    {
      && k < |s| && Valid() && SameNames(groups0, groups) && c in contacts && contacts.Keys == contactIds && c != g
      && c in kids0
      && kids == KidsFrom(kids0, c, s, k) && buddies == BuddiesFrom(buddies0, s, k)
      && index == IndexFrom(cfg, buddies0, index0, s, k, g)
      && c in links && links[c].parent == Some(g)
      && links.Keys <= links0.Keys && forall m | m in links :: links[m].parent == links0[m].parent
    }

    /** A turn of the loop. */
    method RemoveNext(c: Id, ghost g: Id, ghost s: seq<Id>, ghost k: nat, ghost kids0: Kids,
                      ghost buddies0: Buddies, ghost index0: Index, ghost links0: LinkMap, ghost contactIds: set<Id>,
                      ghost groups0: Groups)
      requires Emptying(c, g, s, k, kids0, buddies0, index0, links0, contactIds, groups0)
      modifies `links, `kids, `kinds, `contacts, `groups, `buddies, `index
      ensures s[k] in buddies0 && (old(Indexed()) ==> Indexed()) && (old(TimersOk()) ==> TimersOk())
      ensures var over := old(Over(c)) + One(buddies0[s[k]].present == SigningOff);
        old(Beside(c)) ==> if k + 1 < |s| then Beside(c) && Over(c) == over else OnlineOk() <==> over == 0
      ensures k + 1 < |s| ==> Emptying(c, g, s, k + 1, kids0, buddies0, index0, links0, contactIds, groups0)
      ensures k + 1 == |s| ==>
        && Valid() && SameNames(groups0, groups) && contacts.Keys == contactIds - {c}
        && g in kids0 && kids == kids0[g := Drop(kids0[g], c)] - {c}
        && buddies == BuddiesFrom(buddies0, s, k + 1) && index == IndexFrom(cfg, buddies0, index0, s, k + 1, g)
        && links.Keys <= links0.Keys && forall m | m in links :: links[m].parent == links0[m].parent
      decreases |s| - k, 2
    {
      hide Tree, Records, CurTally, OnlineTally, OnlineBeside, OnlineExcess, IndexAs, HomesOf, Pending, Totals, Bests,
           UpIsLive, Scores, IsBest, Drop, IsOnline, Members, Keys, KeyOf, Less, BuddiesFrom, IndexFrom, KidsFrom,
           SameNames;
      ContactList(kinds, links, root, top, kids, {}, groups, contacts, buddies, chats, nextId, c);
      KidsFromAt(kids0, c, s, k);
      FromNext(cfg, buddies0, index0, kids0, c, s, k, g);
      ghost var groups1 := groups;
      RemoveHead(c, g, kids0, s[k..], s[k], buddies0[s[k]]);
      SameNamesChain(groups0, groups1, groups);
    }

    /** The loop that removes the buddies, and the removal of the last one. */
    method RemoveAll(c: Id)
      requires Valid() && c in contacts && c in links && links[c].parent.Some? && c in kids && kids[c] != []
      modifies `links, `kids, `kinds, `contacts, `groups, `buddies, `index
      ensures Valid() && (old(Indexed()) ==> Indexed()) && (old(TimersOk()) ==> TimersOk())
      ensures old(Beside(c)) ==> (OnlineOk() <==> old(Over(c)) + Count(old(kids[c]), Leaving(old(buddies))) == 0)
      ensures contacts.Keys == old(contacts).Keys - {c}
      ensures buddies == Less(old(buddies), Members(old(kids[c])))
      ensures var g := old(links[c].parent.value);
        && g in old(kids) && kids == old(kids)[g := Drop(old(kids[g]), c)] - {c}
        && index == Less(old(index), Keys(cfg, old(buddies), old(kids[c]), g))
      ensures links.Keys <= old(links).Keys && forall m | m in links :: links[m].parent == old(links)[m].parent
      ensures SameNames(old(groups), groups)
      decreases |kids[c]|, 3
    {
      hide Tree, Records, CurTally, OnlineTally, OnlineBeside, OnlineExcess, IndexAs, HomesOf, Pending, Totals, Bests,
           UpIsLive, Scores, Drop, Members, Keys, Less, BuddiesFrom, IndexFrom, KidsFrom, SameNames, Leaving, Count;
      SameGroupNames(groups);
      LeavingStart(buddies, kids[c]);
      ghost var s, g, k := kids[c], links[c].parent.value, 0;
      FromStart(cfg, buddies, index, kids, c, s, g);
      ContactPlace(kinds, links, root, top, kids, {}, groups, contacts, buddies, chats, nextId, c, g);
      KidsFromAt(kids, c, s, k);
      NextOfFirst(kinds, links, root, top, kids, {}, groups, contacts, buddies, chats, nextId, c, s, k);
      while links[links[c].child.value].next.Some?
        invariant Emptying(c, g, s, k, old(kids), old(buddies), old(index), old(links), old(contacts).Keys, old(groups))
        invariant c in links && links[c].child.Some? && links[c].child.value in links
        invariant links[links[c].child.value].next.Some? <==> k + 1 < |s|
        invariant (old(Indexed()) ==> Indexed()) && (old(TimersOk()) ==> TimersOk())
        invariant old(Beside(c)) ==> Beside(c) && Over(c) == old(Over(c)) + Count(s[..k], Leaving(old(buddies)))
        decreases |s| - k
      {
        RemoveNext(c, g, s, k, old(kids), old(buddies), old(index), old(links), old(contacts).Keys, old(groups));
        LeavingNext(old(buddies), s, k);
        k := k + 1;
        KidsFromAt(old(kids), c, s, k);
        NextOfFirst(kinds, links, root, top, kids, {}, groups, contacts, buddies, chats, nextId, c, s, k);
      }
      RemoveNext(c, g, s, k, old(kids), old(buddies), old(index), old(links), old(contacts).Keys, old(groups));
      LeavingNext(old(buddies), s, k);
    }

    // ----- new nodes

    /** A new node: `gaim_contact_new`, `gaim_buddy_new`, `gaim_chat_new`, and what `gaim_group_new` does
        if there is no group of the name. */
    method NewNode(x: Fresh) returns (n: Id)
      requires Valid() && (x.FreshBuddy? ==> x.buddy.present == Offline)
      modifies `links, `kids, `kinds, `groups, `contacts, `buddies, `chats, `nextId
      ensures Valid() && (old(OnlineOk()) ==> OnlineOk()) && (old(Indexed()) ==> Indexed())
        && (old(TimersOk()) ==> TimersOk())
      ensures n == old(nextId) && n !in old(kinds) && n !in old(links) && n !in old(contacts)
        && kinds == old(kinds)[n := KindOf(x)] && links == old(links)[n := FREE]
      ensures kids == WithNew(old(kids), n, KindOf(x)) && n !in top && n !in old(kids)
      ensures groups == WithGroup(old(groups), n, x) && contacts == WithContact(old(contacts), n, x)
      ensures buddies == WithBuddy(old(buddies), n, x) && chats == WithChat(old(chats), n, x)
    {
      hide OkState, OnlineState, WithNew, IndexAs, HomesOf, WithGroup, WithContact, WithBuddy, WithChat, KindOf,
           Pending;
      n := nextId;
      PendingNew(buddies, n, x);
      NewNodeState(cfg, kinds, links, root, top, kids, groups, contacts, buddies, chats, n, connected, index, x);
      groups, contacts := WithGroup(groups, n, x), WithContact(contacts, n, x);
      buddies, chats := WithBuddy(buddies, n, x), WithChat(chats, n, x);
      kids := WithNew(kids, n, KindOf(x));
      links, kinds, nextId := links[n := FREE], kinds[n := KindOf(x)], nextId + 1;
    }

    // ----- groups

    /** `gaim_find_group`: the first group of that name; no group has no name. */
    method FindGroup(name: string) returns (g: Option<Id>)
      requires Valid()
      ensures g.Some? ==> g.value in top && g.value in groups && groups[g.value].name == name
      ensures g.None? && name != "" ==> forall q | q in top :: q in groups && groups[q].name != name
    {
      hide OkState;
      if name == "" {
        return None;
      }
      GroupsOf();
      var node := root;
      ghost var i := 0;
      while node.Some?
        invariant i <= |top| && node == Here(top, i)
        invariant forall j | 0 <= j < i :: top[j] in groups && groups[top[j]].name != name
        decreases |top| - i
      {
        if groups[node.value].name == name {
          return node;
        }
        node := links[node.value].next;
        i := i + 1;
      }
      g := None;
    }

    /** `gaim_blist_get_last_sibling` of the first group. */
    method LastGroup() returns (g: Option<Id>)
      requires Valid()
      ensures g == if top == [] then None else Some(top[|top| - 1])
    {
      hide OkState;
      GroupsOf();
      g := root;
      if g.None? {
        return;
      }
      ghost var i := 0;
      while links[g.value].next.Some?
        invariant i < |top| && g == Some(top[i])
        decreases |top| - i
      {
        g := links[g.value].next;
        i := i + 1;
      }
    }

    lemma GroupsOf()
      requires Valid()
      ensures root == Here(top, 0) && NoDups(top)
      ensures forall i | 0 <= i < |top| ::
        top[i] in links && top[i] in groups && top[i] in kids && links[top[i]].next == Here(top, i + 1)
      ensures forall g | g in top :: g in links && g in groups && links[g].parent == None
    {
      hide Tree, Records;
      TopList(kinds, links, root, top, kids, {}, groups, contacts, buddies, chats, nextId);
    }

    /** `gaim_blist_add_group`: puts a group after `node`, or first; a group that is in the list already moves. */
    method AddGroup(g: Id, node: Option<Id>)
      requires Valid() && g in groups && groups[g].name != "" && g in links
      requires g in top || (links[g].prev.None? && links[g].next.None?)
      requires node.Some? ==> node.value in top
      modifies `root, `links, `top
      ensures Valid() && (old(OnlineOk()) ==> OnlineOk()) && (old(Indexed()) ==> Indexed())
        && (old(TimersOk()) ==> TimersOk())
      ensures top == if node == Some(g) then old(top) else Regrouped(old(top), g, node)
      ensures links.Keys == old(links).Keys && forall m | m in links :: links[m].parent == old(links)[m].parent
    {
      hide OnlineState, IndexAs, HomesOf, Regrouped, Tree, Records, Totals, CurTally, Bests, Scores, Drop, With, Place,
           Loose;
      BuddyKind(kinds, groups, contacts, buddies, chats, nextId, g);
      GroupReady(kinds, links, root, top, kids, g, node);
      TreeShape(kinds, links, root, top, kids, {});
      if root.None? {
        AloneOnTop(links, root, top, kids, g);
        ghost var links0, top0 := links, top;
        root := Some(g);
        top := [g];
        Regroup(links0, None, top0, g, node);
        return;
      }
      if node == Some(g) {
        return;
      }
      MoveGroup(g, node);
    }

    /** `gaim_blist_add_group` when the list has groups and `g` is not `node`. */
    method MoveGroup(g: Id, node: Option<Id>)
      requires Valid() && g in groups && groups[g].name != "" && g in links
      requires g in top || (links[g].prev.None? && links[g].next.None?)
      requires node != Some(g) && (node.Some? ==> node.value in top)
      modifies `root, `links, `top
      ensures Valid() && (old(Indexed()) ==> Indexed()) && top == Regrouped(old(top), g, node)
      ensures links.Keys == old(links).Keys && forall m | m in links :: links[m].parent == old(links)[m].parent
    {
      hide OkState, OnlineState, IndexAs, HomesOf, Regrouped, Shape, Drop, With, Place, Loose;
      ReadyToMove(g, node);
      ghost var links0, root0, top0 := links, root, top;
      var found := FindGroup(groups[g].name);
      if found.Some? {
        UnlinkGroup(g);
      }
      assert top == Drop(top0, g);
      LinkGroup(g, node);
      Regroup(links0, root0, top0, g, node);
    }

    lemma ReadyToMove(g: Id, node: Option<Id>)
      requires Valid() && g in groups && node != Some(g) && (node.Some? ==> node.value in top)
      ensures Shape(links, root, top, kids) && g in links && links[g].parent.None? && Loose(g, Drop(top, g), kids)
      ensures node.Some? ==> node.value in Drop(top, g)
      ensures Regrouped(top, g, node) ==
        With(Drop(top, g), if node.Some? then Place(Drop(top, g), node.value) + 1 else 0, g)
      ensures g !in top ==> Drop(top, g) == top
    {
      hide Tree, Records, Regrouped, With, Place, Loose;
      BuddyKind(kinds, groups, contacts, buddies, chats, nextId, g);
      GroupReady(kinds, links, root, top, kids, g, node);
      TreeShape(kinds, links, root, top, kids, {});
    }

    /** The tree with its groups in another order. */
    lemma Regroup(links0: LinkMap, root0: Option<Id>, top0: seq<Id>, g: Id, node: Option<Id>)
      requires OkState(cfg, kinds, links0, root0, top0, kids, {}, groups, contacts, buddies, chats, nextId, connected)
      requires g in groups && Shape(links, root, top, kids) && top == Regrouped(top0, g, node)
      requires links.Keys == links0.Keys && forall m | m in links0 :: links[m].parent == links0[m].parent
      ensures Valid()
      ensures IndexAs(cfg, index, buddies, HomesOf(links0, buddies)) ==> Indexed()
    {
      hide Shape, Records, Regrouped, IndexAs, HomesOf;
      TopList(kinds, links0, root0, top0, kids, {}, groups, contacts, buddies, chats, nextId);
      BuddyKind(kinds, groups, contacts, buddies, chats, nextId, g);
      RegroupedMembers(top0, g, node);
      RegroupedTree(kinds, links0, links, root0, root, top0, top, kids, {}, g);
      HomesByParents(links0, links, buddies);
    }

    /** The statements that take a group out of the list; they do nothing to one that is not in it. */
    method UnlinkGroup(g: Id)
      requires Shape(links, root, top, kids) && g in links && links[g].parent.None?
      requires g in top || (links[g].prev.None? && links[g].next.None?)
      modifies `root, `links, `top
      ensures Shape(links, root, top, kids) && top == Drop(old(top), g)
      ensures links.Keys == old(links).Keys && forall m | m in links :: links[m].parent == old(links)[m].parent
    {
      hide UnlinkedAs, Drop, Shape;
      ghost var links0, root0, top0 := links, root, top;
      if g in top {
        TopNeighbours(links, root, top, kids, g);
      }
      DropAbsent(links, root, top, kids, g);
      if root == Some(g) {
        root := links[g].next;
      }
      var l := links[g];
      if l.prev.Some? {
        links := links[l.prev.value := links[l.prev.value].(next := l.next)];
      }
      if l.next.Some? {
        links := links[l.next.value := links[l.next.value].(prev := l.prev)];
      }
      if g in top {
        UnlinkedByTop(links0, links, g);
        SameParents(links0, links, g);
        DropTop(links0, links, root0, top, kids, g);
        top := Drop(top, g);
      }
    }

    /** The statements that put a group into the list. */
    method LinkGroup(g: Id, node: Option<Id>)
      requires Shape(links, root, top, kids) && g in links && links[g].parent.None? && Loose(g, top, kids)
      requires node.Some? ==> node.value in top
      modifies `root, `links, `top
      ensures Shape(links, root, top, kids)
      ensures top == With(old(top), if node.Some? then Place(old(top), node.value) + 1 else 0, g)
      ensures links.Keys == old(links).Keys && forall m | m in links :: links[m].parent == old(links)[m].parent
    {
      hide LinkedAs, With, Place, Loose;
      ghost var links0, root0, top0 := links, root, top;
      ghost var i := if node.Some? then Place(top, node.value) + 1 else 0;
      TopPlace(links, root, top, kids, g, node);
      if node.Some? {
        var next := links[node.value].next;
        links := links[g := links[g].(next := next, prev := node)];
        if next.Some? {
          links := links[next.value := links[next.value].(prev := Some(g))];
        }
        links := links[node.value := links[node.value].(next := Some(g))];
        LinkedByTop(links0, links, g, node, next);
      } else {
        var next := root;
        if next.Some? {
          links := links[next.value := links[next.value].(prev := Some(g))];
        }
        links := links[g := links[g].(next := next, prev := None)];
        root := Some(g);
        LinkedByTop(links0, links, g, None, next);
      }
      LinkedTop(links0, links, root0, top, kids, i, g);
      LinkedParents(links0, links, g, None, Before(top, i), Here(top, i));
      top := With(top, i, g);
    }

    /** `gaim_group_new`: the listed group of that name, or a new one. */
    method GroupNew(name: string) returns (g: Id)
      requires Valid() && name != ""
      modifies `links, `kids, `kinds, `groups, `contacts, `buddies, `chats, `nextId
      ensures Valid() && (old(OnlineOk()) ==> OnlineOk()) && (old(Indexed()) ==> Indexed())
        && (old(TimersOk()) ==> TimersOk())
      ensures g in groups && groups[g].name == name && g in links && (g in top || links[g] == FREE)
      ensures contacts == old(contacts) && buddies == old(buddies) && chats == old(chats)
      ensures links.Keys == old(links).Keys + {g} && forall m | m in old(links) ::
        links[m].parent == old(links)[m].parent
      ensures g in old(kids) ==> kids == old(kids) && groups == old(groups) && g in top
      ensures g !in old(kids) ==>
        kids == old(kids)[g := []] && groups == old(groups)[g := Group(name, 0, 0)] && g !in top
      ensures g !in old(kids) ==> forall q | q in top :: q in old(groups) && old(groups)[q].name != name
    {
      hide OkState, OnlineState, IndexAs, HomesOf;
      var found := FindGroup(name);
      GroupsOf();
      if found.Some? {
        g := found.value;
        assert g in top && g in kids;
      } else {
        g := NewNode(FreshGroup(name));
      }
    }

    /** What the functions do that need a group and were given none: the group of that name, moved to the end of the
        list. */
    method ListedGroup(name: string) returns (g: Id)
      requires Valid() && name != ""
      modifies `root, `links, `top, `kids, `kinds, `groups, `contacts, `buddies, `chats, `nextId
      ensures Valid() && (old(OnlineOk()) ==> OnlineOk()) && (old(Indexed()) ==> Indexed())
      ensures g in groups && groups[g].name == name && g in top
      ensures forall q | q in old(top) :: q in top
      ensures contacts == old(contacts) && buddies == old(buddies) && chats == old(chats)
      ensures links.Keys == old(links).Keys + {g} && forall m | m in old(links) ::
        links[m].parent == old(links)[m].parent
      ensures MoreLinks(old(links), links)
      ensures kids == if g in old(kids) then old(kids) else old(kids)[g := []]
    {
      hide OkState, OnlineState, IndexAs, HomesOf, Regrouped;
      g := GroupNew(name);
      var last := LastGroup();
      GroupsOf();
      RegroupedMembers(top, g, last);
      AddGroup(g, last);
    }

    // ----- the children of groups

    /** A contact or chat is unlinked and its group stops counting it. */
    method TakeFromGroup(n: Id, g: Id)
      requires Valid() && (n in contacts || n in chats) && n in links && links[n].parent == Some(g)
      modifies `links, `kids, `groups
      ensures Ok({n}) && (old(OnlineOk()) ==> OnlineOk())
      ensures g in old(kids) && n in old(kids[g]) && kids == old(kids)[g := Drop(old(kids[g]), n)]
      ensures SameNames(old(groups), groups)
      ensures links.Keys == old(links).Keys && forall m | m in links :: links[m].parent == old(links)[m].parent
    {
      hide Tree, OkState, OnlineState, Drop, CountsLive, CountsLit, SameNames;
      InGroup(n, g);
      ghost var links0, kids0 := links, kids;
      Unlink(n, {});
      assert {} + {n} == {n};
      OutOfGroup(cfg, kinds, links0, links, root, top, kids0, groups, contacts, buddies, chats, nextId, connected, n,
                 g);
      OneRenamed(groups, g, GroupMinus(groups[g], CountsLive(contacts, chats, connected, n),
                                       CountsLit(contacts, chats, connected, n)));
      groups := groups[g := GroupMinus(groups[g], CountsLive(contacts, chats, connected, n),
                                       CountsLit(contacts, chats, connected, n))];
    }

    lemma InGroup(n: Id, g: Id)
      requires Valid() && (n in contacts || n in chats) && n in links && links[n].parent == Some(g)
      ensures Tree(kinds, links, root, top, kids, {}) && n in kinds && kinds[n] != GroupNode
      ensures g in groups && g in kids && n in kids[g] && g in top
    {
      hide Tree, Records;
      BuddyKind(kinds, groups, contacts, buddies, chats, nextId, n);
      HomeOf(kinds, links, root, top, kids, {}, n, g);
      KindRecord(kinds, groups, contacts, buddies, chats, nextId, g);
      GroupListed(kinds, links, root, top, kids, {}, g);
    }

    /** A loose contact or chat is linked into a group, after `node` or first, and counted. */
    method PutIntoGroup(n: Id, g: Id, node: Option<Id>)
      requires Ok({n}) && (n in contacts || n in chats) && g in top
      requires node.Some? ==>
        node.value in links && links[node.value].parent == Some(g) && g in kids && node.value in kids[g]
      modifies `links, `kids, `groups
      ensures Valid() && (old(OnlineOk()) ==> OnlineOk())
      ensures g in old(kids) && kids == old(kids)[g := With(old(kids[g]), After(old(kids[g]), node), n)]
      ensures SameNames(old(groups), groups) && n in links && links[n].parent == Some(g)
      ensures links.Keys == old(links).Keys && forall m | m in links && m != n ::
        links[m].parent == old(links)[m].parent
    {
      hide Tree, OkState, OnlineState, With, CountsLive, CountsLit, Place, After, SameNames;
      ReadyForGroup(n, g, node);
      ghost var links0, kids0 := links, kids;
      if node.Some? {
        LinkAfter(n, node.value, g, {n});
      } else {
        LinkFirst(n, g, {n});
      }
      assert {n} - {n} == {};
      AfterFits(kids0[g], node);
      IntoGroup(cfg, kinds, links0, links, root, top, kids0, groups, contacts, buddies, chats, nextId, connected, n, g,
                After(kids0[g], node));
      OneRenamed(groups, g, GroupAdd(groups[g], CountsLive(contacts, chats, connected, n),
                                     CountsLit(contacts, chats, connected, n)));
      groups := groups[g := GroupAdd(groups[g], CountsLive(contacts, chats, connected, n),
                                     CountsLit(contacts, chats, connected, n))];
    }

    lemma ReadyForGroup(n: Id, g: Id, node: Option<Id>)
      requires Ok({n}) && (n in contacts || n in chats) && g in top
      ensures Tree(kinds, links, root, top, kids, {n}) && n in kinds && g in kinds && g in groups && g in kids
        && g in links
      ensures kinds[g] == GroupNode && Holds(kinds[g], kinds[n])
      ensures node.Some? && node.value in kids[g] ==> node.value in kinds
    {
      hide Tree, Records;
      BuddyKind(kinds, groups, contacts, buddies, chats, nextId, n);
      TopList(kinds, links, root, top, kids, {n}, groups, contacts, buddies, chats, nextId);
      BuddyKind(kinds, groups, contacts, buddies, chats, nextId, g);
      KidsKnown(kinds, links, root, top, kids, {n}, g);
    }

    /** Moves a contact or chat to the place after `node` in `g`, or to its front. */
    method PutNode(n: Id, g: Id, node: Option<Id>)
      requires Valid() && (n in contacts || n in chats) && n in links && g in top && node != Some(n)
      requires node.Some? ==>
        node.value in links && links[node.value].parent == Some(g) && g in kids && node.value in kids[g]
      modifies `links, `kids, `groups
      ensures Valid() && (old(OnlineOk()) ==> OnlineOk())
      ensures g in old(kids) && kids == Placed(old(kids), old(links[n].parent), n, g, node)
      ensures SameNames(old(groups), groups) && n in links && links[n].parent == Some(g)
      ensures links.Keys == old(links).Keys && forall m | m in links && m != n ::
        links[m].parent == old(links)[m].parent
    {
      hide Tree, OkState, OnlineState, Drop, With, After, SameNames;
      InTop(g);
      SameGroupNames(groups);
      ghost var groups1 := groups;
      if links[n].parent.Some? {
        var g0 := links[n].parent.value;
        InGroup(n, g0);
        if node.Some? {
          NodeStays(kinds, links, root, top, kids, g, n, node.value);
        }
        TakeFromGroup(n, g0);
        groups1 := groups;
      } else {
        ReadyAsNew(n);
      }
      PutIntoGroup(n, g, node);
      SameNamesChain(old(groups), groups1, groups);
    }

    lemma InTop(g: Id)
      requires Valid() && g in top
      ensures g in kids && g in groups && g in links && links[g].parent.None?
    {
      hide Tree, Records;
      TopList(kinds, links, root, top, kids, {}, groups, contacts, buddies, chats, nextId);
      TopKids(kinds, links, root, top, kids, {});
    }

    lemma ReadyAsNew(n: Id)
      requires Valid() && (n in contacts || n in chats) && n in links && links[n].parent.None?
      ensures Ok({n})
    {
      hide Tree, Records;
      BuddyKind(kinds, groups, contacts, buddies, chats, nextId, n);
      NewIsLoose(kinds, links, root, top, kids, {}, n);
      assert {} + {n} == {n};
    }

    // ----- chats

    /** The group a contact or chat goes to: that of `node`, or the one given, or the one of that name. */
    method TargetGroup(name: string, group: Option<Id>, node: Option<Id>) returns (g: Id)
      requires Valid() && name != ""
      requires node.Some? ==>
        (node.value in contacts || node.value in chats) && node.value in links && links[node.value].parent.Some?
      requires group.Some? ==> group.value in top
      modifies `root, `links, `top, `kids, `kinds, `groups, `contacts, `buddies, `chats, `nextId
      ensures Valid() && (old(OnlineOk()) ==> OnlineOk()) && (old(Indexed()) ==> Indexed())
      ensures contacts == old(contacts) && buddies == old(buddies) && chats == old(chats)
      ensures g in top && g in groups
      ensures old(links).Keys <= links.Keys && forall m | m in old(links) :: links[m].parent == old(links)[m].parent
      ensures node.Some? ==> Some(g) == old(links[node.value].parent) && g in kids && node.value in kids[g]
      ensures node.None? && group.Some? ==> g == group.value
      ensures node.Some? || group.Some? ==>
        kids == old(kids) && groups == old(groups) && top == old(top) && links == old(links)
      ensures node.None? && group.None? ==> groups[g].name == name && kids == if g in old(kids) then old(kids)
        else old(kids)[g := []]
    {
      hide OkState, OnlineState, IndexAs, HomesOf;
      if node.Some? {
        g := links[node.value].parent.value;
        InGroup(node.value, g);
      } else if group.Some? {
        g := group.value;
        InTop(g);
      } else {
        g := ListedGroup(name);
      }
    }

    /** `gaim_blist_add_chat`: puts a chat after `node`, a child of a group, or first in the group, which is
        the one named "Chats" if none is given. */
    method AddChat(n: Id, group: Option<Id>, node: Option<Id>)
      requires Valid() && n in chats && n in links
      requires node.Some? ==>
        (node.value in contacts || node.value in chats) && node.value in links && links[node.value].parent.Some?
      requires group.Some? ==> group.value in top
      modifies `root, `links, `top, `kids, `kinds, `groups, `contacts, `buddies, `chats, `nextId
      ensures Valid() && (old(OnlineOk()) ==> OnlineOk()) && (old(Indexed()) ==> Indexed())
        && (old(TimersOk()) ==> TimersOk())
      ensures contacts == old(contacts) && buddies == old(buddies) && chats == old(chats)
      ensures node == Some(n) ==> kids == old(kids)
      ensures node.Some? || group.Some? ==> SameNames(old(groups), groups)
      ensures node.Some? && node != Some(n) ==>
        kids == Placed(old(kids), old(links[n].parent), n, old(links)[node.value].parent.value, node)
      ensures node.None? && group.Some? ==> kids == Placed(old(kids), old(links[n].parent), n, group.value, None)
      ensures node.None? && group.None? ==>
        exists g :: g in groups && groups[g].name == "Chats" && g in top && g in kids && kids[g] != []
          && kids[g][0] == n
    {
      hide OkState, OnlineState, IndexAs, HomesOf, Placed;
      var g := TargetGroup("Chats", group, node);
      SameGroupNames(groups);
      if node == Some(n) {
        return;
      }
      ghost var links1, kids1 := links, kids;
      PutNode(n, g, node);
      ChatIndexed(n, links1);
      if node.None? {
        PlacedFirst(kids1, old(links[n].parent), n, g);
      }
    }

    lemma ChatIndexed(n: Id, links0: LinkMap)
      requires Valid() && n in chats
      requires links.Keys == links0.Keys && forall m | m in links && m != n :: links[m].parent == links0[m].parent
      ensures IndexAs(cfg, index, buddies, HomesOf(links0, buddies)) ==> Indexed()
    {
      hide Tree, Records, IndexAs, HomesOf;
      BuddyKind(kinds, groups, contacts, buddies, chats, nextId, n);
      ChatHomes(kinds, links0, links, root, top, kids, buddies, n);
    }

    /** `gaim_blist_remove_chat` */
    method RemoveChat(n: Id)
      requires Valid() && n in chats && n in links && links[n].parent.Some?
      modifies `links, `kids, `kinds, `groups, `chats
      ensures Valid() && (old(OnlineOk()) ==> OnlineOk()) && (old(Indexed()) ==> Indexed())
        && (old(TimersOk()) ==> TimersOk())
      ensures chats == old(chats) - {n} && SameNames(old(groups), groups)
      ensures var g := old(links[n].parent.value);
        g in old(kids) && n in old(kids[g]) && kids == old(kids)[g := Drop(old(kids[g]), n)]
    {
      hide OkState, OnlineState, Drop, SameNames;
      var g := links[n].parent.value;
      TakeFromGroup(n, g);
      ChatGone(cfg, kinds, links, root, top, kids, groups, contacts, buddies, chats, nextId, connected, n);
      ChatIds(n, {n});
      links := links - {n};
      kinds := kinds - {n};
      chats := chats - {n};
      GoneIndexed(n, old(links));
    }

    lemma ChatIds(n: Id, loose: set<Id>)
      requires Ok(loose) && n in chats
      ensures n !in buddies && n !in kids
    {
      hide Shape, Homes;
    }

    lemma GoneIndexed(n: Id, links0: LinkMap)
      requires Valid() && n !in buddies && n !in kids
      requires links.Keys == links0.Keys - {n} && forall m | m in links :: links[m].parent == links0[m].parent
      ensures IndexAs(cfg, index, buddies, HomesOf(links0, buddies)) ==> Indexed()
    {
      hide Tree, Records, IndexAs, HomesOf;
      BuddiesKnown(kinds, groups, contacts, buddies, chats, nextId);
      GoneHomes(kinds, links0, links, root, top, kids, buddies, n);
    }

    // ----- finding buddies

    /** `gaim_find_buddy_in_group`: while the index is right, the one buddy that is in the group under that
        normalised name and account, if there is one; nobody has no name. Halfway through a move, what the
        index holds. */
    method FindBuddyInGroup(account: Account, name: string, g: Id) returns (b: Option<Id>)
      ensures name == "" ==> b == None
      ensures name != "" && Indexed() ==> forall d: Id ::
        b == Some(d) <==>
          IsMatch(cfg, buddies, HomesOf(links, buddies), cfg.normalize(account, name), account, d)
          && HomesOf(links, buddies)[d] == g
      ensures name != "" ==> var k := Key(cfg.normalize(account, name), account, g);
        (b.Some? <==> k in index) && (b.Some? ==> index[k] == b.value)
    {
      hide HomesOf, IndexAs;
      var k := Key(cfg.normalize(account, name), account, g);
      b := if name != "" && k in index then Some(index[k]) else None;
      if name != "" && Indexed() {
        forall d: Id
          ensures b == Some(d) <==>
            IsMatch(cfg, buddies, HomesOf(links, buddies), k.name, account, d) && HomesOf(links, buddies)[d] == g
        {
          IndexFinds(cfg, index, buddies, HomesOf(links, buddies), k, d);
        }
      }
    }

    // ----- contacts

    /** The first `k` buddies `s` of a contact have gone to the keys of another group, where those that are in
        `kept` found theirs free and the others were deleted. */
    ghost predicate Reindexing(c: Id, g0: Id, g: Id, s: seq<Id>, k: nat, kept: seq<Id>, kids0: Kids, buddies0: Buddies,
                               index0: Index,
                               links0: LinkMap, contactIds: set<Id>, groups0: Groups)
      reads this
    {
      && k <= |s| && Valid() && SameNames(groups0, groups) && c in contacts && contacts.Keys == contactIds && c != g0
      && c in kids0
      && kids == KidsMix(kids0, c, kept, s, k) && buddies == BuddiesMix(buddies0, s, k, kept)
      && c in links && links[c].parent == Some(g0)
      && links.Keys <= links0.Keys && (forall m | m in links :: links[m].parent == links0[m].parent)
      && (forall b | b in kept :: b in s[..k])
    }

    /** A turn of the loop over the buddies of a contact that changes groups. `stay` is whether the buddy was
        kept, `gone` whether its deletion took the contact with it. */
    method ReindexOne(c: Id, g0: Id, g: Id, b: Id, ghost s: seq<Id>, ghost k: nat, ghost kept: seq<Id>,
                      ghost kids0: Kids,
                      ghost buddies0: Buddies, ghost index0: Index, ghost links0: LinkMap, ghost contactIds: set<Id>,
                      ghost groups0: Groups)
      returns (stay: bool, gone: bool)
      requires Reindexing(c, g0, g, s, k, kept, kids0, buddies0, index0, links0, contactIds, groups0) && k < |s|
        && b == s[k]
      requires g0 in kids0 && b !in s[..k]
      modifies `links, `kids, `kinds, `contacts, `groups, `buddies, `index
      ensures b in old(buddies)
      ensures var over := old(Over(c)) + One(!stay && old(buddies[b]).present == SigningOff);
        old(Beside(c)) ==> if gone then OnlineOk() <==> over == 0 else Beside(c) && Over(c) == over
      ensures stay ==> !gone && buddies == old(buddies) && links == old(links)
      ensures stay ==> Reindexing(c, g0, g, s, k + 1, kept + [b], kids0, buddies0, index0, links0, contactIds, groups0)
      ensures !stay && !gone ==>
        Reindexing(c, g0, g, s, k + 1, kept, kids0, buddies0, index0, links0, contactIds, groups0)
      ensures !stay ==> buddies == Less(old(buddies), {b})
      ensures links.Keys <= old(links).Keys && forall m | m in links :: links[m].parent == old(links)[m].parent
      ensures gone <==> !stay && kept == [] && k + 1 == |s|
      ensures gone ==>
        && Valid() && SameNames(groups0, groups) && contacts.Keys == contactIds - {c}
        && kids == kids0[g0 := Drop(kids0[g0], c)] - {c} && buddies == BuddiesMix(buddies0, s, k + 1, kept)
        && links.Keys <= links0.Keys && forall m | m in links :: links[m].parent == links0[m].parent
      ensures var x := old(buddies[b]); var index1 := Less(old(index), {KeyOf(cfg, x, g0)});
        if stay then (x.name != "" ==> KeyOf(cfg, x, g) !in index1) && index == index1[KeyOf(cfg, x, g) := b]
        else x.name != "" && KeyOf(cfg, x, g) in index1 && index == Less(index1, {KeyOf(cfg, x, g0)})
    {
      hide OkState, OnlineState, OnlineBeside, OnlineExcess, UpIsLive, KidsMix, BuddiesMix, Drop, Members, SameNames,
           Removed, Less, IndexAs, HomesOf, Pending;
      ghost var groups1, links1 := groups, links;
      MixAt(kids0, c, kept, s, k);
      TurnSeq(kept, s, k);
      TurnReady(c, g0, b, kept + s[k..]);
      NotKept(kept, s, k);
      index := Less(index, {KeyOf(cfg, buddies[b], g0)});
      var found := FindBuddyInGroup(buddies[b].account, buddies[b].name, g);
      stay, gone := found.None?, false;
      if stay {
        index := index[KeyOf(cfg, buddies[b], g) := b];
        MixKeep(kids0, c, kept, s, k, buddies0);
        assert s[..k + 1] == s[..k] + [s[k]];
      } else {
        MixDelete(kids0, c, g0, kept, s, k, buddies0);
        gone := links[links[c].child.value].next.None?;
        RemoveBuddy(b);
        SameNamesChain(groups0, groups1, groups);
        assert s[..k + 1] == s[..k] + [s[k]];
        if !gone {
          ContactLinks(c);
        }
      }
    }

    lemma TurnReady(c: Id, g0: Id, b: Id, t: seq<Id>)
      requires Valid() && c in contacts && c in links && links[c].parent == Some(g0) && c in kids && kids[c] == t
        && b in t
      ensures b in buddies && b in links && links[b].parent == Some(c) && GroupOf(links, b) == Some(g0) && NoDups(t)
      ensures links[c].child == Some(t[0]) && t[0] in links
      ensures links[t[0]].next.None? <==> |t| == 1
    {
      hide Tree, Records;
      ContactList(kinds, links, root, top, kids, {}, groups, contacts, buddies, chats, nextId, c);
      ChildOf(kinds, links, root, top, kids, {}, c);
      ListNoDupsOf(kinds, links, root, top, kids, {}, c);
    }

    lemma ContactLinks(c: Id)
      requires Valid() && c in contacts
      ensures c in links && c in kids
    {
      hide Tree, Records;
      ContactHere(kinds, links, root, top, kids, {}, groups, contacts, buddies, chats, nextId, c);
    }

    /** The buddies of a contact are at home in its group. */
    lemma ContactAtHome(c: Id, g0: Id, s: seq<Id>)
      requires Valid() && c in contacts && c in links && links[c].parent == Some(g0) && c in kids && kids[c] == s
      ensures AllAt(HomesOf(links, buddies), s, g0) && NoDups(s) && links[c].child == Here(s, 0) && c != g0
        && g0 in kids && g0 in groups
      ensures forall b | b in s :: b in buddies
    {
      hide Tree, Records;
      forall b | b in s ensures b in buddies && GroupOf(links, b) == Some(g0) {
        TurnReady(c, g0, b, s);
      }
      ContactPlace(kinds, links, root, top, kids, {}, groups, contacts, buddies, chats, nextId, c, g0);
      ContactList(kinds, links, root, top, kids, {}, groups, contacts, buddies, chats, nextId, c);
      ListNoDupsOf(kinds, links, root, top, kids, {}, c);
    }

    lemma NextInTurn(c: Id, g0: Id, t: seq<Id>, i: nat)
      requires Valid() && c in contacts && c in links && links[c].parent == Some(g0) && c in kids && kids[c] == t
        && i < |t|
      ensures t[i] in links && links[t[i]].next == Here(t, i + 1)
      ensures t[i] in buddies && t[i] in HomesOf(links, buddies) && NoDups(t)
    {
      hide Tree, Records;
      ContactList(kinds, links, root, top, kids, {}, groups, contacts, buddies, chats, nextId, c);
      TurnReady(c, g0, t[i], t);
    }

    lemma HomesNow(links0: LinkMap, buddies0: Buddies, s: seq<Id>, k: nat, kept: seq<Id>)
      requires Valid() && k <= |s| && buddies == BuddiesMix(buddies0, s, k, kept)
      requires links.Keys <= links0.Keys && forall m | m in links :: links[m].parent == links0[m].parent
      ensures Shrunk(HomesOf(links, buddies), HomesOf(links0, buddies0), buddies, buddies0, s)
    {
      hide Tree, Records, Shrunk, HomesOf;
      MixRecords(buddies0, s, k, kept);
      HomesShrink(kinds, links, links0, root, top, kids, groups, contacts, buddies, buddies0, chats, nextId, s);
    }

    lemma HomesGone(links0: LinkMap, buddies0: Buddies, b: Id)
      requires Valid() && buddies == Less(buddies0, {b})
      requires links.Keys <= links0.Keys && forall m | m in links :: links[m].parent == links0[m].parent
      ensures HomesOf(links, buddies) == HomesOf(links0, buddies0) - {b}
    {
      hide Tree, Records, HomesOf;
      OneGone(kinds, links, links0, root, top, kids, groups, contacts, buddies, buddies0, chats, nextId, b);
    }

    /** What holds of the index meanwhile, if it was right and no key of a buddy without a name is taken. */
    ghost predicate HalfIndexed(g: Id, s: seq<Id>, k: nat, kept: seq<Id>, buddies0: Buddies, index0: Index)
      reads this
    {
      && k <= |s| && kept == Survivors(cfg, buddies0, index0, s[..k], g)
      && IndexAs(cfg, index, buddies, Rehomed(HomesOf(links, buddies), Members(kept), g))
    }

    /** A turn, and the buddy that comes next. */
    method ReindexTurn(c: Id, g0: Id, g: Id, b: Id, ghost s: seq<Id>, ghost k: nat, ghost kept: seq<Id>,
                       ghost kids0: Kids,
                       ghost buddies0: Buddies, ghost index0: Index, ghost links0: LinkMap, ghost contactIds: set<Id>,
                       ghost groups0: Groups,
                       ghost fit: bool)
      returns (next: Option<Id>, gone: bool, ghost kept': seq<Id>)
      requires Reindexing(c, g0, g, s, k, kept, kids0, buddies0, index0, links0, contactIds, groups0) && k < |s|
        && b == s[k]
      requires g0 in kids0 && b !in s[..k] && g0 != g
      requires fit ==>
        && HalfIndexed(g, s, k, kept, buddies0, index0) && IndexAs(cfg, index0, buddies0, HomesOf(links0, buddies0))
        && AllAt(HomesOf(links0, buddies0), s, g0) && b in buddies0
        && (buddies0[b].name == "" ==> KeyOf(cfg, buddies0[b], g) !in index0)
      modifies `links, `kids, `kinds, `contacts, `groups, `buddies, `index
      ensures next == Here(s, k + 1) && (kept' == kept + [b] || kept' == kept) && b in buddies0
      ensures buddies0[b].name == "" ==> kept' == kept + [b]
      ensures old(Beside(c)) && old(Over(c)) == Lost(buddies0, s, k, kept) ==>
        if gone then OnlineOk() <==> Lost(buddies0, s, k + 1, kept') == 0
          else Beside(c) && Over(c) == Lost(buddies0, s, k + 1, kept')
      ensures !gone ==> Reindexing(c, g0, g, s, k + 1, kept', kids0, buddies0, index0, links0, contactIds, groups0)
      ensures gone ==>
        && kept' == [] && k + 1 == |s| && Valid() && SameNames(groups0, groups) && contacts.Keys == contactIds - {c}
        && kids == kids0[g0 := Drop(kids0[g0], c)] - {c} && buddies == BuddiesMix(buddies0, s, k + 1, kept')
        && links.Keys <= links0.Keys && forall m | m in links :: links[m].parent == links0[m].parent
      ensures fit ==> HalfIndexed(g, s, k + 1, kept', buddies0, index0)
    {
      hide OkState, OnlineState, OnlineBeside, OnlineExcess, UpIsLive, Lost, Pending, KidsMix, BuddiesMix, Drop,
           Members, SameNames, IndexAs, HomesOf, Survivors, Rehomed, AllAt, Shrunk, KeyOf, Less;
      MixAt(kids0, c, kept, s, k);
      NextInTurn(c, g0, kept + s[k..], |kept|);
      TurnAt(kept, s, k);
      HomesNow(links0, buddies0, s, k, kept);
      MixRecords(buddies0, s, k, kept);
      if fit {
        TurnIndex(cfg, index0, buddies0, HomesOf(links0, buddies0), index, buddies, HomesOf(links, buddies), s, k, kept,
                  g0, g);
      }
      NotKept(kept, s, k);
      LostNext(buddies0, s, k, kept);
      next := links[b].next;
      var stay;
      stay, gone := ReindexOne(c, g0, g, b, s, k, kept, kids0, buddies0, index0, links0, contactIds, groups0);
      LessIs(old(index), {KeyOf(cfg, old(buddies[b]), g0)});
      LessIs(Less(old(index), {KeyOf(cfg, old(buddies[b]), g0)}), {KeyOf(cfg, old(buddies[b]), g0)});
      LessIs(old(buddies), {b});
      kept' := if stay then kept + [b] else kept;
      if !stay {
        HomesGone(old(links), old(buddies), b);
      }
    }

    /** Re-keys the buddies of a contact for the group it goes to, deleting those that are there already. */
    method Reindex(c: Id, g0: Id, g: Id) returns (gone: bool, ghost kept: seq<Id>)
      requires Valid() && c in contacts && c in links && links[c].parent == Some(g0) && g0 != g && c in kids
      modifies `links, `kids, `kinds, `contacts, `groups, `buddies, `index
      ensures g0 in old(kids) && Valid() && SameNames(old(groups), groups)
      ensures !gone ==>
        Reindexing(c, g0, g, old(kids[c]), |old(kids[c])|, kept, old(kids), old(buddies), old(index), old(links),
                   old(contacts).Keys, old(groups))
      ensures gone ==>
        kept == [] && contacts.Keys == old(contacts).Keys - {c} && kids == old(kids)[g0 := Drop(old(kids[g0]), c)] - {c}
      ensures buddies == BuddiesMix(old(buddies), old(kids[c]), |old(kids[c])|, kept)
      ensures links.Keys <= old(links).Keys && forall m | m in links :: links[m].parent == old(links)[m].parent
      ensures forall b | b in old(kids[c]) && b in old(buddies) && old(buddies)[b].name == "" :: b in kept
      ensures gone ==> NamelessFree(cfg, old(buddies), old(index), old(kids[c]), g)
      ensures old(OnlineOk()) ==>
        if gone then OnlineOk() <==> NoneLost(old(buddies), old(kids[c]), kept)
        else Beside(c) && (Over(c) == 0 <==> NoneLost(old(buddies), old(kids[c]), kept))
      ensures old(Indexed()) && NamelessFree(cfg, old(buddies), old(index), old(kids[c]), g) ==>
        kept == Survivors(cfg, old(buddies), old(index), old(kids[c]), g)
        && if gone then Indexed() else IndexAs(cfg, index, buddies, Rehomed(HomesOf(links, buddies), Members(kept), g))
    {
      hide OkState, OnlineState, OnlineBeside, OnlineExcess, UpIsLive, Lost, NoneLost, Pending, KidsMix, BuddiesMix,
           Drop, Members, SameNames, IndexAs, HomesOf, Survivors, Rehomed, AllAt, KeyOf;
      ghost var s, k := kids[c], 0;
      gone, kept := false, [];
      ContactAtHome(c, g0, s);
      MixStart(kids, c, s, buddies);
      SameGroupNames(groups);
      ReindexStart(s, g);
      OverIs(c);
      LostStart(buddies, s);
      ghost var fit := Indexed() && NamelessFree(cfg, buddies, index, s, g);
      var bnode := links[c].child;
      while bnode.Some?
        invariant k <= |s| && bnode == Here(s, k)
        invariant Reindexing(c, g0, g, s, k, kept, old(kids), old(buddies), old(index), old(links), old(contacts).Keys,
                             old(groups))
        invariant old(OnlineOk()) ==> Beside(c) && Over(c) == Lost(old(buddies), s, k, kept)
        invariant fit ==> HalfIndexed(g, s, k, kept, old(buddies), old(index))
        invariant forall b | b in s[..k] && b in old(buddies) && old(buddies)[b].name == "" :: b in kept
        decreases |s| - k
      {
        FirstTime(s, k);
        bnode, gone, kept := ReindexTurn(c, g0, g, bnode.value, s, k, kept, old(kids), old(buddies), old(index),
                                         old(links),
                                         old(contacts).Keys, old(groups), fit);
        k := k + 1;
        if gone {
          break;
        }
      }
      assert s[..k] == s;
      LostNone(old(buddies), s, kept);
      ReindexEnd(g);
    }

    lemma ReindexEnd(g: Id)
      ensures IndexAs(cfg, index, buddies, Rehomed(HomesOf(links, buddies), Members([]), g)) ==> Indexed()
    {
      hide IndexAs, HomesOf;
      RehomedStart(HomesOf(links, buddies), g);
      assert Members([]) == {};
    }

    lemma ReindexStart(s: seq<Id>, g: Id)
      ensures Indexed() ==> IndexAs(cfg, index, buddies, Rehomed(HomesOf(links, buddies), Members([]), g))
      ensures Survivors(cfg, buddies, index, s[..0], g) == []
    {
      hide IndexAs, HomesOf;
      RehomedStart(HomesOf(links, buddies), g);
      assert Members([]) == {};
    }

    /** Where the buddies of a contact are after it was put into `g`. */
    lemma PutHomes(c: Id, g: Id, links0: LinkMap)
      requires Valid() && c in contacts && c in kids && c in links && links[c].parent == Some(g)
      requires links.Keys == links0.Keys && forall m | m in links0 && m != c :: links[m].parent == links0[m].parent
      requires kids[c] == [] || (c in links0 && links0[c].parent.Some?)
      ensures HomesOf(links, buddies) == Rehomed(HomesOf(links0, buddies), Members(kids[c]), g)
    {
      hide Tree, Records, HomesOf, Rehomed, Members;
      HomesMoved(kinds, links0, links, root, top, kids, groups, contacts, buddies, chats, nextId, c, g);
    }

    /** A contact that is in no group has no buddies; those of one in `g` are at home there. */
    lemma ContactHomes(c: Id, g: Id)
      requires Valid() && c in contacts && c in links && (links[c].parent.Some? ==> links[c].parent == Some(g))
      ensures c in kids && (links[c].parent.None? ==> kids[c] == [])
      ensures forall b | b in kids[c] && b in HomesOf(links, buddies) :: HomesOf(links, buddies)[b] == g
    {
      hide Tree, Records;
      ContactLinks(c);
      if links[c].parent.Some? {
        ContactAtHome(c, g, kids[c]);
      } else {
        BuddyKind(kinds, groups, contacts, buddies, chats, nextId, c);
        NewIsLoose(kinds, links, root, top, kids, {}, c);
      }
    }

    /** `gaim_blist_add_contact` for a contact that stays in its group, or was in none. */
    method PutContact(c: Id, g: Id, node: Option<Id>)
      requires Valid() && c in contacts && c in links && g in top && node != Some(c)
      requires links[c].parent.Some? ==> links[c].parent == Some(g)
      requires node.Some? ==>
        node.value in links && links[node.value].parent == Some(g) && g in kids && node.value in kids[g]
      modifies `links, `kids, `groups
      ensures Valid() && (old(OnlineOk()) ==> OnlineOk()) && (old(Indexed()) ==> Indexed())
      ensures g in old(kids) && kids == Placed(old(kids), old(links[c].parent), c, g, node)
      ensures SameNames(old(groups), groups) && links.Keys == old(links).Keys && links[c].parent == Some(g)
      ensures forall m | m in links && m != c :: links[m].parent == old(links)[m].parent
    {
      hide OkState, OnlineState, IndexAs, HomesOf, Rehomed, Members, SameNames, Placed;
      ContactHomes(c, g);
      InTop(g);
      ListOf(c, g);
      SameHomes(HomesOf(links, buddies), kids[c], g);
      PutNode(c, g, node);
      PlacedKeeps(old(kids), old(links[c].parent), c, g, node);
      PutHomes(c, g, old(links));
    }

    lemma ListOf(c: Id, g: Id)
      requires Valid() && c in contacts && g in top
      ensures c != g && (c in links && links[c].parent.Some? ==> c != links[c].parent.value)
    {
      hide Shape;
      if c in links && links[c].parent.Some? {
        ContactAtHome(c, links[c].parent.value, kids[c]);
      }
    }

    /** What the index being right in the end says of the buddies without a name. */
    lemma MoveJudged(c: Id, s: seq<Id>, kept: seq<Id>, g0: Id, g: Id, links0: LinkMap, links1: LinkMap,
                     buddies0: Buddies, index0: Index)
      requires Valid() && c in contacts && c in kids && kids[c] == kept && c in links && links[c].parent == Some(g)
        && g0 != g
      requires Shrunk(HomesOf(links1, buddies), HomesOf(links0, buddies0), buddies, buddies0, s)
      requires buddies == BuddiesMix(buddies0, s, |s|, kept) && AllAt(HomesOf(links0, buddies0), s, g0)
        && (forall b | b in kept :: b in s)
      requires HomesOf(links, buddies) == Rehomed(HomesOf(links1, buddies), Members(kept), g)
      requires forall b | b in s && b in buddies0 && buddies0[b].name == "" :: b in kept
      ensures IndexAs(cfg, index0, buddies0, HomesOf(links0, buddies0)) && Indexed() ==>
        NamelessFree(cfg, buddies0, index0, s, g)
    {
      hide Tree, Records, IndexAs, NamelessFree, HomesOf;
      ContactAtHome(c, g, kept);
      MixRecords(buddies0, s, |s|, kept);
      if IndexAs(cfg, index0, buddies0, HomesOf(links0, buddies0)) && Indexed() {
        NamelessClash(cfg, index0, buddies0, HomesOf(links0, buddies0), index, buddies, HomesOf(links, buddies), s,
                      kept, g0, g);
      }
    }

    /** `gaim_blist_add_contact` for a contact that goes from `g0` to `g`: the buddies whose key is taken there
        are deleted, with the contact if they were all it had. */
    method MoveContact(c: Id, g0: Id, g: Id, node: Option<Id>) returns (gone: bool, ghost kept: seq<Id>)
      requires Valid() && c in contacts && c in links && links[c].parent == Some(g0) && g0 != g && c in kids && g in top
        && node != Some(c)
      requires node.Some? ==>
        (node.value in contacts || node.value in chats) && node.value in links && links[node.value].parent == Some(g)
      modifies `links, `kids, `kinds, `contacts, `groups, `buddies, `index
      ensures Valid() && SameNames(old(groups), groups)
      ensures contacts.Keys == if gone then old(contacts).Keys - {c} else old(contacts).Keys
      ensures gone ==> kept == [] && g0 in old(kids) && kids == old(kids)[g0 := Drop(old(kids[g0]), c)] - {c}
      ensures !gone ==>
        kids == Placed(old(kids)[c := kept], Some(g0), c, g, node) && c in links && links[c].parent == Some(g)
      ensures buddies == BuddiesMix(old(buddies), old(kids[c]), |old(kids[c])|, kept)
      ensures links.Keys <= old(links).Keys && forall m | m in links && m != c ::
        links[m].parent == old(links)[m].parent
      ensures old(OnlineOk()) ==> (OnlineOk() <==> NoneLost(old(buddies), old(kids[c]), kept))
      ensures old(Indexed()) ==> (Indexed() <==> NamelessFree(cfg, old(buddies), old(index), old(kids[c]), g))
      ensures old(Indexed()) && NamelessFree(cfg, old(buddies), old(index), old(kids[c]), g) ==>
        kept == Survivors(cfg, old(buddies), old(index), old(kids[c]), g)
    {
      hide OkState, OnlineState, OnlineBeside, UpIsLive, OnlineExcess, NoneLost, BuddiesMix, Drop, Members, SameNames,
           IndexAs, HomesOf, Survivors, Rehomed, Placed, KidsMix, Shrunk, NamelessFree, AllAt;
      ListOf(c, g);
      ContactAtHome(c, g0, kids[c]);
      gone, kept := Reindex(c, g0, g);
      if gone {
        return;
      }
      ghost var kids1, links1, groups1, over := kids, links, groups, Over(c);
      OverIs(c);
      HomesNow(old(links), old(buddies), old(kids[c]), |old(kids[c])|, kept);
      AllMixed(old(kids), c, kept, old(kids[c]));
      ListOf(c, g);
      if node.Some? {
        NodeKnown(node.value);
        InGroup(node.value, g);
      }
      PutNode(c, g, node);
      PlacedKeeps(kids1, Some(g0), c, g, node);
      SameExcess(contacts, kids1, kids, buddies, c);
      OverIs(c);
      PutHomes(c, g, links1);
      MoveJudged(c, old(kids[c]), kept, g0, g, old(links), links1, old(buddies), old(index));
      SameNamesChain(old(groups), groups1, groups);
    }

    lemma NodeKnown(n: Id)
      requires Valid() && (n in contacts || n in chats)
      ensures n in links
    {
      hide Tree, Records;
      BuddyKind(kinds, groups, contacts, buddies, chats, nextId, n);
      TreeKeys(kinds, links, root, top, kids, {}, n);
    }

    /** `gaim_blist_add_contact` once the group is known. */
    method PlaceContact(c: Id, g: Id, node: Option<Id>) returns (ghost kept: seq<Id>)
      requires Valid() && c in contacts && c in links && c in kids && g in top && g in groups && node != Some(c)
      requires node.Some? ==>
        (node.value in contacts || node.value in chats) && node.value in links && links[node.value].parent == Some(g)
      requires node.Some? ==> g in kids && node.value in kids[g]
      modifies `links, `kids, `kinds, `groups, `contacts, `buddies, `index
      ensures Valid() && SameNames(old(groups), groups) && (old(TimersOk()) ==> TimersOk())
      ensures var from := old(links[c].parent);
        && (from.None? || from == Some(g) ==>
              kept == old(kids[c]) && kids == Placed(old(kids), from, c, g, node)
              && contacts == old(contacts) && buddies == old(buddies) && index == old(index)
              && SameParentsBut(old(links), links, c) && HasParent(links, c, g))
        && (from.Some? && from != Some(g) ==>
              && buddies == BuddiesMix(old(buddies), old(kids[c]), |old(kids[c])|, kept)
              && (c in contacts ==>
                  kids == Placed(old(kids)[c := kept], from, c, g, node) && contacts.Keys == old(contacts).Keys)
              && (c !in contacts ==> kept == [] && contacts.Keys == old(contacts).Keys - {c})
              && (c !in contacts ==>
                  from.value in old(kids) && kids == old(kids)[from.value := Drop(old(kids)[from.value], c)] - {c})
              && (old(Indexed()) && NamelessFree(cfg, old(buddies), old(index), old(kids[c]), g) ==>
                    kept == Survivors(cfg, old(buddies), old(index), old(kids[c]), g)))
      ensures node.None? && c in contacts ==> g in kids && kids[g] != [] && kids[g][0] == c
      ensures old(OnlineOk()) ==> (OnlineOk() <==> NoneLost(old(buddies), old(kids[c]), kept))
      ensures old(Indexed()) ==>
        if Leaves(old(links), c, g) then Indexed() <==> NamelessFree(cfg, old(buddies), old(index), old(kids[c]), g)
          else Indexed()
    {
      hide OkState, OnlineState, Pending, BuddiesMix, Drop, Members, SameNames, IndexAs, HomesOf, Survivors, Rehomed,
           Placed;
      kept := kids[c];
      InTop(g);
      ListOf(c, g);
      if links[c].parent.Some? && links[c].parent.value != g {
        var gone;
        gone, kept := MoveContact(c, links[c].parent.value, g, node);
        PendingMix(old(buddies), old(kids[c]), |old(kids[c])|, kept);
        if node.None? && !gone {
          PlacedFirst(old(kids)[c := kept], old(links[c].parent), c, g);
        }
      } else {
        PutContact(c, g, node);
        if node.None? {
          PlacedFirst(old(kids), old(links[c].parent), c, g);
        }
      }
    }

    /** `gaim_blist_add_contact` */
    method AddContact(c: Id, group: Option<Id>, node: Option<Id>) returns (ghost kept: seq<Id>, ghost g: Id)
      requires Valid() && c in contacts && c in links && c in kids
      requires node.Some? ==>
        (node.value in contacts || node.value in chats) && node.value in links && links[node.value].parent.Some?
      requires group.Some? ==> group.value in top
      modifies `root, `links, `top, `kids, `kinds, `groups, `contacts, `buddies, `chats, `index, `nextId
      ensures Valid() && chats == old(chats)
      ensures node == Some(c) ==>
        kids == old(kids) && contacts == old(contacts) && buddies == old(buddies) && index == old(index)
      ensures node != Some(c) ==>
        && g in groups && (node.Some? ==> old(links)[node.value].parent == Some(g))
          && (node.None? && group.Some? ==> group == Some(g))
        && (node.None? && group.None? ==> groups[g].name == "Buddies" && g in top)
      ensures node != Some(c) && (node.Some? || group.Some?) ==>
        var from := old(links[c].parent);
        && SameNames(old(groups), groups) && top == old(top)
        && (from.None? || from == Some(g) ==>
              kept == old(kids[c]) && kids == Placed(old(kids), from, c, g, node)
              && contacts == old(contacts) && buddies == old(buddies) && index == old(index)
              && SameParentsBut(old(links), links, c) && HasParent(links, c, g))
        && (from.Some? && from != Some(g) ==>
              && buddies == BuddiesMix(old(buddies), old(kids[c]), |old(kids[c])|, kept)
              && (c in contacts ==>
                  kids == Placed(old(kids)[c := kept], from, c, g, node) && contacts.Keys == old(contacts).Keys)
              && (c !in contacts ==> kept == [] && contacts.Keys == old(contacts).Keys - {c})
              && (c !in contacts ==>
                  from.value in old(kids) && kids == old(kids)[from.value := Drop(old(kids)[from.value], c)] - {c})
              && (old(Indexed()) && NamelessFree(cfg, old(buddies), old(index), old(kids[c]), g) ==>
                    kept == Survivors(cfg, old(buddies), old(index), old(kids[c]), g)))
      ensures node.None? && group.None? && c in contacts ==> g in kids && kids[g] != [] && kids[g][0] == c
      ensures old(TimersOk()) ==> TimersOk()
      ensures old(OnlineOk()) ==> (OnlineOk() <==> NoneLost(old(buddies), old(kids[c]), kept))
      ensures old(Indexed()) ==>
        if node != Some(c) && Leaves(old(links), c, g)
        then Indexed() <==> NamelessFree(cfg, old(buddies), old(index), old(kids[c]), g)
        else Indexed()
    {
      hide OkState, OnlineState, Pending, BuddiesMix, Drop, Members, SameNames, IndexAs, HomesOf, Survivors, Rehomed,
           Placed;
      kept, g := kids[c], c;
      if node == Some(c) {
        return;
      }
      ContactLinks(c);
      var place := TargetGroup("Buddies", group, node);
      g := place;
      ContactLinks(c);
      KidsOfOther(old(kids), kids, c, g);
      ghost var groups1 := groups;
      kept := PlaceContact(c, place, node);
      NameStays(groups1, groups, g);
    }

    // ----- buddies

    /** A loose buddy is linked into a contact, after `node` or first, and counted. */
    method LinkBuddy(b: Id, c: Id, g: Id, node: Option<Id>)
      requires b in buddies && c in contacts && HasParent(links, c, g) && c in kids
      requires node.Some? ==> node.value in kids[c]
      requires Ok({b})
      modifies `links, `kids, `contacts, `groups
      ensures OkBut({}, c) && (old(OnlineOk()) && !IsLeaving(buddies, b) ==> OnlineOk())
      ensures JoinedKids(old(kids), kids, c, node, b) && JoinedRecord(old(contacts), contacts, c, buddies, connected, b)
      ensures UpBy(buddies, connected, b) == 0 ==> SameOnline(old(groups), groups)
      ensures SameNames(old(groups), groups) && SameParentsBut(old(links), links, b) && HasParent(links, b, c)
    {
      hide Tree, Records, CurTally, OnlineTally, Totals, Bests, BestsBut, UpIsLive, Scores, With, After, IsOnline,
           SameNames, ContactPlus, GroupPlus, SameOnline;
      JoinReady(b, c, g, node);
      ghost var i := After(kids[c], node);
      AfterFits(kids[c], node);
      Arrives(cfg, kinds, links, root, top, kids, {b}, groups, contacts, buddies, chats, nextId, connected, c, g, i, b);
      PlusNames(groups, g, contacts[c], buddies[b].account in connected, IsOnline(buddies[b], connected));
      SameOnlinePlus(groups, g, contacts[c], buddies[b].account in connected);
      if node.Some? {
        LinkAfter(b, node.value, c, {b});
      } else {
        LinkFirst(b, c, {b});
      }
      assert {b} - {b} == {};
      JoinCounts(b, c, g);
    }

    /** A loose buddy is put into a contact, after `node` or first, counted and indexed. */
    method JoinContact(b: Id, c: Id, g: Id, node: Option<Id>)
      requires b in buddies && c in contacts && HasParent(links, c, g) && c in kids
      requires node.Some? ==> node.value in kids[c]
      requires Ok({b})
      modifies `links, `kids, `contacts, `groups, `index
      ensures Valid() && (old(OnlineOk()) && !IsLeaving(buddies, b) ==> OnlineOk())
      ensures UpBy(buddies, connected, b) == 0 ==> SameOnline(old(groups), groups)
      ensures JoinedKids(old(kids), kids, c, node, b)
        && OnlyContact(old(contacts), contacts, c, UpBy(buddies, connected, b))
      ensures SameNames(old(groups), groups) && SameParentsBut(old(links), links, b) && HasParent(links, b, c)
      ensures IndexedAt(cfg, buddies, old(index), index, b, g)
    {
      hide OnlineTally, OnlineBeside, OnlineExcess, UpIsLive, OkState, OnlineState, OkButState, IsOnline, KeyOf,
           SameNames, SameOnline, UpBy, SameParentsBut, OnlyContact, JoinedKids, JoinedRecord, HasParent;
      LinkBuddy(b, c, g, node);
      ghost var contacts1 := contacts;
      index := index[KeyOf(cfg, buddies[b], g) := b];
      JoinedThenBest(old(contacts), contacts, c, buddies, connected, b, None);
      Recompute(c, {});
      JoinedThenBest(old(contacts), contacts1, c, buddies, connected, b, contacts[c].priority);
    }

    lemma JoinReady(b: Id, c: Id, g: Id, node: Option<Id>)
      requires b in buddies && c in contacts && HasParent(links, c, g) && c in kids
      requires Ok({b})
      ensures b in kinds && c in kinds && kinds[c] == ContactNode && Holds(kinds[c], kinds[b]) && c !in {b}
      ensures node.Some? && node.value in kids[c] ==> node.value in kinds && HasParent(links, node.value, c)
    {
      hide Tree, Records;
      BuddyKind(kinds, groups, contacts, buddies, chats, nextId, b);
      BuddyKind(kinds, groups, contacts, buddies, chats, nextId, c);
      KidsKnown(kinds, links, root, top, kids, {b}, c);
      ChildOf(kinds, links, root, top, kids, {b}, c);
    }

    /** The first half of moving a buddy: it leaves its contact, which goes if it is empty, and its key if it changes
        groups. */
    method MoveOut(b: Id, c0: Id, g0: Id, g: Id)
      requires b in buddies && c0 in contacts && HasParent(links, b, c0) && HasParent(links, c0, g0)
      requires Valid()
      modifies `links, `kids, `kinds, `contacts, `groups, `buddies, `index
      ensures Ok({b}) && (old(OnlineOk()) && !IsLeaving(buddies, b) ==> OnlineOk())
      ensures buddies == old(buddies) && SameNames(old(groups), groups)
      ensures c0 in old(kids) && g0 in old(kids) && b in old(kids)[c0] && kids == Removed(old(kids), g0, c0, b)
      ensures LeftContact(old(contacts), contacts, c0, UpBy(buddies, connected, b), old(kids)[c0] == [b])
      ensures FewerLinks(old(links), links) && (UpBy(buddies, connected, b) == 0 ==> SameOnline(old(groups), groups))
      ensures index == if g0 != g then Less(old(index), {KeyOf(cfg, buddies[b], g0)}) else old(index)
    {
      hide OnlineTally, OnlineBeside, OnlineExcess, UpIsLive, OkState, OkButState, OnlineState, Drop, IsOnline, KeyOf,
           SameNames, Less, LeftContact, Removed, ContactLess, SameOnline;
      OutPlace(b, c0, g0);
      ghost var live, up := buddies[b].account in connected, IsOnline(buddies[b], connected);
      OneRenamed(groups, g0, GroupLess(groups[g0], contacts[c0], live, up));
      RemovedInSteps(kids, g0, c0, b);
      SameOnlineLess(groups, g0, contacts[c0], live);
      TakeOut(b, c0, g0, false, {});
      OverIs(c0);
      assert {} + {b} == {b};
      if g0 != g {
        index := Less(index, {KeyOf(cfg, buddies[b], g0)});
      }
      ChildNow(c0, {b});
      if links[c0].child.None? {
        RemoveEmptyContact(c0, {b});
        LeftGone(old(contacts), c0, ContactLess(old(contacts)[c0], live, up), UpBy(buddies, connected, b));
      } else {
        Recompute(c0, {b});
        LeftStays(old(contacts), c0, live, up, contacts[c0].priority);
      }
    }

    lemma OutPlace(b: Id, c0: Id, g0: Id)
      requires b in buddies && c0 in contacts && HasParent(links, b, c0) && HasParent(links, c0, g0)
      requires Valid()
      ensures c0 in kids && b in kids[c0] && g0 in kids && g0 in groups && c0 != g0
      ensures Drop(kids[c0], b) == [] <==> kids[c0] == [b]
    {
      hide Tree, Records, Drop;
      BuddyPlace(kinds, links, root, top, kids, {}, groups, contacts, buddies, chats, nextId, b, c0);
      DropOne(kids[c0], b, kinds, links, root, top, kids, {}, c0);
    }

    lemma ChildNow(c: Id, loose: set<Id>)
      requires OkBut(loose, c) && c in kids
      ensures c in links && links[c].child == First(kids[c])
    {
      hide Tree, Records;
      ChildOf(kinds, links, root, top, kids, loose, c);
    }

    /** The index after a buddy has arrived. */
    lemma ArrivedIndex(b: Id, c: Id, g: Id, links0: LinkMap, links1: LinkMap, index0: Index)
      requires b in buddies && c in contacts && HasParent(links, b, c) && HasParent(links, c, g)
      requires FewerLinks(links0, links1) && SameParentsBut(links1, links, b)
      requires Valid()
      requires var home := HomesOf(links0, buddies); var k := KeyOf(cfg, buddies[b], g);
        index == (if b in home && home[b] != g then Less(index0, {KeyOf(cfg, buddies[b], home[b])}) else index0)[k := b]
      ensures HomesOf(links, buddies) == HomesOf(links0, buddies)[b := g]
      ensures IndexAs(cfg, index0, buddies, HomesOf(links0, buddies)) ==>
        (Indexed() <==> KeyFree(cfg, buddies, index0, b, g))
    {
      hide Tree, Records, IndexAs, HomesOf, KeyOf, FewerLinks, SameParentsBut;
      TwoSteps(links0, links1, links, b);
      ContactNoBuddy(c);
      HomesArrived(kinds, links0, links, root, top, kids, groups, contacts, buddies, chats, nextId, c, g, b);
      if IndexAs(cfg, index0, buddies, HomesOf(links0, buddies)) {
        IndexArrives(cfg, index0, buddies, HomesOf(links0, buddies), b, g);
      }
    }

    lemma ContactNoBuddy(c: Id)
      requires Valid() && c in contacts
      ensures c !in buddies && c !in groups
    {
      hide Tree;
    }

    lemma ContactLinked(c: Id, loose: set<Id>)
      requires Ok(loose) && c in contacts
      ensures c in links && c in kids
    {
      hide Tree, Records;
      ContactHere(kinds, links, root, top, kids, loose, groups, contacts, buddies, chats, nextId, c);
    }

    /** What `Valid` says of a buddy and the contact it goes to. */
    lemma PlaceReady(b: Id, c: Id, g: Id, node: Option<Id>)
      requires b in buddies && c in contacts && HasParent(links, c, g)
      requires Valid()
      ensures b in links && c in kids && c != g && NoDups(kids[c]) && c !in buddies && c !in groups
      ensures links[b].parent.None? ==> Ok({b}) && b !in HomesOf(links, buddies) && KidsOut(kids, links, b) == kids
      ensures links[b].parent.Some? ==>
        var c0 := links[b].parent.value;
        && c0 in contacts && c0 in kids && b in kids[c0] && c0 in links && links[c0].parent.Some?
        && links[c0].parent.value in kids
        && b in HomesOf(links, buddies) && HomesOf(links, buddies)[b] == links[c0].parent.value
        && c != links[c0].parent.value
        && KidsOut(kids, links, b) == Removed(kids, links[c0].parent.value, c0, b) && c0 != links[c0].parent.value
    {
      hide Tree, Records, Removed;
      ContactNoBuddy(c);
      BuddyKind(kinds, groups, contacts, buddies, chats, nextId, b);
      TreeKeys(kinds, links, root, top, kids, {}, b);
      ContactPlace(kinds, links, root, top, kids, {}, groups, contacts, buddies, chats, nextId, c, g);
      ListNoDupsOf(kinds, links, root, top, kids, {}, c);
      if links[b].parent.None? {
        NewIsLoose(kinds, links, root, top, kids, {}, b);
        assert {} + {b} == {b};
      } else {
        BuddyPlace(kinds, links, root, top, kids, {}, groups, contacts, buddies, chats, nextId, b,
                   links[b].parent.value);
      }
    }

    /** A buddy goes to a contact, after `node` or first, from where it is, if it is anywhere. The online counts
        stay right if and only if it is not signing off or stays in its contact, and the index if and only if
        nobody else in the group has its key. */
    method PlaceBuddy(b: Id, c: Id, g: Id, node: Option<Id>)
      requires b in buddies && c in contacts && HasParent(links, c, g) && c in kids
      requires node.Some? ==> node.value in kids[c] && node != Some(b)
      requires HasParent(links, b, c) ==> kids[c] != [b]
      requires Valid()
      modifies `links, `kids, `kinds, `contacts, `groups, `buddies, `index
      ensures Valid() && buddies == old(buddies) && SameNames(old(groups), groups)
      ensures c in contacts && HasParent(links, b, c) && HasParent(links, c, g)
      ensures kids == Rehoused(old(kids), old(links), b, c, node)
      ensures !HasParent(old(links), b, c) ==> JoinedList(old(kids), kids, c, node, b)
      ensures !HasParent(old(links), b, c) ==>
        contacts[c].online == old(contacts)[c].online + UpBy(buddies, connected, b)
      ensures HomesOf(links, buddies) == HomesOf(old(links), buddies)[b := g]
      ensures old(Indexed()) ==> (Indexed() <==> KeyFree(cfg, buddies, old(index), b, g))
      ensures old(OnlineOk()) ==> (OnlineOk() <==> !IsLeaving(buddies, b) || HasParent(old(links), b, c))
    {
      hide OkState, OnlineTally, Drop, With, After, Removed, IsOnline, KeyOf, SameNames, SameOnline, HomesOf, IndexAs,
           FewerLinks, SameParentsBut, LeftContact, OnlyContact, KidsOut, UpBy, UpIsLive, IsLeaving;
      PlaceReady(b, c, g, node);
      if links[b].parent.Some? {
        MoveBuddy(b, c, g, node);
      } else {
        AllLinks(links);
        JoinContact(b, c, g, node);
        OnlyKeys(old(contacts), contacts, c, UpBy(buddies, connected, b));
        StillParent(old(links), links, c, g, b);
        ArrivedIndex(b, c, g, old(links), old(links), old(index));
        JoinedListIs(old(kids), old(kids), kids, c, node, b);
        if old(OnlineOk()) && IsLeaving(buddies, b) {
          LeavingAddsNothing(buddies, connected, b);
          LeavingGoes(old(contacts), old(groups), old(kids), buddies, chats, connected, old(contacts), contacts, groups,
                      old(kids), kids, c, b, node);
        }
      }
    }

    /** `PlaceBuddy` for a buddy that is in the list. */
    method MoveBuddy(b: Id, c: Id, g: Id, node: Option<Id>)
      requires b in buddies && c in contacts && HasParent(links, c, g) && c in kids
      requires node.Some? ==> node.value in kids[c] && node != Some(b)
      requires HasParent(links, b, c) ==> kids[c] != [b]
      requires b in links && links[b].parent.Some?
      requires Valid()
      modifies `links, `kids, `kinds, `contacts, `groups, `buddies, `index
      ensures Valid() && buddies == old(buddies) && SameNames(old(groups), groups)
      ensures c in contacts && HasParent(links, b, c) && HasParent(links, c, g)
      ensures kids == Rehoused(old(kids), old(links), b, c, node)
      ensures !HasParent(old(links), b, c) ==> JoinedList(old(kids), kids, c, node, b)
      ensures !HasParent(old(links), b, c) ==>
        contacts[c].online == old(contacts)[c].online + UpBy(buddies, connected, b)
      ensures HomesOf(links, buddies) == HomesOf(old(links), buddies)[b := g]
      ensures old(Indexed()) ==> (Indexed() <==> KeyFree(cfg, buddies, old(index), b, g))
      ensures old(OnlineOk()) ==> (OnlineOk() <==> !IsLeaving(buddies, b) || HasParent(old(links), b, c))
    {
      hide OkState, OnlineTally, Drop, With, After, Removed, IsOnline, KeyOf, SameNames, SameOnline, HomesOf, IndexAs,
           FewerLinks, SameParentsBut, LeftContact, OnlyContact, KidsOut, UpBy, UpIsLive, IsLeaving;
      PlaceReady(b, c, g, node);
      var c0 := links[b].parent.value;
      var g0 := links[c0].parent.value;
      OutPlace(b, c0, g0);
      KidsOutAt(kids, g0, c0, b, c, node);
      RemovedInSteps(kids, g0, c0, b);
      MoveOut(b, c0, g0, g);
      LeftKeys(old(contacts), contacts, c0, UpBy(buddies, connected, b), old(kids)[c0] == [b], c);
      ContactLinked(c, {b});
      StillParentFewer(old(links), links, c, g);
      ghost var links1, groups1, kids1, contacts1 := links, groups, kids, contacts;
      JoinContact(b, c, g, node);
      OnlyKeys(contacts1, contacts, c, UpBy(buddies, connected, b));
      SameNamesChain(old(groups), groups1, groups);
      StillParent(links1, links, c, g, b);
      ArrivedIndex(b, c, g, old(links), links1, old(index));
      if c0 != c {
        JoinedListIs(old(kids), kids1, kids, c, node, b);
      }
      if old(OnlineOk()) && IsLeaving(buddies, b) {
        LeavingAddsNothing(buddies, connected, b);
        if c0 == c {
          LeavingStays(old(contacts), old(groups), old(kids), buddies, chats, connected, contacts1, contacts, groups1,
                       groups, kids1, kids, c, b, node);
        } else {
          LeavingGoes(old(contacts), old(groups), old(kids), buddies, chats, connected, contacts1, contacts, groups,
                      kids1, kids, c, b, node);
        }
      }
    }

    /** `gaim_blist_get_last_child` */
    method LastChild(p: Id) returns (n: Option<Id>)
      requires p in kids
      requires Valid()
      ensures n == if kids[p] == [] then None else Some(kids[p][|kids[p]| - 1])
      ensures n.Some? ==> HasParent(links, n.value, p)
    {
      hide OkState;
      ChildrenOf(p);
      n := links[p].child;
      if n.None? {
        return;
      }
      ghost var s, i := kids[p], 0;
      while links[n.value].next.Some?
        invariant i < |s| && n == Some(s[i])
        decreases |s| - i
      {
        n := links[n.value].next;
        i := i + 1;
      }
    }

    lemma ChildrenOf(p: Id)
      requires p in kids
      requires Valid()
      ensures p in links && links[p].child == Here(kids[p], 0)
      ensures forall i | 0 <= i < |kids[p]| ::
        HasParent(links, kids[p][i], p) && links[kids[p][i]].next == Here(kids[p], i + 1)
    {
      hide Records, Kinds, Homes;
      assert IsList(links, kids[p], Some(p));
    }

    /** The contact a buddy goes to: that of `node`, or the one given, or a new one at the end of the group given
        or of the one named "Buddies". */
    method TargetContact(contact: Option<Id>, group: Option<Id>, node: Option<Id>) returns (c: Id)
      requires node.Some? ==> node.value in buddies && node.value in links && links[node.value].parent.Some?
      requires contact.Some? ==>
        contact.value in contacts && contact.value in links && links[contact.value].parent.Some?
      requires group.Some? ==> group.value in top
      requires Valid()
      modifies `root, `links, `top, `kids, `kinds, `groups, `contacts, `buddies, `chats, `index, `nextId
      ensures Valid() && (old(OnlineOk()) ==> OnlineOk()) && (old(Indexed()) ==> Indexed())
      ensures buddies == old(buddies) && chats == old(chats) && MoreLinks(old(links), links)
      ensures c in contacts && c in kids && c in links && links[c].parent.Some?
      ensures node.Some? ==> HasParent(links, node.value, c) && node.value in kids[c]
      ensures node.None? && contact.Some? ==> c == contact.value
      ensures node.Some? || contact.Some? ==>
        kids == old(kids) && links == old(links) && contacts == old(contacts) && groups == old(groups)
          && top == old(top) && index == old(index)
      ensures node.None? && contact.None? ==>
        c !in old(contacts) && kids[c] == [] && c !in old(kids) && index == old(index)
      ensures node.None? && contact.None? && group.Some? ==> links[c].parent == group
      ensures node.None? && contact.None? && group.None? ==>
        links[c].parent.value in groups && groups[links[c].parent.value].name == "Buddies"
    {
      hide OkState, OnlineState, IndexAs, HomesOf, MoreLinks;
      SameLinks(links);
      if node.Some? {
        c := links[node.value].parent.value;
        NodeContact(node.value, c);
      } else if contact.Some? {
        c := contact.value;
        ContactLinks(c);
      } else {
        c := OwnContact(group);
      }
    }

    lemma NodeContact(n: Id, c: Id)
      requires n in buddies && HasParent(links, n, c)
      requires Valid()
      ensures c in contacts && c in kids && n in kids[c] && c in links && links[c].parent.Some?
    {
      hide Tree, Records;
      BuddyPlace(kinds, links, root, top, kids, {}, groups, contacts, buddies, chats, nextId, n, c);
    }

    /** A new contact at the end of a group. */
    method OwnContact(group: Option<Id>) returns (c: Id)
      requires group.Some? ==> group.value in top
      requires Valid()
      modifies `root, `links, `top, `kids, `kinds, `groups, `contacts, `buddies, `chats, `index, `nextId
      ensures Valid() && (old(OnlineOk()) ==> OnlineOk()) && (old(Indexed()) ==> Indexed())
      ensures buddies == old(buddies) && chats == old(chats) && MoreLinks(old(links), links) && index == old(index)
      ensures c in contacts && c in kids && c in links && links[c].parent.Some?
      ensures c !in old(contacts) && kids[c] == [] && c !in old(kids)
      ensures group.Some? ==> links[c].parent == group
      ensures group.None? ==> links[c].parent.value in groups && groups[links[c].parent.value].name == "Buddies"
    {
      hide OkState, OnlineState, IndexAs, HomesOf, MoreLinks, Placed, SameNames;
      var g: Id;
      if group.Some? {
        g := group.value;
      } else {
        g := ListedGroup("Buddies");
      }
      InTop(g);
      ghost var links1, groups1 := links, groups;
      c := NewNode(FreshContact);
      ContactLinks(c);
      InTop(g);
      var last := LastChild(g);
      ghost var kids2, links2, groups2 := kids, links, groups;
      if last.Some? {
        LastKind(last.value, g);
      }
      ghost var kept, place := AddContact(c, Some(g), last);
      OwnPlaced(old(links), links1, links2, links, c);
      ContactLinks(c);
      PlacedKeeps(kids2, None, c, g, last);
      NameStays(groups2, groups, g);
    }

    lemma LastKind(n: Id, g: Id)
      requires g in top && HasParent(links, n, g)
      requires Valid()
      ensures (n in contacts || n in chats) && n in links && links[n].parent.Some?
    {
      hide Shape, Records;
      TopList(kinds, links, root, top, kids, {}, groups, contacts, buddies, chats, nextId);
      BuddyKind(kinds, groups, contacts, buddies, chats, nextId, g);
      assert Home(kinds[n], links[n].parent, kids, n);
      KindRecord(kinds, groups, contacts, buddies, chats, nextId, n);
    }

    /** `gaim_blist_add_buddy`; a node that is not a buddy does not matter, but for the test at the start. Then the
        only buddy of the contact given must not be moved, as that would free the contact it goes to. */
    method AddBuddy(b: Id, contact: Option<Id>, group: Option<Id>, node: Option<Id>) returns (ghost c: Id)
      requires b in buddies && b in links
      requires node.Some? && node.value in buddies ==> node.value in links && links[node.value].parent.Some?
      requires contact.Some? ==>
        contact.value in contacts && contact.value in links && links[contact.value].parent.Some?
      requires group.Some? ==> group.value in top
      requires node.Some? && node.value !in buddies && contact.Some? && HasParent(links, b, contact.value) ==>
        contact.value in kids && kids[contact.value] != [b]
      requires Valid()
      modifies `root, `links, `top, `kids, `kinds, `groups, `contacts, `buddies, `chats, `index, `nextId
      ensures Valid() && buddies == old(buddies) && chats == old(chats) && (old(TimersOk()) ==> TimersOk())
      ensures AlreadyThere(old(links), b, contact, node) ==>
        kids == old(kids) && links == old(links) && contacts == old(contacts) && groups == old(groups)
          && index == old(index)
      ensures !AlreadyThere(old(links), b, contact, node) ==>
        var at := IfBuddy(buddies, node);
        && c in contacts && HasParent(links, b, c) && GroupOf(links, b).Some?
        && (at.Some? ==> HasParent(old(links), at.value, c))
        && (at.None? && contact.Some? ==> contact == Some(c))
        && (at.Some? || contact.Some? ==>
            SameNames(old(groups), groups) && kids == Rehoused(old(kids), old(links), b, c, at))
        && (at.Some? || contact.Some? ==> HasParent(old(links), c, GroupOf(links, b).value))
        && (at.Some? || contact.Some? ==>
            HomesOf(links, buddies) == HomesOf(old(links), buddies)[b := GroupOf(links, b).value])
        && ((at.Some? || contact.Some?) && !HasParent(old(links), b, c) ==>
              c in old(contacts) && contacts[c].online == old(contacts)[c].online + UpBy(buddies, connected, b))
        && (at.None? && contact.None? ==> c !in old(contacts) && c in kids && kids[c] == [b])
        && (at.None? && contact.None? && group.Some? ==> GroupOf(links, b) == group)
        && (at.None? && contact.None? && group.None? ==>
              GroupOf(links, b).value in groups && groups[GroupOf(links, b).value].name == "Buddies")
        && (old(Indexed()) ==> (Indexed() <==> KeyFree(cfg, buddies, old(index), b, GroupOf(links, b).value)))
        && (old(OnlineOk()) ==> (OnlineOk() <==> !IsLeaving(buddies, b) || HasParent(old(links), b, c)))
    {
      hide OkState, OnlineState, HomesOf, IndexAs, KeyFree, IsLeaving, Rehoused, SameNames, MoreLinks, JoinedList, UpBy,
           Pending;
      c := b;
      if node == Some(b) || (node.None? && links[b].parent.Some? && contact.Some? && links[b].parent == contact
                             && links[contact.value].child == Some(b)) {
        return;
      }
      var at := if node.Some? && node.value in buddies then node else None;
      var target := TargetContact(contact, group, at);
      c := target;
      var g := links[target].parent.value;
      MoreIsSame(old(links), links, b, target);
      TargetReady(b, target, contact, node, at, old(links), old(kids));
      ghost var kids1, groups1 := kids, groups;
      PlaceBuddy(b, target, g, at);
      GroupIs(links, b, target, g);
      if at.None? && contact.None? {
        JoinedAlone(kids1, kids, target, at, b);
        if group.None? {
          NameStays(groups1, groups, g);
        }
      }
    }

    lemma TargetReady(b: Id, c: Id, contact: Option<Id>, node: Option<Id>, at: Option<Id>, links0: LinkMap, kids0: Kids)
      requires c in contacts && c in kids && b in links && b in links0 && links[b].parent == links0[b].parent
      requires !AlreadyThere(links0, b, contact, node) && (at == node || at == None)
      requires at != node && contact.Some? && HasParent(links0, b, contact.value) ==>
        contact.value in kids0 && kids0[contact.value] != [b]
      requires at.Some? ==> at.value in kids[c]
      requires at.None? && contact.Some? ==> contact == Some(c) && links == links0 && kids == kids0
      requires at.None? && contact.None? ==> kids[c] == []
      requires Valid()
      ensures at != Some(b) && (HasParent(links, b, c) ==> kids[c] != [b])
      ensures at.None? && contact.None? ==> !HasParent(links, b, c)
    {
      hide Records, Kinds, Homes;
      if HasParent(links, b, c) {
        HomeNow(b, c);
        ChildrenOf(c);
      }
    }

    lemma HomeNow(b: Id, c: Id)
      requires HasParent(links, b, c) && c in kids
      requires Valid()
      ensures b in kids[c]
    {
      hide Records, Shape;
      assert Home(kinds[b], links[b].parent, kids, b);
    }

    /** The first `k` buddies `s` of one contact have come to place `i` of another, and nothing else has changed. */
    ghost predicate Merging(source: Id, target: Id, g0: Id, g: Id, s: seq<Id>, i: nat, k: nat, kids0: Kids,
                            groups0: Groups, buddies0: Buddies)
      reads this
    {
      && target in kids0 && i <= |kids0[target]| && k <= |s| && g0 in kids0 && g in kids0
      && source in kids0 && kids0[source] == s && target in kids0[g] && source in kids0[g0]
      && source != target && source !in groups0 && target !in groups0 && g0 in groups0 && g in groups0
      && kids == Merged(kids0, source, target, g0, s, i, k) && SameNames(groups0, groups) && buddies == buddies0
      && Valid()
    }

    /** What follows for the next buddy. */
    lemma MergeReady(source: Id, target: Id, g0: Id, g: Id, s: seq<Id>, i: nat, k: nat, kids0: Kids, groups0: Groups,
                     buddies0: Buddies, prev: Option<Id>)
      requires Merging(source, target, g0, g, s, i, k, kids0, groups0, buddies0) && k < |s|
      requires prev == if k > 0 then Some(s[k - 1]) else Before(kids0[target], i)
      ensures s[k] in buddies && HasParent(links, s[k], source) && HasParent(links, source, g0)
        && links[s[k]].next == Here(s, k + 1)
      ensures target in contacts && target in links && links[target].parent == Some(g) && target in kids
        && source in contacts
      ensures target in kids && After(kids[target], prev) == i + k && NoDups(kids[target])
      ensures prev.Some? ==> prev.value in kids[target] && prev.value in buddies && HasParent(links, prev.value, target)
      ensures source in kids && g0 in kids && KidsOut(kids, links, s[k]) == Removed(kids, g0, source, s[k])
        && prev != Some(s[k])
    {
      hide Tree, Records, MergedList, Drop, Removed, After;
      GroupsAre(groups0, groups, source, target, g0, g);
      MergedNow(kids0, source, target, g0, s, i, k);
      InnerKind(source);
      InnerKind(target);
      assert s[k..][0] == s[k] && Here(s[k..], 1) == Here(s, k + 1);
      ContactList(kinds, links, root, top, kids, {}, groups, contacts, buddies, chats, nextId, source);
      ContactList(kinds, links, root, top, kids, {}, groups, contacts, buddies, chats, nextId, target);
      ChildOf(kinds, links, root, top, kids, {}, source);
      ChildOf(kinds, links, root, top, kids, {}, target);
      ChildOf(kinds, links, root, top, kids, {}, g0);
      MergedOther(kids0, source, target, g0, s, i, k, g);
      ChildOf(kinds, links, root, top, kids, {}, g);
      ListNoDupsOf(kinds, links, root, top, kids, {}, target);
      MergedAfter(kids0[target], i, s, k, prev);
      PlaceReady(s[k], target, g, prev);
      if prev.Some? {
        OneHome(kinds, links, root, top, kids, {}, target, prev.value);
      }
    }

    lemma InnerKind(n: Id)
      requires n in kids && n !in groups
      requires Valid()
      ensures n in contacts
    {
      hide Shape, Homes;
    }

    /** A turn of the loop of `gaim_blist_merge_contact`. */
    method MergeTurn(source: Id, target: Id, b: Id, prev: Option<Id>, ghost g0: Id, ghost g: Id, ghost s: seq<Id>,
                     ghost i: nat, ghost k: nat,
                     ghost kids0: Kids, ghost groups0: Groups, ghost buddies0: Buddies)
      requires Merging(source, target, g0, g, s, i, k, kids0, groups0, buddies0) && k < |s| && b == s[k]
      requires prev == if k > 0 then Some(s[k - 1]) else Before(kids0[target], i)
      modifies `root, `links, `top, `kids, `kinds, `groups, `contacts, `buddies, `chats, `index, `nextId
      ensures Merging(source, target, g0, g, s, i, k + 1, kids0, groups0, buddies0) && chats == old(chats)
        && buddies == old(buddies)
      ensures HomesOf(links, buddies) == HomesOf(old(links), buddies)[b := g]
      ensures target in contacts && target in old(contacts)
        && contacts[target].online == old(contacts)[target].online + UpBy(buddies, connected, b)
      ensures old(Indexed()) ==> (Indexed() <==> KeyFree(cfg, buddies, old(index), b, g))
      ensures old(OnlineOk()) ==> (OnlineOk() <==> !IsLeaving(buddies, b))
    {
      hide OkState, OnlineState, HomesOf, IndexAs, KeyFree, IsLeaving, SameNames, Removed, After, With, Merged,
           MergedList, KidsOut, UpBy;
      MergeReady(source, target, g0, g, s, i, k, kids0, groups0, buddies0, prev);
      NotThere(links, b, target, source, prev);
      ghost var now, groups1, links1 := kids, groups, links;
      ghost var c := AddBuddy(b, Some(target), None, prev);
      MergedNow(kids0, source, target, g0, s, i, k);
      SameNamesChain(groups0, groups1, groups);
      KidsOutAt(now, g0, source, b, target, prev);
      MergedStep(kids0, source, target, g0, s, i, k, now, Removed(now, g0, source, b), kids);
    }

    /** The buddies that are still to move are at home in the group they come from. */
    lemma MergeHomes(source: Id, target: Id, g0: Id, g: Id, s: seq<Id>, i: nat, k: nat, kids0: Kids, groups0: Groups,
                     buddies0: Buddies)
      requires Merging(source, target, g0, g, s, i, k, kids0, groups0, buddies0) && k < |s|
      ensures forall j | k <= j < |s| :: s[j] in HomesOf(links, buddies) && HomesOf(links, buddies)[s[j]] == g0
      ensures NoDups(s[k..])
    {
      hide Tree, Records, MergedList, SameNames;
      GroupsAre(groups0, groups, source, target, g0, g);
      MergedNow(kids0, source, target, g0, s, i, k);
      InnerKind(source);
      ContactLinks(source);
      ChildOf(kinds, links, root, top, kids, {}, g0);
      ContactAtHome(source, g0, s[k..]);
      forall j | k <= j < |s| ensures s[j] in s[k..] {
        assert s[k..][j - k] == s[j];
      }
    }

    /** What holds of the index and the counts when the first `k` buddies have come. */
    ghost predicate MergedSoFar(target: Id, g: Id, s: seq<Id>, k: nat, contacts0: Contacts, home0: HomeMap, fit: bool,
                                calm: bool)
      reads this
    {
      && k <= |s| && (forall b | b in s :: b in home0) && HomesOf(links, buddies) == Rehomed(home0, Members(s[..k]), g)
      && target in contacts && target in contacts0
      && contacts[target].online == contacts0[target].online + Count(s[..k], OnlineOnes(buddies, connected))
      && (fit ==> Indexed() && AllFree(cfg, buddies, index, s[k..], g))
      && (calm ==> OnlineOk() && NoneLeaving(buddies, s))
    }

    /** A turn of the loop, and what it keeps. */
    method MergeRound(source: Id, target: Id, cur: Id, prev: Option<Id>, ghost g0: Id, ghost g: Id, ghost s: seq<Id>,
                      ghost i: nat, ghost k: nat,
                      ghost kids0: Kids, ghost groups0: Groups, ghost buddies0: Buddies,
                      ghost contacts0: Contacts, ghost home0: HomeMap, ghost fit: bool, ghost calm: bool)
      returns (next: Option<Id>)
      requires Merging(source, target, g0, g, s, i, k, kids0, groups0, buddies0) && k < |s| && cur == s[k]
      requires prev == if k > 0 then Some(s[k - 1]) else Before(kids0[target], i)
      requires MergedSoFar(target, g, s, k, contacts0, home0, fit, calm)
      modifies `root, `links, `top, `kids, `kinds, `groups, `contacts, `buddies, `chats, `index, `nextId
      ensures Merging(source, target, g0, g, s, i, k + 1, kids0, groups0, buddies0) && chats == old(chats)
        && buddies == old(buddies)
      ensures MergedSoFar(target, g, s, k + 1, contacts0, home0, fit, calm) && next == Here(s, k + 1)
    {
      hide OkState, OnlineState, HomesOf, Rehomed, AllAt, Members, OnlineOnes, IndexAs, KeyFree, SameNames, After,
           Merged, Merging, AllFree, UpBy, Count;
      MergeReady(source, target, g0, g, s, i, k, kids0, groups0, buddies0, prev);
      MergeHomes(source, target, g0, g, s, i, k, kids0, groups0, buddies0);
      next := links[cur].next;
      ghost var home, index1 := HomesOf(links, buddies), index;
      MergeTurn(source, target, cur, prev, g0, g, s, i, k, kids0, groups0, buddies0);
      if fit {
        MergeFreeRest(cfg, buddies, index1, home, index, s, k, g0, g);
      }
      RehomedMore(home0, s, k, g);
      OnesNext(buddies, connected, s, k);
    }

    lemma MergeStart(source: Id, target: Id, g0: Id, g: Id, i: nat, atEnd: bool, node: Id, prev: Option<Id>)
      requires source in contacts && HasParent(links, source, g0) && target in contacts && HasParent(links, target, g)
        && source != target
      requires target in kids && source in kids
      requires atEnd ==> i == |kids[target]| && prev == if kids[target] == [] then None
        else Some(kids[target][|kids[target]| - 1])
      requires !atEnd ==> prev == Some(node) && node in kids[target] && i == After(kids[target], prev)
      requires Valid()
      ensures Merging(source, target, g0, g, kids[source], i, 0, kids, groups, buddies)
      ensures prev == Before(kids[target], i) && links[source].child == Here(kids[source], 0)
      ensures AllAt(HomesOf(links, buddies), kids[source], g0) && forall b | b in kids[source] ::
        b in buddies && b in HomesOf(links, buddies)
      ensures HomesOf(links, buddies) == Rehomed(HomesOf(links, buddies), Members(kids[source][..0]), g)
      ensures Count(kids[source][..0], OnlineOnes(buddies, connected)) == 0
    {
      hide Tree, Records, HomesOf, Rehomed, OnlineOnes;
      assert Members(kids[source][..0]) == {};
      RehomedStart(HomesOf(links, buddies), g);
      OnesStart(buddies, connected, kids[source]);
      ContactAtHome(source, g0, kids[source]);
      ContactAtHome(target, g, kids[target]);
      ContactNoBuddy(source);
      ContactNoBuddy(target);
      ContactPlace(kinds, links, root, top, kids, {}, groups, contacts, buddies, chats, nextId, source, g0);
      ContactPlace(kinds, links, root, top, kids, {}, groups, contacts, buddies, chats, nextId, target, g);
      MergedNone(kids, source, target, g0, i);
    }

    lemma MergeEnd(source: Id, target: Id, g0: Id, g: Id, s: seq<Id>, i: nat, kids0: Kids, links0: LinkMap,
                   groups0: Groups, buddies0: Buddies, node: Id)
      requires Merging(source, target, g0, g, s, i, |s|, kids0, groups0, buddies0) && HasParent(links0, source, g0)
      requires i == if node == target then |kids0[target]| else After(kids0[target], Some(node))
      ensures Valid() && buddies == buddies0 && SameNames(groups0, groups)
        && MergeDone(kids0, links0, source, target, node, kids)
    {
      hide OkState, Merged, After, SameNames;
    }

    /** What the index and the counts being right in the end says of the buddies that came. */
    lemma MergeJudged(source: Id, target: Id, g0: Id, g: Id, s: seq<Id>, node: Id,
                      links0: LinkMap, index0: Index, contacts0: Contacts, groups0: Groups, kids0: Kids)
      requires MergeDone(kids0, links0, source, target, node, kids) && source != target && kids0[source] == s
      requires target in contacts && target in contacts0
      requires contacts[target].online == contacts0[target].online + Count(s[..|s|], OnlineOnes(buddies, connected))
      requires HomesOf(links, buddies) == Rehomed(HomesOf(links0, buddies), Members(s[..|s|]), g)
      requires AllAt(HomesOf(links0, buddies), s, g0) && forall b | b in s :: b in buddies
      ensures IndexAs(cfg, index0, buddies, HomesOf(links0, buddies)) && Indexed() ==>
        AllFree(cfg, buddies, index0, s, g)
      ensures OnlineState(groups0, contacts0, kids0, buddies, chats, connected) && OnlineOk() ==>
        NoneLeaving(buddies, s)
    {
      hide IndexAs, HomesOf, Rehomed, AllAt, OnlineOnes, NoneLeaving, OnlineTally, UpIsLive, After, Drop, Members,
           AllFree, Count;
      assert s[..|s|] == s;
      if IndexAs(cfg, index0, buddies, HomesOf(links0, buddies)) && Indexed() {
        MergeClash(cfg, index0, buddies, HomesOf(links0, buddies), index, s, g0, g);
      }
      if OnlineState(groups0, contacts0, kids0, buddies, chats, connected) && OnlineOk() {
        MergedCounts(contacts0, groups0, kids0, buddies, chats, connected, contacts, groups, kids, target, s,
                     if node == target then |kids0[target]| else After(kids0[target], Some(node)));
      }
    }

    /** `gaim_blist_merge_contact`: the buddies of a contact go to another one, in order, after the buddy `node`
        or to the end of the contact `node`; their contact goes with the last of them. */
    method MergeContact(source: Id, node: Id)
      requires source in contacts && source in links && links[source].parent.Some? && source in kids
      requires node in contacts || node in buddies ==> node in links && links[node].parent.Some?
      requires Valid()
      modifies `root, `links, `top, `kids, `kinds, `groups, `contacts, `buddies, `chats, `index, `nextId
      ensures Valid() && buddies == old(buddies) && chats == old(chats) && SameNames(old(groups), groups)
        && (old(TimersOk()) ==> TimersOk())
      ensures var target := MergeTarget(old(links), old(contacts), old(buddies), node);
        target == None || target == Some(source) ==>
          kids == old(kids) && links == old(links) && contacts == old(contacts) && groups == old(groups)
            && index == old(index)
      ensures var target := MergeTarget(old(links), old(contacts), old(buddies), node);
        target != None && target != Some(source) ==>
          MergeDone(old(kids), old(links), source, target.value, node, kids)
      ensures var target := MergeTarget(old(links), old(contacts), old(buddies), node);
        target != None && target != Some(source) && old(Indexed()) ==>
          (Indexed() <==> AllFree(cfg, buddies, old(index), old(kids[source]), ParentOr(old(links), target.value)))
      ensures var target := MergeTarget(old(links), old(contacts), old(buddies), node);
        target != None && target != Some(source) && old(OnlineOk()) ==>
          (OnlineOk() <==> NoneLeaving(buddies, old(kids[source])))
    {
      hide OkState, OnlineState, HomesOf, Rehomed, AllAt, Members, OnlineOnes, NoneLeaving, IndexAs, KeyFree, SameNames,
           After, Merged, Merging, AllFree, MergeDone;
      SameGroupNames(groups);
      var target: Id, prev: Option<Id>;
      if node in contacts {
        target := node;
        ContactLinks(target);
        prev := LastChild(node);
      } else if node in buddies {
        target := links[node].parent.value;
        prev := Some(node);
        NodeContact(node, target);
      } else {
        return;
      }
      if source == target {
        return;
      }
      ghost var g0, g, s, t, k := links[source].parent.value, links[target].parent.value, kids[source], kids[target], 0;
      ghost var i := if node in contacts then |t| else After(t, prev);
      MergeStart(source, target, g0, g, i, node in contacts, node, prev);
      ghost var fit := Indexed() && AllFree(cfg, buddies, index, s, g);
      ghost var calm := OnlineOk() && NoneLeaving(buddies, s);
      AllFromStart(s);
      var next := links[source].child;
      while next.Some?
        invariant k <= |s| && next == Here(s, k)
        invariant prev == if k > 0 then Some(s[k - 1]) else Before(t, i)
        invariant Merging(source, target, g0, g, s, i, k, old(kids), old(groups), old(buddies)) && chats == old(chats)
          && buddies == old(buddies)
        invariant MergedSoFar(target, g, s, k, old(contacts), HomesOf(old(links), buddies), fit, calm)
        decreases |s| - k
      {
        var cur := next.value;
        next := MergeRound(source, target, cur, prev, g0, g, s, i, k, old(kids), old(groups), old(buddies),
                           old(contacts), HomesOf(old(links), buddies), fit, calm);
        prev := Some(cur);
        k := k + 1;
      }
      MergeEnd(source, target, g0, g, s, i, old(kids), old(links), old(groups), old(buddies), node);
      MergeJudged(source, target, g0, g, s, node, old(links), old(index), old(contacts), old(groups), old(kids));
    }

    // ----- presence

    ghost predicate TimersOk() reads this { Pending(buddies) }

    /** The record of a buddy of the list changes. */
    lemma RecordReady(b: Id)
      requires b in buddies && b in links && links[b].parent.Some?
      requires Valid()
      ensures var c := links[b].parent.value;
        && c in contacts && c in kids && b in kids[c] && c in links && links[c].parent.Some?
        && links[c].parent.value in groups && HasParent(links, c, links[c].parent.value)
    {
      hide Tree, Records;
      BuddyPlace(kinds, links, root, top, kids, {}, groups, contacts, buddies, chats, nextId, b, links[b].parent.value);
    }

    /** `gaim_blist_update_buddy_presence`; `handle` is the timer that is set if anything changes. */
    method UpdatePresence(b: Id, online: bool, handle: nat)
      requires b in buddies && b in links && links[b].parent.Some? && handle != 0
      requires Valid()
      modifies `buddies, `contacts, `groups
      ensures Valid() && (old(Indexed()) ==> Indexed()) && (old(TimersOk()) ==> TimersOk())
      ensures contacts.Keys == old(contacts).Keys && SameNames(old(groups), groups)
      ensures buddies == Signed(old(buddies), connected, b, online, handle)
      ensures old(Counted()) ==> (Counted() <==> !CountedTwice(old(buddies[b]), connected, online))
      ensures old(OnlineOk()) ==>
        Counted() && (UpIsLive(buddies, connected) <==> (online ==> buddies[b].account in connected))
    {
      hide OkState, OkButState, OnlineTally, IndexAs, HomesOf, SameNames, UpIsLive, Pending;
      RecordReady(b);
      SameGroupNames(groups);
      var c := links[b].parent.value;
      var g := links[c].parent.value;
      if !IsOnline(buddies[b], connected) && online {
        SignOn(b, c, g, handle);
        Recompute(c, {});
        if old(TimersOk()) {
          RerecordedPending(old(buddies), b, buddies[b]);
        }
      } else if IsOnline(buddies[b], connected) && !online {
        SignOff(b, c, g, handle);
        Recompute(c, {});
        if old(TimersOk()) {
          RerecordedPending(old(buddies), b, buddies[b]);
        }
      }
    }

    /** A buddy that was not online is signing on. */
    method SignOn(b: Id, c: Id, g: Id, handle: nat)
      requires b in buddies && HasParent(links, b, c) && c in contacts && HasParent(links, c, g) && g in groups
      requires c in kids && b in kids[c] && !IsOnline(buddies[b], connected)
      requires Valid()
      modifies `buddies, `contacts, `groups
      ensures OkBut({}, c) && (old(Indexed()) ==> Indexed())
      ensures contacts.Keys == old(contacts).Keys && SameNames(old(groups), groups)
      ensures buddies == old(buddies)[b := old(buddies[b]).(present := SigningOn, timer := handle)]
      ensures old(Counted()) ==>
        (Counted() <==> old(buddies[b]).present == Offline || old(buddies[b]).present == SigningOff)
      ensures old(OnlineOk()) ==> Counted() && (UpIsLive(buddies, connected) <==> buddies[b].account in connected)
    {
      hide OkState, OkButState, OnlineTally, IndexAs, HomesOf, SameNames, UpIsLive, HasParent, SameRank;
      ghost var x := buddies[b].(present := SigningOn, timer := handle);
      SignReady(b, c, g, x);
      SameGroupNames(groups);
      OnlineFields(contacts, groups, c, g);
      var old_present := buddies[b].present;
      if old_present != SigningOff {
        RerecordedState(cfg, kinds, links, root, top, kids, OnlinePlusGroup(groups, contacts, c, g),
                        OnlinePlus(contacts, c), buddies, chats, nextId, connected, b, x, c);
      } else {
        RerecordedState(cfg, kinds, links, root, top, kids, groups, contacts, buddies, chats, nextId, connected, b, x,
                        c);
      }
      RerecordedIndex(cfg, index, links, buddies, b, x);
      buddies := buddies[b := buddies[b].(present := SigningOn, timer := handle)];
      if old_present != SigningOff {
        if contacts[c].online + 1 == 1 {
          groups := groups[g := groups[g].(online := groups[g].online + 1)];
        }
        contacts := contacts[c := contacts[c].(online := contacts[c].online + 1)];
      }
    }

    lemma SignReady(b: Id, c: Id, g: Id, x: Buddy)
      requires b in buddies && HasParent(links, b, c) && c in contacts && HasParent(links, c, g) && g in groups
      requires c in kids && b in kids[c] && x.account == buddies[b].account
      requires Valid()
      ensures OkState(cfg, kinds, links, root, top, kids, {}, OnlinePlusGroup(groups, contacts, c, g),
                      OnlinePlus(contacts, c), buddies, chats, nextId, connected)
      ensures OkState(cfg, kinds, links, root, top, kids, {}, OnlineMinusGroup(groups, contacts, c, g),
                      OnlineMinus(contacts, c), buddies, chats, nextId, connected)
      ensures Counted() && buddies[b].present == Offline && x.present != Offline ==>
        OnlineTally(OnlinePlus(contacts, c), OnlinePlusGroup(groups, contacts, c, g), kids, buddies[b := x], chats,
                    connected)
      ensures Counted() && buddies[b].present != Offline && x.present == Offline ==>
        OnlineTally(OnlineMinus(contacts, c), OnlineMinusGroup(groups, contacts, c, g), kids, buddies[b := x], chats,
                    connected)
      ensures Counted() && (buddies[b].present == Offline) == (x.present == Offline) ==>
        OnlineTally(contacts, groups, kids, buddies[b := x], chats, connected)
      ensures Counted() && buddies[b].present != Offline && x.present != Offline ==>
        !OnlineTally(OnlinePlus(contacts, c), OnlinePlusGroup(groups, contacts, c, g), kids, buddies[b := x], chats,
                     connected)
      ensures OnlineOk() ==>
        (UpIsLive(buddies[b := x], connected) <==> (x.present != Offline ==> x.account in connected))
      ensures OnlineOk() && buddies[b].present != Offline ==> buddies[b].account in connected
    {
      hide Tree, Records, OnlineTally, Totals, CurTally, Bests, Scores, OnlinePlus, OnlineMinus, OnlinePlusGroup,
           OnlineMinusGroup;
      OnlineAdjusted(cfg, kinds, links, root, top, kids, groups, contacts, buddies, chats, nextId, connected, c, g);
      if Counted() {
        OnlineFlips(kinds, links, root, top, kids, groups, contacts, buddies, chats, nextId, connected, c, g, b, x);
        if buddies[b].present != Offline && x.present != Offline {
          CountedAgain(groups, contacts, kids, buddies, chats, connected, c, g, b, x);
        }
      }
      if OnlineOk() {
        RerecordedUp(buddies, connected, b, x);
      }
    }

    /** A buddy that was online is signing off; it counts until its timer fires. */
    method SignOff(b: Id, c: Id, g: Id, handle: nat)
      requires b in buddies && HasParent(links, b, c) && c in contacts && HasParent(links, c, g) && g in groups
      requires c in kids && b in kids[c] && IsOnline(buddies[b], connected)
      requires Valid()
      modifies `buddies
      ensures OkBut({}, c) && (old(Indexed()) ==> Indexed()) && (old(Counted()) ==> Counted())
        && (old(OnlineOk()) ==> OnlineOk())
      ensures buddies == old(buddies)[b := old(buddies[b]).(present := SigningOff, timer := handle)]
    {
      hide OkState, OkButState, OnlineTally, IndexAs, HomesOf, UpIsLive, HasParent, SameRank, OnlinePlus, OnlineMinus,
           OnlinePlusGroup, OnlineMinusGroup;
      ghost var x := buddies[b].(present := SigningOff, timer := handle);
      SignReady(b, c, g, x);
      RerecordedState(cfg, kinds, links, root, top, kids, groups, contacts, buddies, chats, nextId, connected, b, x, c);
      RerecordedIndex(cfg, index, links, buddies, b, x);
      buddies := buddies[b := buddies[b].(present := SigningOff, timer := handle)];
    }

    /** `presence_update_timeout_cb`: the timer of a buddy fires. It never chooses a best buddy anew, and need not. */
    method PresenceTimeout(b: Id)
      requires b in buddies && b in links && links[b].parent.Some?
      requires Valid()
      modifies `buddies, `contacts, `groups
      ensures Valid() && (old(Indexed()) ==> Indexed()) && (old(TimersOk()) ==> TimersOk())
      ensures contacts.Keys == old(contacts).Keys && SameNames(old(groups), groups)
      ensures buddies == old(buddies)[b := Fired(old(buddies[b]))]
      ensures (old(Counted()) ==> Counted()) && (old(OnlineOk()) ==> OnlineOk())
    {
      hide OkState, OkButState, OnlineTally, IndexAs, HomesOf, SameNames, UpIsLive, SameRank, Pending;
      RecordReady(b);
      var c := links[b].parent.value;
      var g := links[c].parent.value;
      ghost var x := buddies[b].(present := Settled(buddies[b].present), timer := 0);
      SignReady(b, c, g, x);
      SettledRank(cfg, buddies[b], connected);
      SameGroupNames(groups);
      OnlineFields(contacts, groups, c, g);
      RerecordedIndex(cfg, index, links, buddies, b, x);
      if TimersOk() {
        RerecordedPending(buddies, b, x);
      }
      if buddies[b].present == SigningOff {
        RerecordedState(cfg, kinds, links, root, top, kids, OnlineMinusGroup(groups, contacts, c, g),
                        OnlineMinus(contacts, c), buddies, chats, nextId, connected, b, x, c);
        buddies := buddies[b := buddies[b].(present := Offline, timer := 0)];
        if contacts[c].online - 1 == 0 {
          groups := groups[g := groups[g].(online := groups[g].online - 1)];
        }
        contacts := contacts[c := contacts[c].(online := contacts[c].online - 1)];
      } else {
        RerecordedState(cfg, kinds, links, root, top, kids, groups, contacts, buddies, chats, nextId, connected, b, x,
                        c);
        if buddies[b].present == SigningOn {
          buddies := buddies[b := buddies[b].(present := Online, timer := 0)];
        } else {
          buddies := buddies[b := buddies[b].(timer := 0)];
        }
      }
    }

    /** When nothing else happens, every timer fires once and all buddies settle. */
    method Settle(order: seq<Id>)
      requires forall b | b in order :: b in buddies && b in links && links[b].parent.Some?
      requires forall b | b in buddies && buddies[b].timer != 0 :: b in order
      requires Valid() && TimersOk()
      modifies `buddies, `contacts, `groups
      ensures Valid() && (old(OnlineOk()) ==> OnlineOk()) && (old(Indexed()) ==> Indexed())
      ensures buddies.Keys == old(buddies).Keys
      ensures forall b | b in old(buddies) ::
        buddies[b] == Fired(old(buddies)[b]) && (buddies[b].present == Online || buddies[b].present == Offline)
    {
      hide OkState, OnlineState, IndexAs, HomesOf, SameNames, Pending, SettlingFrom;
      var i := 0;
      SettlingStart(order);
      while i < |order|
        invariant i <= |order| && Valid() && TimersOk() && (old(OnlineOk()) ==> OnlineOk())
          && (old(Indexed()) ==> Indexed())
        invariant buddies.Keys == old(buddies).Keys && SettlingFrom(old(buddies), buddies, order[i..])
      {
        var b := order[i];
        assert b in buddies.Keys && order[i..][0] == b && order[i..][1..] == order[i + 1..];
        SettlingNext(old(buddies), buddies, order[i..]);
        if buddies[b].timer != 0 {
          PresenceTimeout(b);
        }
        i := i + 1;
      }
      assert order[i..] == [];
      AllSettled(old(buddies), buddies);
    }

    lemma SettlingStart(order: seq<Id>)
      requires forall b | b in buddies && buddies[b].timer != 0 :: b in order
      ensures SettlingFrom(buddies, buddies, order[0..])
    {
      assert order[0..] == order;
    }

    /** `gaim_blist_update_buddy_status`, as far as the list looks at the status. */
    method UpdateStatus(b: Id, unavailable: bool)
      requires b in buddies && b in links && links[b].parent.Some?
      requires Valid()
      modifies `buddies, `contacts
      ensures Valid() && (old(Indexed()) ==> Indexed()) && (old(TimersOk()) ==> TimersOk())
        && (old(OnlineOk()) ==> OnlineOk())
      ensures contacts.Keys == old(contacts).Keys
      ensures buddies == old(buddies)[b := old(buddies[b]).(unavailable := unavailable)]
    {
      hide OkState, OkButState, OnlineState, IndexAs, HomesOf, Pending, SameRank;
      RecordReady(b);
      var c := links[b].parent.value;
      if buddies[b].unavailable != unavailable {
        Rerecord(b, c, buddies[b].(unavailable := unavailable));
      } else {
        assert buddies[b := buddies[b]] == buddies;
      }
    }

    /** `gaim_blist_update_buddy_idle` */
    method UpdateIdle(b: Id, idle: int)
      requires b in buddies && b in links && links[b].parent.Some?
      requires Valid()
      modifies `buddies, `contacts
      ensures Valid() && (old(Indexed()) ==> Indexed()) && (old(TimersOk()) ==> TimersOk())
        && (old(OnlineOk()) ==> OnlineOk())
      ensures contacts.Keys == old(contacts).Keys
      ensures buddies == old(buddies)[b := old(buddies[b]).(idle := idle)]
    {
      hide OkState, OkButState, OnlineState, IndexAs, HomesOf, Pending, SameRank;
      RecordReady(b);
      var c := links[b].parent.value;
      if buddies[b].idle != idle {
        Rerecord(b, c, buddies[b].(idle := idle));
      } else {
        assert buddies[b := buddies[b]] == buddies;
      }
    }

    /** The record of a buddy changes in what the choice of the best buddy looks at. */
    method Rerecord(b: Id, c: Id, x: Buddy)
      requires b in buddies && c in contacts && c in kids && b in kids[c] && HasParent(links, b, c)
      requires x.account == buddies[b].account && x.name == buddies[b].name && x.present == buddies[b].present
        && x.timer == buddies[b].timer
      requires Valid()
      modifies `buddies, `contacts
      ensures Valid() && (old(Indexed()) ==> Indexed()) && (old(TimersOk()) ==> TimersOk())
        && (old(OnlineOk()) ==> OnlineOk())
      ensures contacts.Keys == old(contacts).Keys
      ensures buddies == old(buddies)[b := x]
    {
      hide OkState, OkButState, OnlineTally, IndexAs, HomesOf, Pending, SameRank, UpIsLive;
      RecordReady(b);
      SignReady(b, c, links[c].parent.value, x);
      RerecordedState(cfg, kinds, links, root, top, kids, groups, contacts, buddies, chats, nextId, connected, b, x, c);
      RerecordedIndex(cfg, index, links, buddies, b, x);
      if TimersOk() {
        PendingSame(buddies, b, x);
      }
      buddies := buddies[b := x];
      Recompute(c, {});
    }

    // ----- names

    /** `gaim_blist_rename_buddy`: the index stays right if and only if nobody else in the group has the new name. */
    method RenameBuddy(b: Id, name: string)
      requires b in buddies && b in links && links[b].parent.Some?
      requires Valid()
      modifies `buddies, `index
      ensures Valid() && (old(OnlineOk()) ==> OnlineOk()) && (old(TimersOk()) ==> TimersOk())
      ensures buddies == old(buddies)[b := old(buddies[b]).(name := name)]
      ensures GroupOf(links, b).Some?
        && (old(Indexed()) ==> (Indexed() <==> KeyFree(cfg, buddies, old(index), b, GroupOf(links, b).value)))
    {
      hide OkState, OkButState, OnlineTally, IndexAs, HomesOf, SameRank, UpIsLive, Pending, KeyOf;
      RecordReady(b);
      var c := links[b].parent.value;
      var g := links[c].parent.value;
      ghost var x := buddies[b].(name := name);
      SignReady(b, c, g, x);
      NameRank(cfg, buddies[b], connected, name);
      RerecordedState(cfg, kinds, links, root, top, kids, groups, contacts, buddies, chats, nextId, connected, b, x, c);
      RerecordedIndex(cfg, index, links, buddies, b, x);
      if TimersOk() {
        PendingSame(buddies, b, x);
      }
      HomeIs(b, c, g);
      if Indexed() {
        IndexRenamed(cfg, index, buddies, HomesOf(links, buddies), b, x);
      }
      index := index - {KeyOf(cfg, buddies[b], g)};
      index := index[KeyOf(cfg, buddies[b].(name := name), g) := b];
      buddies := buddies[b := buddies[b].(name := name)];
    }

    lemma HomeIs(b: Id, c: Id, g: Id)
      requires b in buddies && HasParent(links, b, c) && HasParent(links, c, g)
      ensures b in HomesOf(links, buddies) && HomesOf(links, buddies)[b] == g && GroupOf(links, b) == Some(g)
    {
    }

    // ----- finding

    /** `gaim_find_buddy`: the first group that has one. */
    method FindBuddy(account: Account, name: string) returns (b: Option<Id>)
      requires Valid()
      ensures b == if name == "" then None else FirstMatch(index, cfg.normalize(account, name), account, top)
    {
      hide OkState;
      if name == "" {
        return None;
      }
      GroupsOf();
      var group := root;
      ghost var i := 0;
      assert top[0..] == top;
      while group.Some?
        invariant i <= |top| && group == Here(top, i)
        invariant FirstMatch(index, cfg.normalize(account, name), account, top) ==
                  FirstMatch(index, cfg.normalize(account, name), account, top[i..])
        decreases |top| - i
      {
        assert top[i..][0] == top[i] && top[i..][1..] == top[i + 1..];
        var k := Key(cfg.normalize(account, name), account, group.value);
        if k in index {
          return Some(index[k]);
        }
        group := links[group.value].next;
        i := i + 1;
      }
      b := None;
    }

    /** `gaim_find_buddies`: one for every group that has one, in the order of the groups. */
    method FindBuddies(account: Account, name: string) returns (bs: seq<Id>)
      requires Valid()
      ensures bs == if name == "" then [] else Matches(index, cfg.normalize(account, name), account, top)
    {
      hide OkState, Matches, NoDups;
      bs := [];
      if name == "" {
        return;
      }
      GroupsOf();
      var node := root;
      ghost var i := 0;
      MatchesEnds(index, cfg.normalize(account, name), account, top);
      while node.Some?
        invariant i <= |top| && node == Here(top, i)
        invariant Matches(index, cfg.normalize(account, name), account, top) ==
                  bs + Matches(index, cfg.normalize(account, name), account, top[i..])
        decreases |top| - i
      {
        var k := Key(cfg.normalize(account, name), account, node.value);
        MatchesNext(index, cfg.normalize(account, name), account, top, i, bs);
        if k in index {
          bs := bs + [index[k]];
        }
        node := links[node.value].next;
        i := i + 1;
      }
    }

    // ----- accounts

    /** What is kept while an account comes or goes. */
    ghost predicate Visiting(a: Account, adding: bool, s: Start, done: set<Id>, but: Option<Id>)
      reads this
    {
      Midway(cfg, kinds, links, root, top, kids, groups, contacts, buddies, chats, nextId, index, connected, a, adding,
             s, done, but)
    }

    /** The counters when a buddy's account comes. */
    method CountIn(c: Id, g: Id)
      requires c in contacts && g in groups
      modifies `contacts, `groups
      ensures contacts == Recount(old(contacts), c, 1, 0)
      ensures groups == RecountGroup(old(groups), g, LiveStep(old(contacts), c, true), 0)
    {
      contacts := contacts[c := contacts[c].(currentsize := contacts[c].currentsize + 1)];
      if contacts[c].currentsize == 1 {
        groups := groups[g := groups[g].(currentsize := groups[g].currentsize + 1)];
      } else {
        assert groups == groups[g := groups[g]];
      }
    }

    /** The counters when it goes. */
    method CountOut(c: Id, g: Id, down: bool)
      requires c in contacts && g in groups
      modifies `contacts, `groups
      ensures contacts == Recount(old(contacts), c, -1, Less1(down))
      ensures groups == RecountGroup(old(groups), g, LiveStep(old(contacts), c, false), UpStep(old(contacts), c, down))
    {
      ghost var g0 := groups[g];
      ghost var c0 := contacts[c];
      assert groups == groups[g := g0];
      if down {
        contacts := contacts[c := contacts[c].(online := contacts[c].online - 1)];
        if contacts[c].online == 0 {
          groups := groups[g := groups[g].(online := groups[g].online - 1)];
        }
      }
      contacts := contacts[c := contacts[c].(currentsize := contacts[c].currentsize - 1)];
      if contacts[c].currentsize == 0 {
        groups := groups[g := groups[g].(currentsize := groups[g].currentsize - 1)];
      }
      assert contacts[c] == Contact(c0.totalsize, c0.currentsize - 1, c0.online + Less1(down), c0.priority);
    }

    /** One buddy of the contact is visited. */
    method VisitBuddy(b: Id, c: Id, g: Id, a: Account, adding: bool, ghost s: Start, ghost done: set<Id>)
      returns (found: bool)
      requires Visiting(a, adding, s, done, Some(c))
      requires c in contacts && HasParent(links, c, g) && g in groups && c in kids && b in kids[c] && b in buddies
        && b !in done
      requires b !in contacts
      requires b !in chats
      modifies `contacts, `groups, `buddies
      ensures Visiting(a, adding, s, done + {b}, Some(c))
      ensures contacts.Keys == old(contacts).Keys && groups.Keys == old(groups).Keys
        && buddies.Keys == old(buddies).Keys
      ensures found == (old(buddies)[b].account == a)
      ensures !found ==> buddies == old(buddies) && contacts == old(contacts)
    {
      hide Midway, HasParent, Recount, RecountGroup, LiveStep, UpStep, Clear;
      found := buddies[b].account == a;
      if found {
        MidwayBuddy(cfg, kinds, links, root, top, kids, groups, contacts, buddies, chats, nextId, index, connected, a,
                    adding, s, done, c, g, b);
        RecountKeys(contacts, groups, c, g, Sign(adding), Less1(GoesDown(buddies[b], adding)),
                    LiveStep(contacts, c, adding),
                    UpStep(contacts, c, GoesDown(buddies[b], adding)));
        if adding {
          NoStep(contacts, c);
          CountIn(c, g);
        } else {
          CountOut(c, g, buddies[b].present == Online || buddies[b].present == SigningOn);
          ClearFields(buddies[b]);
          buddies := buddies[b := buddies[b].(present := Offline, unavailable := false, idle := 0)];
        }
      } else {
        MidwayOther(cfg, kinds, links, root, top, kids, groups, contacts, buddies, chats, nextId, index, connected, a,
                    adding, s, done, Some(c), b);
      }
    }

    lemma VisitTree(a: Account, adding: bool, s: Start, done: set<Id>, but: Option<Id>)
      requires Visiting(a, adding, s, done, but)
      ensures IsTree({}) && Scores(cfg) && connected == Afterwards(s.connected, a, adding)
    {
      hide Afterwards;
      MidTree(cfg, kinds, links, root, top, kids, groups, contacts, buddies, chats, nextId, a, s.connected, adding,
              done, but);
    }

    /** The buddies of one contact are visited. */
    method VisitBuddies(c: Id, g: Id, a: Account, adding: bool, ghost s: Start, ghost done: set<Id>, ghost t: seq<Id>)
      returns (recompute: bool)
      requires Visiting(a, adding, s, done, None)
      requires c in contacts && HasParent(links, c, g) && g in groups && c !in done && c in kids
      requires t == kids[c] && Members(t) !! done
      modifies `contacts, `groups, `buddies
      ensures Visiting(a, adding, s, done + Members(t), Some(c))
      ensures contacts.Keys == old(contacts).Keys && groups.Keys == old(groups).Keys
        && buddies.Keys == old(buddies).Keys
      ensures !recompute ==> contacts == old(contacts) && buddies == old(buddies)
      ensures !recompute ==> forall j | 0 <= j < |t| :: t[j] in buddies && buddies[t[j]].account != a
    {
      hide Midway, HasParent, Tree, Records, IsBest, Scores, NoDups, Members, Afterwards;
      VisitTree(a, adding, s, done, None);
      BuddiesOf(kinds, links, root, top, kids, groups, contacts, buddies, chats, nextId, c);
      MidwayBegins(cfg, kinds, links, root, top, kids, groups, contacts, buddies, chats, nextId, index, connected, a,
                   adding, s, done, c);
      MembersEnds(t, done);
      recompute := false;
      var bnode := links[c].child;
      ghost var i := 0;
      while bnode.Some?
        invariant i <= |t| && bnode == Here(t, i) && Visiting(a, adding, s, done + Members(t[..i]), Some(c))
        invariant contacts.Keys == old(contacts).Keys && groups.Keys == old(groups).Keys
          && buddies.Keys == old(buddies).Keys
        invariant c in contacts && g in groups
        invariant !recompute ==> contacts == old(contacts) && buddies == old(buddies)
        invariant !recompute ==> forall j | 0 <= j < i :: t[j] in buddies && buddies[t[j]].account != a
        decreases |t| - i
      {
        var b := bnode.value;
        MembersNext(t, i, done);
        assert b in old(buddies).Keys && b !in old(contacts).Keys;
        var found := VisitBuddy(b, c, g, a, adding, s, done + Members(t[..i]));
        assert c in contacts.Keys && g in groups.Keys;
        recompute := recompute || found;
        bnode := links[b].next;
        i := i + 1;
      }
    }

    /** One contact is visited; `showOffline` is a setting of it. */
    method VisitContact(c: Id, g: Id, a: Account, adding: bool, showOffline: bool, ghost s: Start, ghost done: set<Id>)
      requires Visiting(a, adding, s, done, None)
      requires c in contacts && HasParent(links, c, g) && g in groups && c !in done && c in kids
        && Members(kids[c]) !! done
      modifies `contacts, `groups, `buddies
      ensures Visiting(a, adding, s, done + {c} + Members(kids[c]), None)
      ensures contacts.Keys == old(contacts).Keys && groups.Keys == old(groups).Keys
        && buddies.Keys == old(buddies).Keys
    {
      hide Midway, HasParent, Tree, Records, IsBest, Scores, NoDups, Members, Afterwards;
      ghost var t := kids[c];
      VisitTree(a, adding, s, done, None);
      BuddiesOf(kinds, links, root, top, kids, groups, contacts, buddies, chats, nextId, c);
      MidwayBegins(cfg, kinds, links, root, top, kids, groups, contacts, buddies, chats, nextId, index, connected, a,
                   adding, s, done, c);
      MembersEnds(t, done);
      var recompute := VisitBuddies(c, g, a, adding, s, done, t);
      assert c in contacts.Keys;
      VisitTree(a, adding, s, done + Members(t), Some(c));
      ghost var contacts1 := contacts;
      if recompute || (adding && showOffline) {
        ComputePriority(c, {});
      } else {
        BestStays(cfg, buddies, a, s.connected, adding, t, contacts[c].priority);
        assert contacts == contacts[c := contacts[c].(priority := contacts[c].priority)];
      }
      MidwayContact(cfg, kinds, links, root, top, kids, groups, contacts1, buddies, chats, nextId, index, connected,
                    a, adding, s, done + Members(t), c, contacts[c].priority);
      assert done + Members(t) + {c} == done + {c} + Members(t);
    }

    /** One group is visited. */
    method VisitGroup(g: Id, a: Account, adding: bool, showOffline: set<Id>, ghost s: Start, ghost done: set<Id>)
      requires Visiting(a, adding, s, done, None) && g in groups && g in kids && Under(kids, kids[g]) !! done
      modifies `contacts, `groups, `buddies
      ensures Visiting(a, adding, s, done + Under(kids, kids[g]), None)
      ensures contacts.Keys == old(contacts).Keys && groups.Keys == old(groups).Keys
        && buddies.Keys == old(buddies).Keys
    {
      hide Midway, Tree, Records, Scores, NoDups, Under, Afterwards, Recount, RecountGroup, UnderAll;
      ghost var t := kids[g];
      VisitTree(a, adding, s, done, None);
      NodesOf(kinds, links, root, top, kids, groups, contacts, buddies, chats, nextId, g);
      UnderEnds(kids, t, done);
      var cnode := links[g].child;
      ghost var i := 0;
      while cnode.Some?
        invariant i <= |t| && cnode == Here(t, i) && Visiting(a, adding, s, done + Under(kids, t[..i]), None)
        invariant Under(kids, t[i..]) !! done + Under(kids, t[..i])
        invariant contacts.Keys == old(contacts).Keys && groups.Keys == old(groups).Keys
          && buddies.Keys == old(buddies).Keys
        decreases |t| - i
      {
        var n := cnode.value;
        ghost var done1 := done + Under(kids, t[..i]);
        VisitTree(a, adding, s, done1, None);
        UnderNext(kids, t, i);
        NodeUnseen(kinds, links, root, top, kids, g, i, done1);
        assert done1 + {n} + Below(kids, n) == done + Under(kids, t[..i + 1]);
        assert n in contacts <==> n in old(contacts).Keys;
        assert n in buddies <==> n in old(buddies).Keys;
        assert g in groups.Keys;
        VisitNode(n, g, a, adding, n in showOffline, s, done1);
        cnode := links[n].next;
        i := i + 1;
      }
    }

    /** A contact or a chat is visited. */
    method VisitNode(n: Id, g: Id, a: Account, adding: bool, showOffline: bool, ghost s: Start, ghost done: set<Id>)
      requires Visiting(a, adding, s, done, None) && g in groups && g in kids && n in kids[g] && HasParent(links, n, g)
      requires n !in done && Below(kids, n) !! done && n !in buddies
      requires (n in contacts && n in kids && n !in chats) || (n in chats && n !in contacts && n !in kids)
      modifies `contacts, `groups, `buddies
      ensures Visiting(a, adding, s, done + {n} + Below(kids, n), None)
      ensures contacts.Keys == old(contacts).Keys && groups.Keys == old(groups).Keys
        && buddies.Keys == old(buddies).Keys
    {
      hide Midway, HasParent, Members, RecountGroup;
      if n in contacts {
        VisitContact(n, g, a, adding, showOffline, s, done);
      } else if chats[n] == a {
        MidwayChat(cfg, kinds, links, root, top, kids, groups, contacts, buddies, chats, nextId, index, connected, a,
                   adding, s, done, g, n);
        RecountIs(groups, g, Sign(adding));
        assert done + {n} + {} == done + {n};
        if adding {
          groups := groups[g := groups[g].(online := groups[g].online + 1)];
          groups := groups[g := groups[g].(currentsize := groups[g].currentsize + 1)];
        } else {
          groups := groups[g := groups[g].(currentsize := groups[g].currentsize - 1)];
          groups := groups[g := groups[g].(online := groups[g].online - 1)];
        }
        assert groups == old(groups)[g := groups[g]];
      } else {
        MidwayOther(cfg, kinds, links, root, top, kids, groups, contacts, buddies, chats, nextId, index, connected, a,
                    adding, s, done, None, n);
        assert done + {n} + {} == done + {n};
      }
    }

    /** The walk of `gaim_blist_add_account` and `gaim_blist_remove_account` over the list. */
    method VisitAll(a: Account, adding: bool, showOffline: set<Id>, ghost s: Start)
      requires Visiting(a, adding, s, {}, None)
      modifies `contacts, `groups, `buddies
      ensures Visiting(a, adding, s, UnderAll(kids, top), None)
      ensures contacts.Keys == old(contacts).Keys && groups.Keys == old(groups).Keys
        && buddies.Keys == old(buddies).Keys
    {
      hide Midway, Tree, Records, Scores, NoDups, Under, Afterwards, UnderAll, AllDone;
      VisitTree(a, adding, s, {}, None);
      TopList(kinds, links, root, top, kids, {}, groups, contacts, buddies, chats, nextId);
      UnderAllEnds(kids, top);
      var gnode := root;
      ghost var i := 0;
      while gnode.Some?
        invariant i <= |top| && gnode == Here(top, i) && Visiting(a, adding, s, UnderAll(kids, top[..i]), None)
        invariant contacts.Keys == old(contacts).Keys && groups.Keys == old(groups).Keys
          && buddies.Keys == old(buddies).Keys
        decreases |top| - i
      {
        var g := gnode.value;
        VisitTree(a, adding, s, UnderAll(kids, top[..i]), None);
        UnderAllNext(kids, top, i);
        GroupUnseen(kinds, links, root, top, kids, i);
        assert g in old(groups).Keys && g in groups.Keys;
        VisitGroup(g, a, adding, showOffline, s, UnderAll(kids, top[..i]));
        gnode := links[g].next;
        i := i + 1;
      }
    }

    lemma VisitEnds(a: Account, adding: bool, s: Start)
      requires Visiting(a, adding, s, UnderAll(kids, top), None) && adding == (a !in s.connected)
      ensures Valid() && connected == Afterwards(s.connected, a, adding) && SameNames(s.groups, groups)
      ensures s.online ==> (Counted() <==> adding || LeavesCleanly(links, s.buddies, a))
      ensures UpIsLive(s.buddies, s.connected) ==>
        (UpIsLive(buddies, connected) <==> adding || NoneAside(links, s.buddies, a))
      ensures (s.indexed ==> Indexed()) && (s.timed ==> TimersOk())
      ensures adding ==> buddies == s.buddies
      ensures !adding ==> AccountGone(links, s.buddies, buddies, a)
    {
      hide Mid, MidOnline, Cleared, SameNames, IndexAs, HomesOf, Pending, UpOrLeft, Afterwards, OkState, OnlineTally,
           Tree, AllDone, UnderAll, LeavesCleanly, NoneAside, AccountGone, UpIsLive, Records;
      VisitTree(a, adding, s, UnderAll(kids, top), None);
      UnderAllEnds(kids, top);
      ListedParents(kinds, links, root, top, kids);
      MidwayEnd(cfg, kinds, links, root, top, kids, groups, contacts, buddies, chats, nextId, index, connected, a,
                adding, s, UnderAll(kids, top));
    }

    /** What is right before an account comes or goes. */
    ghost function Now(): Start reads this { Start(buddies, groups, connected, Counted(), Indexed(), TimersOk()) }

    lemma VisitBegins(a: Account, adding: bool)
      requires adding == (a !in connected)
      requires Valid()
      ensures Midway(cfg, kinds, links, root, top, kids, groups, contacts, buddies, chats, nextId, index,
                     Afterwards(connected, a, adding), a, adding, Now(), {}, None)
      ensures Afterwards(connected, a, adding) == if adding then connected + {a} else connected - {a}
    {
      hide Midway, OkState, OnlineTally, UpIsLive, IndexAs, HomesOf, Pending;
      MidwayStart(cfg, kinds, links, root, top, kids, groups, contacts, buddies, chats, nextId, index, connected, a,
                  adding, Now());
    }

    /** `gaim_blist_add_account`, as one step with the account's becoming connected. The contacts `showOffline`
        have their best buddy chosen anew in any case. */
    method AddAccount(a: Account, showOffline: set<Id>)
      requires a !in connected
      requires Valid()
      modifies `contacts, `groups, `buddies, `connected
      ensures Valid() && connected == old(connected) + {a} && buddies == old(buddies)
      ensures contacts.Keys == old(contacts).Keys && SameNames(old(groups), groups)
      ensures (old(Counted()) ==> Counted()) && (old(OnlineOk()) ==> OnlineOk())
      ensures (old(Indexed()) ==> Indexed()) && (old(TimersOk()) ==> TimersOk())
    {
      hide Midway, OkState, OnlineTally, UpIsLive, IndexAs, HomesOf, Pending, SameNames, UnderAll, LeavesCleanly,
           NoneAside, AccountGone, Afterwards;
      VisitBegins(a, true);
      ghost var s := Now();
      connected := connected + {a};
      VisitAll(a, true, showOffline, s);
      VisitEnds(a, true, s);
    }

    /** `gaim_blist_remove_account`, as one step with the account's losing its connection. The online counts stay
        right if and only if none of its buddies in the list was signing off. */
    method RemoveAccount(a: Account)
      requires a in connected
      requires Valid()
      modifies `contacts, `groups, `buddies, `connected
      ensures Valid() && connected == old(connected) - {a} && AccountGone(links, old(buddies), buddies, a)
      ensures contacts.Keys == old(contacts).Keys && SameNames(old(groups), groups)
      ensures old(Counted()) ==> (Counted() <==> LeavesCleanly(links, old(buddies), a))
      ensures old(UpIsLive(buddies, connected)) ==>
        (UpIsLive(buddies, connected) <==> NoneAside(links, old(buddies), a))
      ensures (old(Indexed()) ==> Indexed()) && (old(TimersOk()) ==> TimersOk())
    {
      hide Midway, OkState, OnlineTally, UpIsLive, IndexAs, HomesOf, Pending, SameNames, UnderAll, LeavesCleanly,
           NoneAside, AccountGone, Afterwards;
      VisitBegins(a, false);
      ghost var s := Now();
      connected := connected - {a};
      VisitAll(a, false, {}, s);
      VisitEnds(a, false, s);
    }
  }
}
