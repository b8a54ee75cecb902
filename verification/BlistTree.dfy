/** The links between the nodes of the buddy list, and the lists of children they stand for. */
module BlistTree {
  import opened Wrappers

  /** A node; zero is not special. */
  type Id = nat

  datatype Links = Links(prev: Option<Id>, next: Option<Id>, parent: Option<Id>, child: Option<Id>)

  const FREE := Links(None, None, None, None)

  type LinkMap = map<Id, Links>

  ghost predicate NoDups(s: seq<Id>) { forall i, j | 0 <= i < j < |s| :: s[i] != s[j] }

  function First(s: seq<Id>): Option<Id> { if s == [] then None else Some(s[0]) }

  /** The node before place `i`, and the one at it. */
  function Before(s: seq<Id>, i: nat): Option<Id> { if 0 < i <= |s| then Some(s[i - 1]) else None }
  function Here(s: seq<Id>, i: nat): Option<Id> { if i < |s| then Some(s[i]) else None }

  /** The siblings under `parent`, in order, as their links tell it. */
  ghost predicate IsList(links: LinkMap, s: seq<Id>, parent: Option<Id>) {
    && NoDups(s)
    && forall i | 0 <= i < |s| ::
         && s[i] in links && links[s[i]].parent == parent
         && links[s[i]].prev == Before(s, i) && links[s[i]].next == Here(s, i + 1)
  }

  type Kids = map<Id, seq<Id>>

  /** The links are those of a tree: a list of groups, and a list of children for every inner node. */
  ghost predicate Shape(links: LinkMap, root: Option<Id>, top: seq<Id>, kids: Kids) {
    && root == First(top) && IsList(links, top, None)
    && forall p | p in kids :: p in links && links[p].child == First(kids[p]) && IsList(links, kids[p], Some(p))
  }

  // ----- lists with one node more or less

  function Without(s: seq<Id>, i: nat): seq<Id>
    requires i < |s|
  {
    s[..i] + s[i + 1..]
  }

  function With(s: seq<Id>, i: nat, n: Id): seq<Id>
    requires i <= |s|
  {
    s[..i] + [n] + s[i..]
  }

  function Place(s: seq<Id>, n: Id): (i: nat)
    requires n in s
    ensures i < |s| && s[i] == n && n !in s[.. i]
  {
    if s[0] == n then 0 else 1 + Place(s[1..], n)
  }

  /** `s` without the node `n`. */
  function Drop(s: seq<Id>, n: Id): seq<Id> {
    if n in s then Without(s, Place(s, n)) else s
  }

  lemma DropMembers(s: seq<Id>, n: Id)
    requires NoDups(s)
    ensures NoDups(Drop(s, n)) && (forall m :: m in Drop(s, n) <==> m in s && m != n)
    ensures n in s ==> |Drop(s, n)| == |s| - 1
  {
    if n in s {
      var i := Place(s, n);
      assert s == s[..i] + [n] + s[i + 1..];
      forall m ensures m in Drop(s, n) <==> m in s && m != n {
        if m in s && m != n {
          var j :| 0 <= j < |s| && s[j] == m;
          assert Drop(s, n)[if j < i then j else j - 1] == m;
        }
      }
    }
  }

  lemma WithMembers(s: seq<Id>, i: nat, n: Id)
    requires NoDups(s) && i <= |s| && n !in s
    ensures NoDups(With(s, i, n)) && (forall m :: m in With(s, i, n) <==> m in s || m == n)
  {
    var t := With(s, i, n);
    assert s == s[..i] + s[i..];
    forall m ensures m in t <==> m in s || m == n {
    }
  }

  // ----- taking a node out of its list

  /** What the statements that unlink a node do to the links. */
  ghost predicate UnlinkedAs(links: LinkMap, links': LinkMap, n: Id)
    requires n in links
  {
    && links'.Keys == links.Keys
    && forall m | m in links ::
         && links'[m].parent == links[m].parent
         && links'[m].next == (if links[n].prev == Some(m) then links[n].next else links[m].next)
         && links'[m].prev == (if links[n].next == Some(m) then links[n].prev else links[m].prev)
         && links'[m].child == (if links[n].parent == Some(m) && links[m].child == Some(n) then links[n].next
                                else links[m].child)
  }

  /** `links` say that `n` is at place `i` of `s`. */
  ghost predicate IsAt(links: LinkMap, s: seq<Id>, i: nat, parent: Option<Id>) {
    && i < |s| && s[i] in links && links[s[i]].parent == parent
    && links[s[i]].prev == Before(s, i) && links[s[i]].next == Here(s, i + 1)
  }

  lemma UnlinkedAt(links: LinkMap, links': LinkMap, s: seq<Id>, i: nat, parent: Option<Id>, j: nat)
    requires NoDups(s) && i < |s| && j < |s| - 1
    requires IsAt(links, s, i, parent) && IsAt(links, s, if j < i then j else j + 1, parent)
    requires UnlinkedAs(links, links', s[i])
    ensures IsAt(links', Without(s, i), j, parent)
  {
    hide NoDups;
    var t := Without(s, i);
    var k := if j < i then j else j + 1;
    assert t[j] == s[k];
    Distinct(s, i, k + 1);
    Distinct(s, i, k);
    if k > 0 {
      Distinct(s, i, k - 1);
    }
    if i > 0 {
      Distinct(s, i - 1, k);
    }
    Distinct(s, i + 1, k);
    assert j > 0 ==> t[j - 1] == s[if j - 1 < i then j - 1 else j];
    assert j + 1 < |t| ==> t[j + 1] == s[if j + 1 < i then j + 1 else j + 2];
  }

  lemma Distinct(s: seq<Id>, i: nat, j: nat)
    requires NoDups(s)
    ensures i < |s| && j < |s| && s[i] == s[j] ==> i == j
  {
  }

  lemma WithoutNoDups(s: seq<Id>, i: nat)
    requires NoDups(s) && i < |s|
    ensures NoDups(Without(s, i))
  {
    var t := Without(s, i);
    assert forall a | 0 <= a < |t| :: t[a] == s[if a < i then a else a + 1];
  }

  lemma UnlinkedList(links: LinkMap, links': LinkMap, s: seq<Id>, i: nat, parent: Option<Id>)
    requires IsList(links, s, parent) && i < |s| && UnlinkedAs(links, links', s[i])
    ensures IsList(links', Without(s, i), parent)
  {
    hide UnlinkedAs, NoDups;
    WithoutNoDups(s, i);
    var t := Without(s, i);
    forall j | 0 <= j < |t|
      ensures t[j] in links' && links'[t[j]].parent == parent
      ensures links'[t[j]].prev == Before(t, j) && links'[t[j]].next == Here(t, j + 1)
    {
      UnlinkedAt(links, links', s, i, parent, j);
    }
  }

  /** Lists under another parent keep their links. */
  lemma UnlinkedOther(links: LinkMap, links': LinkMap, n: Id, t: seq<Id>, parent: Option<Id>)
    requires n in links && UnlinkedAs(links, links', n) && IsList(links, t, parent) && links[n].parent != parent
    requires forall m | m in links && (links[n].prev == Some(m) || links[n].next == Some(m)) ::
      links[m].parent == links[n].parent
    ensures IsList(links', t, parent)
  {
  }

  lemma NeighboursShare(links: LinkMap, s: seq<Id>, i: nat, parent: Option<Id>)
    requires IsList(links, s, parent) && i < |s|
    ensures forall m | links[s[i]].prev == Some(m) || links[s[i]].next == Some(m) ::
      m in s && m in links && links[m].parent == parent
  {
  }

  /** Taking a child out of the list of its parent. */
  lemma UnlinkedShape(links: LinkMap, links': LinkMap, root: Option<Id>, top: seq<Id>, kids: Kids, p: Id, i: nat)
    requires Shape(links, root, top, kids) && p in kids && i < |kids[p]| && UnlinkedAs(links, links', kids[p][i])
    ensures Shape(links', root, top, kids[p := Without(kids[p], i)])
  {
    hide IsList;
    var n := kids[p][i];
    UnlinkedFacts(links, kids[p], i, p);
    UnlinkedOther(links, links', n, top, None);
    forall q | q in kids && q != p
      ensures q in links' && links'[q].child == First(kids[q]) && IsList(links', kids[q], Some(q))
    {
      UnlinkedOther(links, links', n, kids[q], Some(q));
    }
    UnlinkedList(links, links', kids[p], i, Some(p));
  }

  lemma UnlinkedFacts(links: LinkMap, s: seq<Id>, i: nat, p: Id)
    requires IsList(links, s, Some(p)) && i < |s|
    ensures s[i] in links && links[s[i]].parent == Some(p)
    ensures forall m | m in links && (links[s[i]].prev == Some(m) || links[s[i]].next == Some(m)) ::
      links[m].parent == Some(p)
    ensures First(s) == Some(s[i]) ==> links[s[i]].next == First(Without(s, i))
    ensures First(s) != Some(s[i]) ==> First(s) == First(Without(s, i))
  {
    NeighboursShare(links, s, i, Some(p));
    if i > 0 {
      assert s[0] != s[i];
    }
  }

  // ----- putting a loose node into a list

  /** What the statements that link a node in between its new neighbours do to the links. */
  ghost predicate LinkedAs(links: LinkMap, links': LinkMap, n: Id, parent: Option<Id>, prev: Option<Id>,
                           next: Option<Id>)
    requires n in links
  {
    && links'.Keys == links.Keys
    && links'[n].parent == parent && links'[n].prev == prev && links'[n].next == next
    && forall m | m in links ::
         && (m != n ==> links'[m].parent == links[m].parent
                        && links'[m].next == (if prev == Some(m) then Some(n) else links[m].next)
                        && links'[m].prev == (if next == Some(m) then Some(n) else links[m].prev))
         && links'[m].child == (if parent == Some(m) && prev.None? then Some(n) else links[m].child)
  }

  lemma LinkedAt(links: LinkMap, links': LinkMap, s: seq<Id>, i: nat, n: Id, parent: Option<Id>, j: nat)
    requires NoDups(s) && i <= |s| && j <= |s| && n !in s && n in links
    requires j != i ==> IsAt(links, s, if j < i then j else j - 1, parent)
    requires LinkedAs(links, links', n, parent, Before(s, i), Here(s, i))
    ensures IsAt(links', With(s, i, n), j, parent)
  {
    hide NoDups;
    var t := With(s, i, n);
    assert t[i] == n;
    if j != i {
      var k := if j < i then j else j - 1;
      assert t[j] == s[k];
      if i > 0 {
        Distinct(s, i - 1, k);
      }
      Distinct(s, i, k);
      assert j > 0 && j - 1 != i ==> t[j - 1] == s[if j - 1 < i then j - 1 else j - 2];
      assert j + 1 < |t| && j + 1 != i ==> t[j + 1] == s[if j + 1 < i then j + 1 else j];
    }
  }

  lemma WithNoDups(s: seq<Id>, i: nat, n: Id)
    requires NoDups(s) && i <= |s| && n !in s
    ensures NoDups(With(s, i, n))
  {
    var t := With(s, i, n);
    assert forall a | 0 <= a < |t| && a != i :: t[a] == s[if a < i then a else a - 1];
  }

  lemma LinkedList(links: LinkMap, links': LinkMap, s: seq<Id>, i: nat, n: Id, parent: Option<Id>)
    requires IsList(links, s, parent) && i <= |s| && n !in s && n in links
    requires LinkedAs(links, links', n, parent, Before(s, i), Here(s, i))
    ensures IsList(links', With(s, i, n), parent)
  {
    hide LinkedAs, NoDups;
    WithNoDups(s, i, n);
    var t := With(s, i, n);
    forall j | 0 <= j < |t|
      ensures t[j] in links' && links'[t[j]].parent == parent
      ensures links'[t[j]].prev == Before(t, j) && links'[t[j]].next == Here(t, j + 1)
    {
      if j != i {
        var k := if j < i then j else j - 1;
        assert s[k] in links;
      }
      LinkedAt(links, links', s, i, n, parent, j);
    }
  }

  lemma LinkedOther(links: LinkMap, links': LinkMap, s: seq<Id>, i: nat, n: Id, parent: Option<Id>, t: seq<Id>,
                    other: Option<Id>)
    requires IsList(links, s, parent) && i <= |s| && n in links
    requires LinkedAs(links, links', n, parent, Before(s, i), Here(s, i))
    requires IsList(links, t, other) && other != parent && n !in t
    ensures IsList(links', t, other)
  {
    forall j | 0 <= j < |t| ensures Before(s, i) != Some(t[j]) && Here(s, i) != Some(t[j]) {
      assert links[t[j]].parent == other;
    }
  }

  ghost predicate Loose(n: Id, top: seq<Id>, kids: Kids) {
    n !in top && forall p | p in kids :: n !in kids[p]
  }

  /** Putting a loose node into the list of a parent. */
  lemma LinkedShape(links: LinkMap, links': LinkMap, root: Option<Id>, top: seq<Id>, kids: Kids, p: Id, i: nat, n: Id)
    requires Shape(links, root, top, kids) && p in kids && i <= |kids[p]| && n in links && Loose(n, top, kids)
    requires LinkedAs(links, links', n, Some(p), Before(kids[p], i), Here(kids[p], i))
    ensures Shape(links', root, top, kids[p := With(kids[p], i, n)])
  {
    hide IsList;
    LinkedOther(links, links', kids[p], i, n, Some(p), top, None);
    forall q | q in kids && q != p
      ensures q in links' && links'[q].child == First(kids[q]) && IsList(links', kids[q], Some(q))
    {
      LinkedOther(links, links', kids[p], i, n, Some(p), kids[q], Some(q));
    }
    LinkedList(links, links', kids[p], i, n, Some(p));
  }

  /** Putting a loose node into the list of groups. */
  lemma LinkedTop(links: LinkMap, links': LinkMap, root: Option<Id>, top: seq<Id>, kids: Kids, i: nat, n: Id)
    requires Shape(links, root, top, kids) && i <= |top| && n in links && Loose(n, top, kids)
    requires LinkedAs(links, links', n, None, Before(top, i), Here(top, i))
    ensures Shape(links', First(With(top, i, n)), With(top, i, n), kids)
  {
    hide IsList;
    forall q | q in kids
      ensures q in links' && links'[q].child == First(kids[q]) && IsList(links', kids[q], Some(q))
    {
      LinkedOther(links, links', top, i, n, None, kids[q], Some(q));
    }
    LinkedList(links, links', top, i, n, None);
  }

  /** Taking a group out of the list of groups. */
  lemma UnlinkedTop(links: LinkMap, links': LinkMap, root: Option<Id>, top: seq<Id>, kids: Kids, i: nat)
    requires Shape(links, root, top, kids) && i < |top| && top[i] in links && UnlinkedAs(links, links', top[i])
    ensures Shape(links', First(Without(top, i)), Without(top, i), kids)
  {
    hide IsList;
    TopFacts(links, top, i);
    forall q | q in kids
      ensures q in links' && links'[q].child == First(kids[q]) && IsList(links', kids[q], Some(q))
    {
      UnlinkedOther(links, links', top[i], kids[q], Some(q));
    }
    UnlinkedList(links, links', top, i, None);
  }

  lemma TopFacts(links: LinkMap, s: seq<Id>, i: nat)
    requires IsList(links, s, None) && i < |s|
    ensures s[i] in links && links[s[i]].parent == None
    ensures forall m | m in links && (links[s[i]].prev == Some(m) || links[s[i]].next == Some(m)) ::
      links[m].parent == None
  {
    NeighboursShare(links, s, i, None);
  }

  // ----- the tree

  datatype Kind = GroupNode | ContactNode | BuddyNode | ChatNode

  type KindMap = map<Id, Kind>

  /** Groups hold contacts and chats, contacts hold buddies; only groups and contacts hold anything,
      and only the groups of the list do. */
  ghost predicate Kinds(kinds: KindMap, links: LinkMap, top: seq<Id>, kids: Kids) {
    && links.Keys == kinds.Keys
    && (forall n :: n in kids <==> n in kinds && (kinds[n] == GroupNode || kinds[n] == ContactNode))
    && (forall n | n in top :: n in kinds && kinds[n] == GroupNode)
    && (forall p, n | p in kids && n in kids[p] :: n in kinds && Holds(kinds[p], kinds[n]))
    && (forall p | p in kids && kinds[p] == GroupNode && kids[p] != [] :: p in top)
  }

  predicate Holds(p: Kind, n: Kind) {
    if p == ContactNode then n == BuddyNode else p == GroupNode && (n == ContactNode || n == ChatNode)
  }

  /** A node whose parent is set is among the children of the parent; the loose nodes are nowhere. */
  ghost predicate Homes(kinds: KindMap, links: LinkMap, top: seq<Id>, kids: Kids, loose: set<Id>) {
    && (forall n | n in kinds && n in links && n !in loose :: Home(kinds[n], links[n].parent, kids, n))
    && (forall n | n in loose :: n in kinds && kinds[n] != GroupNode && Loose(n, top, kids))
  }

  ghost predicate Home(kind: Kind, parent: Option<Id>, kids: Kids, n: Id) {
    if parent.Some? then parent.value in kids && n in kids[parent.value]
    else kind == ContactNode && n in kids ==> kids[n] == []
  }

  ghost predicate Tree(kinds: KindMap, links: LinkMap, root: Option<Id>, top: seq<Id>, kids: Kids, loose: set<Id>) {
    Shape(links, root, top, kids) && Kinds(kinds, links, top, kids) && Homes(kinds, links, top, kids, loose)
  }

  /** No list but that of its parent has a node. */
  lemma OneHome(kinds: KindMap, links: LinkMap, root: Option<Id>, top: seq<Id>, kids: Kids, loose: set<Id>, p: Id,
                n: Id)
    requires Tree(kinds, links, root, top, kids, loose) && p in kids && n in kids[p]
    ensures n in links && links[n].parent == Some(p) && n !in top && n !in loose && n in kinds && p in kinds
    ensures NoDups(kids[p]) && forall q | q in kids && q != p :: n !in kids[q]
  {
    forall q | q in kids && n in kids[q] ensures links[n].parent == Some(q) {
    }
  }

  lemma DropKinds(kinds: KindMap, links: LinkMap, links': LinkMap, top: seq<Id>, kids: Kids, p: Id, n: Id)
    requires Kinds(kinds, links, top, kids) && links'.Keys == links.Keys && p in kids && n in kids[p] && NoDups(kids[p])
    ensures Kinds(kinds, links', top, kids[p := Drop(kids[p], n)])
  {
    hide Drop, Holds, NoDups;
    DropMembers(kids[p], n);
  }

  lemma DropHomes(kinds: KindMap, links: LinkMap, links': LinkMap, top: seq<Id>, kids: Kids, loose: set<Id>, p: Id,
                  n: Id)
    requires Homes(kinds, links, top, kids, loose) && p in kids && n in kids[p] && NoDups(kids[p])
    requires links'.Keys == links.Keys && forall m | m in links :: links'[m].parent == links[m].parent
    requires n !in top && (forall q | q in kids && q != p :: n !in kids[q]) && n in kinds && kinds[n] != GroupNode
    ensures Homes(kinds, links', top, kids[p := Drop(kids[p], n)], loose + {n})
  {
    hide Drop, NoDups;
    DropMembers(kids[p], n);
    var kids' := kids[p := Drop(kids[p], n)];
    forall m | m in kinds && m in links' && m !in loose + {n} ensures Home(kinds[m], links'[m].parent, kids', m) {
      assert Home(kinds[m], links[m].parent, kids, m);
    }
  }

  /** A node that is unlinked is loose. */
  lemma UnlinkedTree(kinds: KindMap, links: LinkMap, links': LinkMap, root: Option<Id>, top: seq<Id>, kids: Kids,
                     loose: set<Id>,
                     p: Id, n: Id)
    requires Tree(kinds, links, root, top, kids, loose) && p in kids && n in kids[p] && n in links
    requires UnlinkedAs(links, links', n)
    ensures Tree(kinds, links', root, top, kids[p := Drop(kids[p], n)], loose + {n})
  {
    hide Shape, UnlinkedAs, Drop, NoDups, Homes;
    OneHome(kinds, links, root, top, kids, loose, p, n);
    DropShape(links, links', root, top, kids, p, n);
    SameParents(links, links', n);
    DropKinds(kinds, links, links', top, kids, p, n);
    DropHomes(kinds, links, links', top, kids, loose, p, n);
  }

  lemma SameParents(links: LinkMap, links': LinkMap, n: Id)
    requires n in links && UnlinkedAs(links, links', n)
    ensures links'.Keys == links.Keys && forall m | m in links :: links'[m].parent == links[m].parent
  {
  }

  lemma DropShape(links: LinkMap, links': LinkMap, root: Option<Id>, top: seq<Id>, kids: Kids, p: Id, n: Id)
    requires Shape(links, root, top, kids) && p in kids && n in kids[p] && n in links && UnlinkedAs(links, links', n)
    ensures Shape(links', root, top, kids[p := Drop(kids[p], n)])
  {
    UnlinkedShape(links, links', root, top, kids, p, Place(kids[p], n));
  }

  lemma WithKinds(kinds: KindMap, links: LinkMap, links': LinkMap, top: seq<Id>, kids: Kids, p: Id, i: nat, n: Id)
    requires Kinds(kinds, links, top, kids) && links'.Keys == links.Keys
    requires p in kids && i <= |kids[p]| && n !in kids[p] && NoDups(kids[p])
    requires p in kinds && n in kinds && Holds(kinds[p], kinds[n]) && (kinds[p] == GroupNode ==> p in top)
    ensures Kinds(kinds, links', top, kids[p := With(kids[p], i, n)])
  {
    hide With, Holds, NoDups;
    WithMembers(kids[p], i, n);
  }

  lemma WithHomes(kinds: KindMap, links: LinkMap, links': LinkMap, top: seq<Id>, kids: Kids, loose: set<Id>, p: Id,
                  i: nat, n: Id)
    requires Homes(kinds, links, top, kids, loose) && n in loose && p in kids && i <= |kids[p]| && n !in kids[p]
      && NoDups(kids[p])
    requires links'.Keys == links.Keys && n in links && links'[n].parent == Some(p)
    requires forall m | m in links && m != n :: links'[m].parent == links[m].parent
    requires p in kinds && (kinds[p] == ContactNode ==> p !in loose && p in links && links[p].parent.Some?)
    ensures Homes(kinds, links', top, kids[p := With(kids[p], i, n)], loose - {n})
  {
    hide With, NoDups;
    WithMembers(kids[p], i, n);
    var kids' := kids[p := With(kids[p], i, n)];
    forall m | m in kinds && m in links' && m !in loose - {n} ensures Home(kinds[m], links'[m].parent, kids', m) {
      if m != n {
        assert Home(kinds[m], links[m].parent, kids, m);
      }
    }
  }

  /** A loose node that is linked under a parent is in the tree. */
  lemma LinkedTree(kinds: KindMap, links: LinkMap, links': LinkMap, root: Option<Id>, top: seq<Id>, kids: Kids,
                   loose: set<Id>,
                   p: Id, i: nat, n: Id)
    requires Tree(kinds, links, root, top, kids, loose) && p in kids && i <= |kids[p]| && n in loose && n in links
    requires p in kinds && n in kinds && Holds(kinds[p], kinds[n]) && (kinds[p] == GroupNode ==> p in top)
    requires kinds[p] == ContactNode ==> p !in loose && p in links && links[p].parent.Some?
    requires LinkedAs(links, links', n, Some(p), Before(kids[p], i), Here(kids[p], i))
    ensures Tree(kinds, links', root, top, kids[p := With(kids[p], i, n)], loose - {n})
  {
    hide Shape, LinkedAs, With, NoDups, Kinds;
    LinkedShape(links, links', root, top, kids, p, i, n);
    ListNoDups(links, root, top, kids, p);
    LinkedParents(links, links', n, Some(p), Before(kids[p], i), Here(kids[p], i));
    WithKinds(kinds, links, links', top, kids, p, i, n);
    WithHomes(kinds, links, links', top, kids, loose, p, i, n);
  }

  lemma ListNoDups(links: LinkMap, root: Option<Id>, top: seq<Id>, kids: Kids, p: Id)
    requires Shape(links, root, top, kids) && p in kids
    ensures NoDups(kids[p])
  {
  }

  lemma LinkedParents(links: LinkMap, links': LinkMap, n: Id, parent: Option<Id>, prev: Option<Id>, next: Option<Id>)
    requires n in links && LinkedAs(links, links', n, parent, prev, next)
    ensures links'.Keys == links.Keys && links'[n].parent == parent
    ensures forall m | m in links && m != n :: links'[m].parent == links[m].parent
  {
  }

  lemma FreedShape(links: LinkMap, root: Option<Id>, top: seq<Id>, kids: Kids, n: Id)
    requires Shape(links, root, top, kids) && Loose(n, top, kids)
    ensures Shape(links - {n}, root, top, kids - {n})
  {
    var links', kids' := links - {n}, kids - {n};
    forall p | p in kids'
      ensures p in links' && links'[p].child == First(kids'[p]) && IsList(links', kids'[p], Some(p))
    {
      FreedList(links, kids[p], Some(p), n);
    }
    FreedList(links, top, None, n);
  }

  lemma FreedList(links: LinkMap, s: seq<Id>, parent: Option<Id>, n: Id)
    requires IsList(links, s, parent) && n !in s
    ensures IsList(links - {n}, s, parent)
  {
  }

  lemma FreedHomes(kinds: KindMap, links: LinkMap, top: seq<Id>, kids: Kids, loose: set<Id>, n: Id)
    requires Homes(kinds, links, top, kids, loose) && n in loose && (n in kids ==> kids[n] == [])
    ensures Homes(kinds - {n}, links - {n}, top, kids - {n}, loose - {n})
  {
    var kids' := kids - {n};
    forall m | m in kinds && m in links && m != n && m !in loose ensures Home(kinds[m], links[m].parent, kids', m) {
      assert Home(kinds[m], links[m].parent, kids, m);
    }
  }

  lemma FreedKinds(kinds: KindMap, links: LinkMap, top: seq<Id>, kids: Kids, n: Id)
    requires Kinds(kinds, links, top, kids) && Loose(n, top, kids)
    ensures Kinds(kinds - {n}, links - {n}, top, kids - {n})
  {
    hide Holds;
  }

  /** Freeing a loose node that has no children. */
  lemma FreedTree(kinds: KindMap, links: LinkMap, root: Option<Id>, top: seq<Id>, kids: Kids, loose: set<Id>, n: Id)
    requires Tree(kinds, links, root, top, kids, loose) && n in loose && (n in kids ==> kids[n] == [])
    ensures Tree(kinds - {n}, links - {n}, root, top, kids - {n}, loose - {n})
  {
    hide Shape, Kinds;
    FreedShape(links, root, top, kids, n);
    FreedKinds(kinds, links, top, kids, n);
    FreedHomes(kinds, links, top, kids, loose, n);
  }

  function WithNew(kids: Kids, n: Id, kind: Kind): Kids {
    if kind == GroupNode || kind == ContactNode then kids[n := []] else kids
  }

  lemma NewList(links: LinkMap, s: seq<Id>, parent: Option<Id>, n: Id)
    requires IsList(links, s, parent) && n !in links
    ensures IsList(links[n := FREE], s, parent)
  {
  }

  lemma NewShape(links: LinkMap, root: Option<Id>, top: seq<Id>, kids: Kids, n: Id, kind: Kind)
    requires Shape(links, root, top, kids) && n !in links
    ensures Shape(links[n := FREE], root, top, WithNew(kids, n, kind))
  {
    hide IsList;
    var links', kids' := links[n := FREE], WithNew(kids, n, kind);
    forall p | p in kids'
      ensures p in links' && links'[p].child == First(kids'[p]) && IsList(links', kids'[p], Some(p))
    {
      if p in kids {
        assert p != n;
        NewList(links, kids[p], Some(p), n);
      } else {
        EmptyList(links', Some(p));
      }
    }
    NewList(links, top, None, n);
  }

  lemma EmptyList(links: LinkMap, parent: Option<Id>)
    ensures IsList(links, [], parent)
  {
  }

  lemma NewKinds(kinds: KindMap, links: LinkMap, top: seq<Id>, kids: Kids, n: Id, kind: Kind)
    requires Kinds(kinds, links, top, kids) && n !in kinds
    ensures Kinds(kinds[n := kind], links[n := FREE], top, WithNew(kids, n, kind))
  {
    hide Holds;
  }

  lemma NewHomes(kinds: KindMap, links: LinkMap, top: seq<Id>, kids: Kids, loose: set<Id>, n: Id, kind: Kind)
    requires Homes(kinds, links, top, kids, loose) && n !in kinds && n !in kids
    ensures Homes(kinds[n := kind], links[n := FREE], top, WithNew(kids, n, kind), loose)
  {
    var kids' := WithNew(kids, n, kind);
    forall m | m in kinds && m in links && m !in loose ensures Home(kinds[m], links[m].parent, kids', m) {
      assert Home(kinds[m], links[m].parent, kids, m);
    }
  }

  /** A new node is in no list. */
  lemma NewTree(kinds: KindMap, links: LinkMap, root: Option<Id>, top: seq<Id>, kids: Kids, loose: set<Id>, n: Id,
                kind: Kind)
    requires Tree(kinds, links, root, top, kids, loose) && n !in kinds
    ensures Tree(kinds[n := kind], links[n := FREE], root, top, WithNew(kids, n, kind), loose)
  {
    hide Shape, Homes;
    NewShape(links, root, top, kids, n, kind);
    NewKinds(kinds, links, top, kids, n, kind);
    NewHomes(kinds, links, top, kids, loose, n, kind);
  }
}
