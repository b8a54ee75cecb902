/** What the buddy list derives from its tree: counters, the best buddy of a contact, the index. */
module BlistState {
  import opened BlistTree
  import opened Wrappers

  // ----- counting the members of a list that have a mark

  function Count(s: seq<Id>, m: set<Id>): (n: nat)
    ensures n <= |s|
  {
    if s == [] then 0 else (if s[0] in m then 1 else 0) + Count(s[1..], m)
  }

  function One(b: bool): nat { if b then 1 else 0 }

  lemma {:induction false} CountSplit(s: seq<Id>, t: seq<Id>, m: set<Id>)
    ensures Count(s + t, m) == Count(s, m) + Count(t, m)
    decreases |s|
  {
    if s == [] {
      assert s + t == t;
    } else {
      assert (s + t)[1..] == s[1..] + t;
      CountSplit(s[1..], t, m);
    }
  }

  lemma CountSingle(n: Id, m: set<Id>)
    ensures Count([n], m) == One(n in m)
  {
    assert [n][1..] == [];
  }

  lemma CountWithout(s: seq<Id>, i: nat, m: set<Id>)
    requires i < |s|
    ensures Count(s, m) == Count(Without(s, i), m) + One(s[i] in m)
  {
    hide Count;
    assert s == s[..i] + ([s[i]] + s[i + 1..]);
    CountSplit(s[..i], [s[i]] + s[i + 1..], m);
    CountSplit([s[i]], s[i + 1..], m);
    CountSplit(s[..i], s[i + 1..], m);
    CountSingle(s[i], m);
  }

  lemma CountWith(s: seq<Id>, i: nat, n: Id, m: set<Id>)
    requires i <= |s|
    ensures Count(With(s, i, n), m) == Count(s, m) + One(n in m)
  {
    hide Count;
    var t := With(s, i, n);
    assert Without(t, i) == s;
    CountWithout(t, i, m);
  }

  lemma {:induction false} CountSame(s: seq<Id>, m: set<Id>, m': set<Id>)
    requires forall x | x in s :: x in m <==> x in m'
    ensures Count(s, m) == Count(s, m')
    decreases |s|
  {
    if s != [] {
      assert s[0] in s;
      CountSame(s[1..], m, m');
    }
  }

  /** Marking one member more. */
  lemma CountMark(s: seq<Id>, x: Id, m: set<Id>, m': set<Id>)
    requires NoDups(s) && x in s && x !in m && x in m' && forall y | y in s && y != x :: y in m <==> y in m'
    ensures Count(s, m') == Count(s, m) + 1
  {
    var i := Place(s, x);
    CountWithout(s, i, m);
    CountWithout(s, i, m');
    DropMembers(s, x);
    CountSame(Without(s, i), m, m');
  }

  lemma {:induction false} CountEmpty(s: seq<Id>)
    ensures Count(s, {}) == 0
    decreases |s|
  {
    if s != [] {
      CountEmpty(s[1..]);
    }
  }

  // ----- counters of contacts and groups

  type Tallies = map<Id, int>

  function Lit(sizes: Tallies): set<Id> { set c | c in sizes && sizes[c] > 0 }

  /** A contact counts its marked buddies; a group counts the contacts that have one, and its marked chats. */
  ghost predicate Tally(sizes: Tallies, groupSizes: Tallies, kids: Kids, marked: set<Id>, chats: set<Id>) {
    && (forall c | c in sizes :: c in kids && sizes[c] == Count(kids[c], marked))
    && (forall g | g in groupSizes :: g in kids && groupSizes[g] == Count(kids[g], Lit(sizes) + chats))
  }

  /** `c` and `g` are a contact and a group, `c` is in `g` and nowhere else, and is no chat. */
  ghost predicate Nested(sizes: Tallies, groupSizes: Tallies, kids: Kids, chats: set<Id>, c: Id, g: Id) {
    && c in sizes && g in groupSizes && c !in groupSizes && g !in sizes && c !in chats
    && c in kids && g in kids && c in kids[g] && NoDups(kids[g])
    && (forall q | q in groupSizes && q != g && q in kids :: c !in kids[q])
  }

  function Fewer(sizes: Tallies, groupSizes: Tallies, c: Id, g: Id, mark: bool): (Tallies, Tallies)
    requires c in sizes && g in groupSizes
  {
    if mark then (sizes[c := sizes[c] - 1], if sizes[c] == 1 then groupSizes[g := groupSizes[g] - 1] else groupSizes)
    else (sizes, groupSizes)
  }

  function More(sizes: Tallies, groupSizes: Tallies, c: Id, g: Id, mark: bool): (Tallies, Tallies)
    requires c in sizes && g in groupSizes
  {
    if mark then (sizes[c := sizes[c] + 1], if sizes[c] == 0 then groupSizes[g := groupSizes[g] + 1] else groupSizes)
    else (sizes, groupSizes)
  }

  /** Groups follow a contact whose count goes from `sizes[c]` to `n`. */
  lemma GroupFollows(sizes: Tallies, kids: Kids, chats: set<Id>, c: Id, g: Id, q: Id, n: nat, groupSizes: Tallies)
    requires Nested(sizes, groupSizes, kids, chats, c, g) && q in groupSizes && q in kids
    requires sizes[c] >= 0
    requires groupSizes[q] == Count(kids[q], Lit(sizes) + chats)
    ensures Count(kids[q], Lit(sizes[c := n]) + chats) ==
            groupSizes[q] + (if q != g then 0 else One(n > 0) - One(sizes[c] > 0))
  {
    var m, m' := Lit(sizes) + chats, Lit(sizes[c := n]) + chats;
    if q != g || (n > 0) == (sizes[c] > 0) {
      CountSame(kids[q], m, m');
    } else if n > 0 {
      CountMark(kids[q], c, m, m');
    } else {
      CountMark(kids[q], c, m', m);
    }
  }

  /** The buddy `b` leaves the contact. */
  lemma TallyLeave(sizes: Tallies, groupSizes: Tallies, kids: Kids, marked: set<Id>, chats: set<Id>, c: Id, g: Id,
                   i: nat)
    requires Tally(sizes, groupSizes, kids, marked, chats) && Nested(sizes, groupSizes, kids, chats, c, g)
      && i < |kids[c]|
    ensures var (s, gs) := Fewer(sizes, groupSizes, c, g, kids[c][i] in marked);
            Tally(s, gs, kids[c := Without(kids[c], i)], marked, chats)
  {
    hide Lit;
    var (s, gs) := Fewer(sizes, groupSizes, c, g, kids[c][i] in marked);
    CountWithout(kids[c], i, marked);
    if kids[c][i] in marked {
      forall q | q in groupSizes ensures q in kids && gs[q] == Count(kids[q], Lit(s) + chats) {
        GroupFollows(sizes, kids, chats, c, g, q, sizes[c] - 1, groupSizes);
      }
    }
  }

  /** All counters are right but that of `c`, which may be too high. */
  ghost predicate TallyBeside(sizes: Tallies, groupSizes: Tallies, kids: Kids, marked: set<Id>, chats: set<Id>, c: Id) {
    && (forall d | d in sizes && d != c :: d in kids && sizes[d] == Count(kids[d], marked))
    && (c in sizes ==> c in kids && sizes[c] >= Count(kids[c], marked))
    && (forall g | g in groupSizes :: g in kids && groupSizes[g] == Count(kids[g], Lit(sizes) + chats))
  }

  /** By how much it is. */
  function Excess(sizes: Tallies, kids: Kids, marked: set<Id>, c: Id): int {
    if c in sizes && c in kids then sizes[c] - Count(kids[c], marked) else 0
  }

  lemma BesideIsTally(sizes: Tallies, groupSizes: Tallies, kids: Kids, marked: set<Id>, chats: set<Id>, c: Id)
    ensures Tally(sizes, groupSizes, kids, marked, chats) <==>
            TallyBeside(sizes, groupSizes, kids, marked, chats, c) && Excess(sizes, kids, marked, c) == 0
  {
  }

  /** A buddy leaves the contact, and the counters follow if `counted`; one with the mark that is not counted stays in
      the excess. */
  lemma BesideLeave(sizes: Tallies, groupSizes: Tallies, kids: Kids, marked: set<Id>, chats: set<Id>, c: Id, g: Id,
                    i: nat, counted: bool)
    requires TallyBeside(sizes, groupSizes, kids, marked, chats, c) && Nested(sizes, groupSizes, kids, chats, c, g)
      && i < |kids[c]|
    requires counted ==> kids[c][i] in marked
    ensures var (s, gs) := Fewer(sizes, groupSizes, c, g, counted);
      var kids' := kids[c := Without(kids[c], i)];
      && TallyBeside(s, gs, kids', marked, chats, c)
      && Excess(s, kids', marked, c) == Excess(sizes, kids, marked, c) + One(kids[c][i] in marked) - One(counted)
  {
    hide Lit;
    var (s, gs) := Fewer(sizes, groupSizes, c, g, counted);
    CountWithout(kids[c], i, marked);
    if counted {
      forall q | q in groupSizes ensures q in kids && gs[q] == Count(kids[q], Lit(s) + chats) {
        GroupFollows(sizes, kids, chats, c, g, q, sizes[c] - 1, groupSizes);
      }
    }
  }

  /** A loose buddy joins the contact. */
  lemma TallyJoin(sizes: Tallies, groupSizes: Tallies, kids: Kids, marked: set<Id>, chats: set<Id>, c: Id, g: Id,
                  i: nat, b: Id)
    requires Tally(sizes, groupSizes, kids, marked, chats) && Nested(sizes, groupSizes, kids, chats, c, g)
      && i <= |kids[c]|
    ensures var (s, gs) := More(sizes, groupSizes, c, g, b in marked);
            Tally(s, gs, kids[c := With(kids[c], i, b)], marked, chats)
  {
    hide Lit;
    var (s, gs) := More(sizes, groupSizes, c, g, b in marked);
    CountWith(kids[c], i, b, marked);
    if b in marked {
      forall q | q in groupSizes ensures q in kids && gs[q] == Count(kids[q], Lit(s) + chats) {
        GroupFollows(sizes, kids, chats, c, g, q, sizes[c] + 1, groupSizes);
      }
    }
  }

  /** Only `c` has `b` among its children. */
  ghost predicate OnlyIn(sizes: Tallies, kids: Kids, b: Id, c: Id) {
    c in kids && b in kids[c] && NoDups(kids[c]) && forall d | d in sizes && d != c && d in kids :: b !in kids[d]
  }

  /** A buddy of the contact gets the mark. */
  lemma TallyMark(sizes: Tallies, groupSizes: Tallies, kids: Kids, marked: set<Id>, chats: set<Id>, c: Id, g: Id, b: Id)
    requires Tally(sizes, groupSizes, kids, marked, chats) && Nested(sizes, groupSizes, kids, chats, c, g)
    requires OnlyIn(sizes, kids, b, c) && b !in marked
    ensures var (s, gs) := More(sizes, groupSizes, c, g, true);
            Tally(s, gs, kids, marked + {b}, chats)
  {
    hide Lit;
    var (s, gs) := More(sizes, groupSizes, c, g, true);
    CountMark(kids[c], b, marked, marked + {b});
    forall d | d in sizes && d != c ensures d in kids && s[d] == Count(kids[d], marked + {b}) {
      CountSame(kids[d], marked, marked + {b});
    }
    forall q | q in groupSizes ensures q in kids && gs[q] == Count(kids[q], Lit(s) + chats) {
      GroupFollows(sizes, kids, chats, c, g, q, sizes[c] + 1, groupSizes);
    }
  }

  /** A buddy of the contact loses it. */
  lemma TallyUnmark(sizes: Tallies, groupSizes: Tallies, kids: Kids, marked: set<Id>, chats: set<Id>, c: Id, g: Id,
                    b: Id)
    requires Tally(sizes, groupSizes, kids, marked, chats) && Nested(sizes, groupSizes, kids, chats, c, g)
    requires OnlyIn(sizes, kids, b, c) && b in marked
    ensures var (s, gs) := Fewer(sizes, groupSizes, c, g, true);
            Tally(s, gs, kids, marked - {b}, chats)
  {
    hide Lit;
    var (s, gs) := Fewer(sizes, groupSizes, c, g, true);
    CountMark(kids[c], b, marked - {b}, marked);
    forall d | d in sizes && d != c ensures d in kids && s[d] == Count(kids[d], marked - {b}) {
      CountSame(kids[d], marked, marked - {b});
    }
    forall q | q in groupSizes ensures q in kids && gs[q] == Count(kids[q], Lit(s) + chats) {
      GroupFollows(sizes, kids, chats, c, g, q, sizes[c] - 1, groupSizes);
    }
  }

  /** Marks of nodes that are no buddies of a contact do not matter. */
  lemma TallySame(sizes: Tallies, groupSizes: Tallies, kids: Kids, marked: set<Id>, marked': set<Id>, chats: set<Id>,
                  chats': set<Id>)
    requires Tally(sizes, groupSizes, kids, marked, chats)
    requires forall c, b | c in sizes && c in kids && b in kids[c] :: b in marked <==> b in marked'
    requires forall g, n | g in groupSizes && g in kids && n in kids[g] :: n in chats <==> n in chats'
    ensures Tally(sizes, groupSizes, kids, marked', chats')
  {
    forall c | c in sizes ensures c in kids && sizes[c] == Count(kids[c], marked') {
      CountSame(kids[c], marked, marked');
    }
    forall g | g in groupSizes ensures g in kids && groupSizes[g] == Count(kids[g], Lit(sizes) + chats') {
      CountSame(kids[g], Lit(sizes) + chats, Lit(sizes) + chats');
    }
  }

  /** A contact or a chat leaves its group. */
  lemma TallyOut(sizes: Tallies, groupSizes: Tallies, kids: Kids, marked: set<Id>, chats: set<Id>, g: Id, i: nat)
    requires Tally(sizes, groupSizes, kids, marked, chats) && g in groupSizes && g in kids && g !in sizes
      && i < |kids[g]|
    ensures Tally(sizes, groupSizes[g := groupSizes[g] - One(kids[g][i] in Lit(sizes) + chats)],
                  kids[g := Without(kids[g], i)], marked, chats)
  {
    CountWithout(kids[g], i, Lit(sizes) + chats);
  }

  /** A contact or a chat that is in no group joins one. */
  lemma TallyIn(sizes: Tallies, groupSizes: Tallies, kids: Kids, marked: set<Id>, chats: set<Id>, g: Id, i: nat, n: Id)
    requires Tally(sizes, groupSizes, kids, marked, chats) && g in groupSizes && g in kids && g !in sizes
      && i <= |kids[g]|
    ensures Tally(sizes, groupSizes[g := groupSizes[g] + One(n in Lit(sizes) + chats)],
                  kids[g := With(kids[g], i, n)], marked, chats)
  {
    CountWith(kids[g], i, n, Lit(sizes) + chats);
  }

  /** A chat of one group gets the mark. */
  lemma TallyMarkChat(sizes: Tallies, groupSizes: Tallies, kids: Kids, marked: set<Id>, chats: set<Id>, g: Id, n: Id)
    requires Tally(sizes, groupSizes, kids, marked, chats) && g in groupSizes && OnlyIn(groupSizes, kids, n, g)
    requires n !in Lit(sizes) + chats
    ensures Tally(sizes, groupSizes[g := groupSizes[g] + 1], kids, marked, chats + {n})
  {
    var m, m' := Lit(sizes) + chats, Lit(sizes) + (chats + {n});
    forall q | q in groupSizes
      ensures q in kids && groupSizes[g := groupSizes[g] + 1][q] == Count(kids[q], m')
    {
      if q == g {
        CountMark(kids[g], n, m, m');
      } else {
        CountSame(kids[q], m, m');
      }
    }
  }

  /** A chat of one group loses it. */
  lemma TallyUnmarkChat(sizes: Tallies, groupSizes: Tallies, kids: Kids, marked: set<Id>, chats: set<Id>, g: Id, n: Id)
    requires Tally(sizes, groupSizes, kids, marked, chats) && g in groupSizes && OnlyIn(groupSizes, kids, n, g)
    requires n !in Lit(sizes) && n in chats
    ensures Tally(sizes, groupSizes[g := groupSizes[g] - 1], kids, marked, chats - {n})
  {
    var m, m' := Lit(sizes) + chats, Lit(sizes) + (chats - {n});
    forall q | q in groupSizes
      ensures q in kids && groupSizes[g := groupSizes[g] - 1][q] == Count(kids[q], m')
    {
      if q == g {
        CountMark(kids[g], n, m', m);
      } else {
        CountSame(kids[q], m, m');
      }
    }
  }

  // ----- the buddies and the best of them

  type Account = nat

  datatype Presence = SigningOff | Offline | Online | SigningOn

  /** A buddy; a timer of 0 is none. */
  datatype Buddy = Buddy(account: Account, name: string, present: Presence, unavailable: bool, idle: int, timer: nat)

  datatype Contact = Contact(totalsize: int, currentsize: int, online: int, priority: Option<Id>)

  datatype Group = Group(name: string, currentsize: int, online: int)

  type Buddies = map<Id, Buddy>

  const INT_MAX := 0x7fff_ffff

  /** The preferences and the protocol code the list relies on. */
  datatype Config = Config(offlineScore: int, awayScore: int, idleScore: int, lastMatch: bool,
                           accountScore: Account -> int, normalize: (Account, string) -> string)

  /** `GAIM_BUDDY_IS_ONLINE` */
  predicate IsOnline(b: Buddy, connected: set<Account>) {
    b.account in connected && (b.present == Online || b.present == SigningOn)
  }

  function Score(cfg: Config, b: Buddy, connected: set<Account>): int {
    (if !IsOnline(b, connected) then cfg.offlineScore else 0)
    + (if b.unavailable then cfg.awayScore else 0)
    + (if b.idle != 0 then cfg.idleScore else 0)
    + cfg.accountScore(b.account)
  }

  lemma ScoreParts(cfg: Config, b: Buddy, connected: set<Account>)
    ensures Score(cfg, b, connected) ==
      (if !IsOnline(b, connected) then cfg.offlineScore else 0) + (if b.unavailable then cfg.awayScore else 0)
      + (if b.idle != 0 then cfg.idleScore else 0) + cfg.accountScore(b.account)
  {
  }

  /** Every score is an int that can still be improved on. */
  ghost predicate Scores(cfg: Config) {
    forall b: Buddy, connected: set<Account> :: Score(cfg, b, connected) < INT_MAX
  }

  predicate Candidate(buddies: Buddies, connected: set<Account>, n: Id) {
    n in buddies && buddies[n].account in connected
  }

  /** The candidate at `i` beats all others: it is the first with the least score, or the last. */
  ghost predicate Wins(cfg: Config, buddies: Buddies, connected: set<Account>, s: seq<Id>, i: nat) {
    && i < |s| && Candidate(buddies, connected, s[i])
    && forall j | 0 <= j < |s| && j != i && Candidate(buddies, connected, s[j]) ::
         if (if cfg.lastMatch then j > i else j < i)
         then Score(cfg, buddies[s[i]], connected) < Score(cfg, buddies[s[j]], connected)
         else Score(cfg, buddies[s[i]], connected) <= Score(cfg, buddies[s[j]], connected)
  }

  /** `p` is the buddy that represents the list, if any of them can. */
  ghost predicate IsBest(cfg: Config, buddies: Buddies, connected: set<Account>, s: seq<Id>, p: Option<Id>) {
    if p.None? then forall j | 0 <= j < |s| :: !Candidate(buddies, connected, s[j])
    else exists i :: 0 <= i < |s| && s[i] == p.value && Wins(cfg, buddies, connected, s, i)
  }

  /** There is only one such buddy. */
  lemma BestIsUnique(cfg: Config, buddies: Buddies, connected: set<Account>, s: seq<Id>, p: Option<Id>, q: Option<Id>)
    requires IsBest(cfg, buddies, connected, s, p) && IsBest(cfg, buddies, connected, s, q)
    ensures p == q
  {
    if p.Some? && q.Some? {
      var i :| 0 <= i < |s| && s[i] == p.value && Wins(cfg, buddies, connected, s, i);
      var j :| 0 <= j < |s| && s[j] == q.value && Wins(cfg, buddies, connected, s, j);
    }
  }

  lemma WinsWithout(cfg: Config, buddies: Buddies, connected: set<Account>, s: seq<Id>, i: nat, k: nat)
    requires i < |s| && k < |s| && i != k && Wins(cfg, buddies, connected, s, k)
    ensures Wins(cfg, buddies, connected, Without(s, i), if k < i then k else k - 1)
  {
    hide Candidate, Score;
    var t := Without(s, i);
    assert forall j | 0 <= j < |t| :: t[j] == s[if j < i then j else j + 1];
  }

  /** Taking out a buddy that is not the best leaves the best in place. */
  lemma BestWithout(cfg: Config, buddies: Buddies, connected: set<Account>, s: seq<Id>, i: nat, p: Option<Id>)
    requires IsBest(cfg, buddies, connected, s, p) && i < |s| && p != Some(s[i])
    ensures IsBest(cfg, buddies, connected, Without(s, i), p)
  {
    hide Candidate, Score, Wins;
    var t := Without(s, i);
    if p.Some? {
      var k :| 0 <= k < |s| && s[k] == p.value && Wins(cfg, buddies, connected, s, k);
      WinsWithout(cfg, buddies, connected, s, i, k);
      assert t[if k < i then k else k - 1] == s[k];
    } else {
      assert forall j | 0 <= j < |t| :: t[j] == s[if j < i then j else j + 1];
    }
  }

  /** The winner among the first `i + 1` is the new one if it beats the winner so far. */
  lemma BestNext(cfg: Config, buddies: Buddies, connected: set<Account>, s: seq<Id>, i: nat, p: Option<Id>)
    requires i < |s| && s[i] in buddies && IsBest(cfg, buddies, connected, s[..i], p)
    ensures !Candidate(buddies, connected, s[i]) ==> IsBest(cfg, buddies, connected, s[..i + 1], p)
    ensures Candidate(buddies, connected, s[i]) && p.None? ==> IsBest(cfg, buddies, connected, s[..i + 1], Some(s[i]))
    ensures Candidate(buddies, connected, s[i]) && p.Some? && p.value in buddies ==>
              var old_score, score := Score(cfg, buddies[p.value], connected), Score(cfg, buddies[s[i]], connected);
              IsBest(cfg, buddies, connected, s[..i + 1],
                     if score < old_score || (cfg.lastMatch && score == old_score) then Some(s[i]) else p)
  {
    hide Candidate, Score;
    var t, t' := s[..i], s[..i + 1];
    assert t'[i] == s[i] && forall j | 0 <= j < i :: t'[j] == t[j];
    if p.Some? {
      var k :| 0 <= k < |t| && t[k] == p.value && Wins(cfg, buddies, connected, t, k);
      if !Candidate(buddies, connected, s[i]) {
        assert Wins(cfg, buddies, connected, t', k);
      } else if p.value in buddies {
        var old_score, score := Score(cfg, buddies[p.value], connected), Score(cfg, buddies[s[i]], connected);
        if score < old_score || (cfg.lastMatch && score == old_score) {
          assert Wins(cfg, buddies, connected, t', i);
        } else {
          assert Wins(cfg, buddies, connected, t', k);
        }
      }
    } else if Candidate(buddies, connected, s[i]) {
      assert Wins(cfg, buddies, connected, t', i);
    }
  }

  // ----- what the choice means

  /** With scores of the accounts that are the same and an offline score above the other two together, the buddy is
      online if and only if some candidate is. */
  lemma BestIsOnline(cfg: Config, buddies: Buddies, connected: set<Account>, s: seq<Id>, b: Id, account: int)
    requires IsBest(cfg, buddies, connected, s, Some(b))
    requires forall d | d in s && d in buddies :: cfg.accountScore(buddies[d].account) == account
    requires cfg.awayScore >= 0 && cfg.idleScore >= 0 && cfg.offlineScore > cfg.awayScore + cfg.idleScore
    ensures b in s && b in buddies && buddies[b].account in connected
    ensures (buddies[b].present == Online || buddies[b].present == SigningOn) <==>
            exists d :: d in s && d in buddies && buddies[d].account in connected
                        && (buddies[d].present == Online || buddies[d].present == SigningOn)
  {
  }

  /** Among those that are online like it, or not, it is available if and only if some of them is. */
  lemma BestIsAvailable(cfg: Config, buddies: Buddies, connected: set<Account>, s: seq<Id>, b: Id, account: int)
    requires IsBest(cfg, buddies, connected, s, Some(b))
    requires forall d | d in s && d in buddies :: cfg.accountScore(buddies[d].account) == account
    requires cfg.idleScore >= 0 && cfg.awayScore > cfg.idleScore
    ensures b in s && b in buddies && buddies[b].account in connected
    ensures var online := buddies[b].present == Online || buddies[b].present == SigningOn;
      !buddies[b].unavailable <==>
      exists d :: d in s && d in buddies && buddies[d].account in connected
                  && (buddies[d].present == Online || buddies[d].present == SigningOn) == online
                  && !buddies[d].unavailable
  {
  }

  /** And among those that are like it in both, it is not idle if and only if some of them is not. */
  lemma BestIsActive(cfg: Config, buddies: Buddies, connected: set<Account>, s: seq<Id>, b: Id, account: int)
    requires IsBest(cfg, buddies, connected, s, Some(b))
    requires forall d | d in s && d in buddies :: cfg.accountScore(buddies[d].account) == account
    requires cfg.idleScore > 0
    ensures b in s && b in buddies && buddies[b].account in connected
    ensures var online := buddies[b].present == Online || buddies[b].present == SigningOn;
      buddies[b].idle == 0 <==>
      exists d :: d in s && d in buddies && buddies[d].account in connected
                  && (buddies[d].present == Online || buddies[d].present == SigningOn) == online
                  && buddies[d].unavailable == buddies[b].unavailable && buddies[d].idle == 0
  {
  }

  /** With preferences of 0, it is one of the least account score. */
  lemma BestByAccount(cfg: Config, buddies: Buddies, connected: set<Account>, s: seq<Id>, b: Id)
    requires IsBest(cfg, buddies, connected, s, Some(b)) && cfg.offlineScore == cfg.awayScore == cfg.idleScore == 0
    ensures b in s && b in buddies && buddies[b].account in connected
    ensures forall d | d in s && d in buddies && buddies[d].account in connected ::
              cfg.accountScore(buddies[b].account) <= cfg.accountScore(buddies[d].account)
  {
  }

  /** Whatever the preferences: of candidates alike in everything that counts, the first is chosen, or the last. */
  lemma BestOfEquals(cfg: Config, buddies: Buddies, connected: set<Account>, s: seq<Id>, b: Id, x: Buddy)
    requires IsBest(cfg, buddies, connected, s, Some(b)) && s != []
    requires forall d | d in s :: d in buddies && buddies[d].account == x.account && buddies[d].present == x.present
                                 && buddies[d].unavailable == x.unavailable && buddies[d].idle == x.idle
    ensures b == if cfg.lastMatch then s[|s| - 1] else s[0]
  {
  }

  /** What the choice looks at. */
  predicate SameRank(cfg: Config, b: Buddy, connected: set<Account>, b': Buddy, connected': set<Account>) {
    && (b.account in connected) == (b'.account in connected')
    && Score(cfg, b, connected) == Score(cfg, b', connected')
  }

  lemma BestSame(cfg: Config, buddies: Buddies, connected: set<Account>, buddies': Buddies, connected': set<Account>,
                 s: seq<Id>, p: Option<Id>)
    requires IsBest(cfg, buddies, connected, s, p)
    requires forall n | n in s ::
      n in buddies && n in buddies' && SameRank(cfg, buddies[n], connected, buddies'[n], connected')
    ensures IsBest(cfg, buddies', connected', s, p)
  {
    hide Score;
    forall j | 0 <= j < |s|
      ensures Candidate(buddies', connected', s[j]) <==> Candidate(buddies, connected, s[j])
      ensures s[j] in buddies && s[j] in buddies'
        && Score(cfg, buddies[s[j]], connected) == Score(cfg, buddies'[s[j]], connected')
    {
      assert s[j] in s;
    }
    if p.Some? {
      var k :| 0 <= k < |s| && s[k] == p.value && Wins(cfg, buddies, connected, s, k);
      assert Wins(cfg, buddies', connected', s, k);
    }
  }

  // ----- the index

  /** `struct _gaim_hbuddy` */
  datatype Key = Key(name: string, account: Account, group: Id)

  type Index = map<Key, Id>

  function KeyOf(cfg: Config, b: Buddy, g: Id): Key { Key(cfg.normalize(b.account, b.name), b.account, g) }

  /** The group a node is in: its parent for a contact, the one above for a buddy. */
  function GroupOf(links: LinkMap, n: Id): Option<Id> {
    if n in links && links[n].parent.Some? && links[n].parent.value in links
    then links[links[n].parent.value].parent
    else None
  }

  /** The group of every buddy in the list. */
  type HomeMap = map<Id, Id>

  function HomesOf(links: LinkMap, buddies: Buddies): HomeMap {
    map b | b in buddies && GroupOf(links, b).Some? :: GroupOf(links, b).value
  }

  /** The index maps the key of every buddy that has a home to it, and nothing else. */
  ghost predicate IndexAs(cfg: Config, index: Index, buddies: Buddies, home: HomeMap) {
    && (forall b | b in home ::
        b in buddies && KeyOf(cfg, buddies[b], home[b]) in index && index[KeyOf(cfg, buddies[b], home[b])] == b)
    && (forall k | k in index ::
          index[k] in home && index[k] in buddies && home[index[k]] == k.group
            && KeyOf(cfg, buddies[index[k]], k.group) == k)
  }

  /** So a key finds a buddy if and only if one is in the group of the key under that name and account. */
  lemma IndexFinds(cfg: Config, index: Index, buddies: Buddies, home: HomeMap, k: Key, b: Id)
    requires IndexAs(cfg, index, buddies, home)
    ensures k in index && index[k] == b <==>
      b in home && b in buddies && home[b] == k.group && KeyOf(cfg, buddies[b], k.group) == k
  {
  }

  lemma IndexDrop(cfg: Config, index: Index, buddies: Buddies, home: HomeMap, b: Id)
    requires IndexAs(cfg, index, buddies, home) && b in home && b in buddies
    ensures IndexAs(cfg, index - {KeyOf(cfg, buddies[b], home[b])}, buddies, home - {b})
  {
    hide KeyOf;
    var k := KeyOf(cfg, buddies[b], home[b]);
    forall d | d in home && d != b ensures KeyOf(cfg, buddies[d], home[d]) != k {
      assert index[KeyOf(cfg, buddies[d], home[d])] == d;
    }
  }

  /** Giving a buddy a home keeps the index right if and only if nobody has its key there. */
  lemma IndexPut(cfg: Config, index: Index, buddies: Buddies, home: HomeMap, b: Id, g: Id)
    requires IndexAs(cfg, index, buddies, home) && b !in home && b in buddies
    ensures var k := KeyOf(cfg, buddies[b], g); IndexAs(cfg, index[k := b], buddies, home[b := g]) <==> k !in index
  {
    var k := KeyOf(cfg, buddies[b], g);
    var index', home' := index[k := b], home[b := g];
    if k in index {
      var d := index[k];
      assert d in home' && KeyOf(cfg, buddies[d], home'[d]) == k && index'[k] != d;
    } else {
      forall d | d in home'
        ensures d in buddies && KeyOf(cfg, buddies[d], home'[d]) in index'
          && index'[KeyOf(cfg, buddies[d], home'[d])] == d
      {
      }
    }
  }

  /** Records of buddies without a home, and fields that are not in the key, do not matter. */
  lemma IndexSame(cfg: Config, index: Index, buddies: Buddies, buddies': Buddies, home: HomeMap)
    requires IndexAs(cfg, index, buddies, home)
    requires forall b | b in home ::
      b in buddies' && (b in buddies ==>
                        buddies'[b].account == buddies[b].account && buddies'[b].name == buddies[b].name)
    ensures IndexAs(cfg, index, buddies', home)
  {
    forall b | b in home ensures b in buddies' && KeyOf(cfg, buddies'[b], home[b]) == KeyOf(cfg, buddies[b], home[b]) {
    }
  }

  /** The homes when the buddies `movers` have gone to `g`. */
  ghost function Rehomed(home: HomeMap, movers: set<Id>, g: Id): HomeMap {
    map b | b in home :: if b in movers then g else home[b]
  }

  lemma RehomedStart(home: HomeMap, g: Id)
    ensures Rehomed(home, {}, g) == home
  {
  }

  lemma RehomedNext(home: HomeMap, movers: set<Id>, g: Id, b: Id)
    requires b in home
    ensures (Rehomed(home, movers, g) - {b})[b := g] == Rehomed(home, movers + {b}, g)
    ensures b !in movers ==> Rehomed(home, movers, g) - {b} == Rehomed(home - {b}, movers, g)
    ensures b in Rehomed(home, movers, g) && (b !in movers ==> Rehomed(home, movers, g)[b] == home[b])
  {
  }

  /** A buddy that moves takes its key along, if the key is free where it goes. */
  lemma IndexMove(cfg: Config, index: Index, buddies: Buddies, home: HomeMap, movers: set<Id>, b: Id, g: Id)
    requires IndexAs(cfg, index, buddies, Rehomed(home, movers, g)) && b in home && b in buddies && b !in movers
    ensures var index' := index - {KeyOf(cfg, buddies[b], home[b])};
      && IndexAs(cfg, index', buddies, Rehomed(home - {b}, movers, g))
      && (KeyOf(cfg, buddies[b], g) !in index' ==>
            IndexAs(cfg, index'[KeyOf(cfg, buddies[b], g) := b], buddies, Rehomed(home, movers + {b}, g)))
  {
    hide KeyOf, IndexAs, Rehomed;
    var h := Rehomed(home, movers, g);
    RehomedNext(home, movers, g, b);
    IndexDrop(cfg, index, buddies, h, b);
    var index' := index - {KeyOf(cfg, buddies[b], home[b])};
    RehomedLacks(home - {b}, movers, g, b);
    IndexPut(cfg, index', buddies, Rehomed(home - {b}, movers, g), b, g);
  }

  lemma RehomedLacks(home: HomeMap, movers: set<Id>, g: Id, b: Id)
    requires b !in home
    ensures b !in Rehomed(home, movers, g)
  {
  }

  /** The buddies whose key is free in `g`. */
  ghost function Survivors(cfg: Config, buddies: Buddies, index: Index, s: seq<Id>, g: Id): seq<Id> {
    if s == [] then []
    else
      var b := s[|s| - 1];
      Survivors(cfg, buddies, index, s[..|s| - 1], g)
      + if b in buddies && KeyOf(cfg, buddies[b], g) !in index then [b] else []
  }

  /** Those without a name, whom no search finds, have a key that is free. */
  ghost predicate NamelessFree(cfg: Config, buddies: Buddies, index: Index, s: seq<Id>, g: Id) {
    forall b | b in s && b in buddies && buddies[b].name == "" :: KeyOf(cfg, buddies[b], g) !in index
  }

  lemma {:induction false} SurvivorsMember(cfg: Config, buddies: Buddies, index: Index, s: seq<Id>, g: Id, b: Id)
    ensures b in Survivors(cfg, buddies, index, s, g) <==> b in s && b in buddies && KeyOf(cfg, buddies[b], g) !in index
    decreases |s|
  {
    if s != [] {
      SurvivorsMember(cfg, buddies, index, s[..|s| - 1], g, b);
      assert s == s[..|s| - 1] + [s[|s| - 1]];
    }
  }

  lemma SurvivorsNext(cfg: Config, buddies: Buddies, index: Index, s: seq<Id>, k: nat, g: Id)
    requires k < |s| && s[k] in buddies
    ensures Survivors(cfg, buddies, index, s[..k + 1], g) ==
            Survivors(cfg, buddies, index, s[..k], g) + if KeyOf(cfg, buddies[s[k]], g) !in index then [s[k]] else []
  {
    assert s[..k + 1][..k] == s[..k];
  }

  /** While the buddies of one group move to another, the key of one that has not moved yet is as free there as it
      was. */
  lemma KeyStaysFree(cfg: Config, index0: Index, buddies0: Buddies, home0: HomeMap, index: Index, buddies: Buddies,
                     home: HomeMap,
                     movers: set<Id>, b: Id, g: Id)
    requires IndexAs(cfg, index0, buddies0, home0) && IndexAs(cfg, index, buddies, Rehomed(home, movers, g))
    requires b in home0 && b in buddies0 && b in home && b in buddies && b !in movers && home0[b] != g
    requires forall d | d in home ::
      d in home0 && home[d] == home0[d] && d in buddies0 && d in buddies && buddies[d] == buddies0[d]
    requires forall d | d in home0 && home0[d] == g :: d in home
    requires forall d | d in movers && d in home :: home0[d] == home0[b]
    ensures KeyOf(cfg, buddies[b], g) in index - {KeyOf(cfg, buddies[b], home[b])} <==>
      KeyOf(cfg, buddies0[b], g) in index0
  {
    var k := KeyOf(cfg, buddies0[b], g);
    if k in index0 {
      var d := index0[k];
      IndexFinds(cfg, index, buddies, Rehomed(home, movers, g), k, d);
    }
    if k in index {
      var d := index[k];
      IndexFinds(cfg, index0, buddies0, home0, k, d);
    }
  }

  // ----- looking up

  function FirstMatch(index: Index, name: string, account: Account, groups: seq<Id>): Option<Id> {
    if groups == [] then None
    else if Key(name, account, groups[0]) in index then Some(index[Key(name, account, groups[0])])
    else FirstMatch(index, name, account, groups[1..])
  }

  function Matches(index: Index, name: string, account: Account, groups: seq<Id>): seq<Id> {
    if groups == [] then []
    else (if Key(name, account, groups[0]) in index then [index[Key(name, account, groups[0])]] else [])
         + Matches(index, name, account, groups[1..])
  }

  /** The buddies of an account and a normalised name. */
  predicate IsMatch(cfg: Config, buddies: Buddies, home: HomeMap, name: string, account: Account, b: Id) {
    b in home && b in buddies && buddies[b].account == account && cfg.normalize(account, buddies[b].name) == name
  }

  /** With the index right, the result holds exactly the matches in the groups. */
  lemma {:induction false} MatchesAreAll(cfg: Config, index: Index, buddies: Buddies, home: HomeMap, name: string,
                                         account: Account,
                                         groups: seq<Id>, b: Id)
    requires IndexAs(cfg, index, buddies, home)
    ensures b in Matches(index, name, account, groups) <==>
      IsMatch(cfg, buddies, home, name, account, b) && home[b] in groups
    decreases |groups|
  {
    if groups != [] {
      var k := Key(name, account, groups[0]);
      IndexFinds(cfg, index, buddies, home, k, b);
      MatchesAreAll(cfg, index, buddies, home, name, account, groups[1..], b);
      var rest := Matches(index, name, account, groups[1..]);
      if k in index {
        assert b in [index[k]] + rest <==> b == index[k] || b in rest;
      } else {
        assert [] + rest == rest;
      }
    }
  }

  /** Buddies in the order of their groups. */
  ghost predicate InOrder(home: HomeMap, groups: seq<Id>, m: seq<Id>) {
    && (forall b | b in m :: b in home && home[b] in groups)
    && forall i, j | 0 <= i < j < |m| :: Place(groups, home[m[i]]) < Place(groups, home[m[j]])
  }

  lemma InOrderLater(home: HomeMap, groups: seq<Id>, m: seq<Id>)
    requires groups != [] && NoDups(groups) && InOrder(home, groups[1..], m)
    ensures InOrder(home, groups, m) && forall b | b in m :: Place(groups, home[b]) > 0
  {
    forall b | b in m ensures home[b] in groups && Place(groups, home[b]) == 1 + Place(groups[1..], home[b]) {
      var j := Place(groups[1..], home[b]);
      assert groups[j + 1] == home[b] && groups[0] != groups[j + 1];
    }
  }

  lemma InOrderCons(home: HomeMap, groups: seq<Id>, b: Id, m: seq<Id>)
    requires groups != [] && InOrder(home, groups, m) && b in home && home[b] == groups[0]
    requires forall d | d in m :: Place(groups, home[d]) > 0
    ensures InOrder(home, groups, [b] + m)
  {
    hide Place, InOrder;
    FirstPlace(groups);
    var t := [b] + m;
    forall i | 0 <= i < |t| ensures t[i] in home && home[t[i]] in groups {
      if i > 0 {
        InOrderAt(home, groups, m, i - 1, i - 1);
      }
    }
    forall i, j | 0 <= i < j < |t| ensures Place(groups, home[t[i]]) < Place(groups, home[t[j]]) {
      InOrderAt(home, groups, m, if i > 0 then i - 1 else j - 1, j - 1);
    }
    AreInOrder(home, groups, t);
  }

  lemma InOrderAt(home: HomeMap, groups: seq<Id>, m: seq<Id>, i: nat, j: nat)
    requires InOrder(home, groups, m) && i <= j < |m|
    ensures m[i] in home && home[m[i]] in groups && m[j] in m && m[j] in home && home[m[j]] in groups
    ensures i < j ==> Place(groups, home[m[i]]) < Place(groups, home[m[j]])
  {
    hide Place;
    assert m[i] in m && m[j] in m;
  }

  lemma AreInOrder(home: HomeMap, groups: seq<Id>, t: seq<Id>)
    requires forall i | 0 <= i < |t| :: t[i] in home && home[t[i]] in groups
    requires forall i, j | 0 <= i < j < |t| :: Place(groups, home[t[i]]) < Place(groups, home[t[j]])
    ensures InOrder(home, groups, t)
  {
    hide Place;
  }

  lemma FirstPlace(groups: seq<Id>)
    requires groups != []
    ensures Place(groups, groups[0]) == 0
  {
  }

  /** They come in the order of their groups. */
  lemma {:induction false} MatchesInOrder(cfg: Config, index: Index, buddies: Buddies, home: HomeMap, name: string,
                                          account: Account, groups: seq<Id>)
    requires IndexAs(cfg, index, buddies, home) && NoDups(groups)
    ensures InOrder(home, groups, Matches(index, name, account, groups))
    decreases |groups|
  {
    hide InOrder, IndexAs;
    if groups != [] {
      var k := Key(name, account, groups[0]);
      var rest := Matches(index, name, account, groups[1..]);
      MatchesInOrder(cfg, index, buddies, home, name, account, groups[1..]);
      InOrderLater(home, groups, rest);
      if k in index {
        IndexFinds(cfg, index, buddies, home, k, index[k]);
        InOrderCons(home, groups, index[k], rest);
      } else {
        assert [] + rest == rest;
      }
    } else {
      NothingInOrder(home, groups);
    }
  }

  lemma NothingInOrder(home: HomeMap, groups: seq<Id>)
    ensures InOrder(home, groups, [])
  {
  }

  /** The first match is the first of all matches. */
  lemma {:induction false} FirstOfMatches(index: Index, name: string, account: Account, groups: seq<Id>)
    ensures var m := Matches(index, name, account, groups);
      FirstMatch(index, name, account, groups) == if m == [] then None else Some(m[0])
    decreases |groups|
  {
    if groups != [] {
      FirstOfMatches(index, name, account, groups[1..]);
    }
  }

  /** Renaming a buddy keeps the index right if and only if its new key is free, or is the one it had. */
  lemma IndexRenamed(cfg: Config, index: Index, buddies: Buddies, home: HomeMap, b: Id, x: Buddy)
    requires IndexAs(cfg, index, buddies, home) && b in home && b in buddies && x.account == buddies[b].account
    ensures
      var g := home[b];
      var k := KeyOf(cfg, x, g);
      IndexAs(cfg, (index - {KeyOf(cfg, buddies[b], g)})[k := b], buddies[b := x], home) <==>
        (k !in index || index[k] == b)
  {
    hide KeyOf;
    var g := home[b];
    var index', home' := index - {KeyOf(cfg, buddies[b], g)}, home - {b};
    IndexDrop(cfg, index, buddies, home, b);
    IndexSame(cfg, index', buddies, buddies[b := x], home');
    IndexPut(cfg, index', buddies[b := x], home', b, g);
    assert home'[b := g] == home;
    IndexFinds(cfg, index, buddies, home, KeyOf(cfg, buddies[b], g), b);
    if KeyOf(cfg, x, g) in index && index[KeyOf(cfg, x, g)] == b {
      IndexFinds(cfg, index, buddies, home, KeyOf(cfg, x, g), b);
    }
  }

  lemma MatchesNext(index: Index, name: string, account: Account, groups: seq<Id>, i: nat, bs: seq<Id>)
    requires i < |groups|
    ensures var k := Key(name, account, groups[i]);
      bs + Matches(index, name, account, groups[i..]) ==
      (if k in index then bs + [index[k]] else bs) + Matches(index, name, account, groups[i + 1..])
  {
    assert groups[i..][0] == groups[i] && groups[i..][1..] == groups[i + 1..];
  }

  lemma MatchesEnds(index: Index, name: string, account: Account, groups: seq<Id>)
    ensures [] + Matches(index, name, account, groups[0..]) == Matches(index, name, account, groups)
    ensures Matches(index, name, account, groups[|groups|..]) == []
  {
    assert groups[0..] == groups;
  }
}
