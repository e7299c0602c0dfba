/** Ranking teams: the standings table order and the selection of knockout
    qualifiers, both built on one stable sort by key. */
module Ranking {
  import opened Text
  import opened Model

  /** A team's ranking tuple: confrontations won, individual matches won, set
      difference and game difference, compared left to right. */
  datatype Rank = Rank(teamWins: int, individualWins: int, setDiff: int, gameDiff: int)

  function RankOf(t: Team): Rank
  {
    Rank(t.teamMatchesWon, t.individualMatchesWon, t.setsWon - t.setsLost, t.gamesWon - t.gamesLost)
  }

  /** Tuple comparison: `x` is strictly below `y`. */
  predicate RankBelow(x: Rank, y: Rank)
  {
    || x.teamWins < y.teamWins
    || (x.teamWins == y.teamWins && x.individualWins < y.individualWins)
    || (x.teamWins == y.teamWins && x.individualWins == y.individualWins && x.setDiff < y.setDiff)
    || (x.teamWins == y.teamWins && x.individualWins == y.individualWins && x.setDiff == y.setDiff && x.gameDiff < y.gameDiff)
  }

  /** A sort key: group ascending, then rank descending. */
  datatype Key = Key(group: string, rank: Rank)

  /** `x` sorts strictly before `y`. */
  predicate KeyBefore(x: Key, y: Key)
  {
    LexLess(x.group, y.group) || (x.group == y.group && RankBelow(y.rank, x.rank))
  }

  lemma KeyBeforeIrreflexive(x: Key)
    ensures !KeyBefore(x, x)
  {
    LexLessIrreflexive(x.group);
  }

  lemma KeyBeforeTransitive(x: Key, y: Key, z: Key)
    requires KeyBefore(x, y) && KeyBefore(y, z)
    ensures KeyBefore(x, z)
  {
    if LexLess(x.group, y.group) && LexLess(y.group, z.group) {
      LexLessTransitive(x.group, y.group, z.group);
    }
  }

  /** Two keys neither of which sorts before the other are equal. */
  lemma KeyBeforeTotal(x: Key, y: Key)
    requires !KeyBefore(x, y) && !KeyBefore(y, x)
    ensures x == y
  {
    LexLessTotal(x.group, y.group);
  }

  /** A team as it appears in a ranking: its name and its record. */
  datatype Entry = Entry(name: string, team: Team)

  /** The key of the knockout sorts: rank only. */
  function RankKey(e: Entry): Key
  {
    Key("", RankOf(e.team))
  }

  /** The key of the standings table: group, then rank. */
  function StandingKey(e: Entry): Key
  {
    Key(e.team.group, RankOf(e.team))
  }

  /** The key of the group list: the group name. */
  function GroupKey(g: string): Key
  {
    Key(g, Rank(0, 0, 0, 0))
  }

  // ---------------------------------------------------------------- stable sort

  /** No element sorts strictly before an earlier one. */
  predicate Sorted<T>(key: T -> Key, s: seq<T>)
  {
    forall i, j :: 0 <= i < j < |s| ==> !KeyBefore(key(s[j]), key(s[i]))
  }

  /** Inserts `x` after every element that does not sort strictly after it. */
  function Insert<T>(key: T -> Key, x: T, s: seq<T>): seq<T>
  {
    if s == [] then [x]
    else if KeyBefore(key(x), key(s[0])) then [x] + s
    else [s[0]] + Insert(key, x, s[1..])
  }

  /** Insertion sort; elements with equal keys keep their order. */
  function Sort<T>(key: T -> Key, s: seq<T>): seq<T>
  {
    if s == [] then [] else Insert(key, s[|s| - 1], Sort(key, s[..|s| - 1]))
  }

  /** The elements of `s` whose key is `k`, in order. */
  function WithKey<T>(key: T -> Key, s: seq<T>, k: Key): (r: seq<T>)
  {
    if s == [] then []
    else (if key(s[0]) == k then [s[0]] else []) + WithKey(key, s[1..], k)
  }

  lemma {:induction false} InsertPermutes<T>(key: T -> Key, x: T, s: seq<T>)
    ensures multiset(Insert(key, x, s)) == multiset(s) + multiset{x}
  {
    if s != [] && !KeyBefore(key(x), key(s[0])) {
      InsertPermutes(key, x, s[1..]);
      assert s == [s[0]] + s[1..];
    }
  }

  lemma {:induction false} InsertSorted<T>(key: T -> Key, x: T, s: seq<T>)
    requires Sorted(key, s)
    ensures Sorted(key, Insert(key, x, s))
  {
    if s == [] {
    } else if KeyBefore(key(x), key(s[0])) {
      var r := [x] + s;
      forall i, j | 0 <= i < j < |r| ensures !KeyBefore(key(r[j]), key(r[i])) {
        if i == 0 {
          if KeyBefore(key(r[j]), key(x)) {
            KeyBeforeTransitive(key(r[j]), key(x), key(s[0]));
            if j == 1 { KeyBeforeIrreflexive(key(s[0])); }
          }
        }
      }
    } else {
      var t := s[1..];
      InsertSorted(key, x, t);
      InsertPermutes(key, x, t);
      var r := [s[0]] + Insert(key, x, t);
      forall i, j | 0 <= i < j < |r| ensures !KeyBefore(key(r[j]), key(r[i])) {
        if i == 0 {
          var e := r[j];
          assert e in multiset(t) + multiset{x};
          if e != x {
            assert e in t;
            var k :| 0 <= k < |t| && t[k] == e;
            assert s[k + 1] == e;
          }
        }
      }
    }
  }

  /** Sorting yields a sorted list. */
  lemma {:induction false} SortSorts<T>(key: T -> Key, s: seq<T>)
    ensures Sorted(key, Sort(key, s))
  {
    if s != [] {
      var n := |s| - 1;
      SortSorts(key, s[..n]);
      InsertSorted(key, s[n], Sort(key, s[..n]));
    }
  }

  /** Sorting neither loses nor adds elements. */
  lemma {:induction false} SortPermutes<T>(key: T -> Key, s: seq<T>)
    ensures multiset(Sort(key, s)) == multiset(s)
  {
    if s != [] {
      var n := |s| - 1;
      SortPermutes(key, s[..n]);
      InsertPermutes(key, s[n], Sort(key, s[..n]));
      assert Sort(key, s) == Insert(key, s[n], Sort(key, s[..n]));
      assert s == s[..n] + [s[n]];
      assert multiset(s) == multiset(s[..n]) + multiset{s[n]};
    }
  }

  lemma {:induction false} WithKeyAppend<T>(key: T -> Key, s: seq<T>, x: T, k: Key)
    ensures WithKey(key, s + [x], k) == WithKey(key, s, k) + (if key(x) == k then [x] else [])
  {
    if s != [] {
      WithKeyAppend(key, s[1..], x, k);
      assert (s + [x])[1..] == s[1..] + [x];
    }
  }

  /** In a sorted list whose first element sorts after `x`, no element has x's key. */
  lemma {:induction false} WithKeyNone<T>(key: T -> Key, x: T, s: seq<T>)
    requires Sorted(key, s) && s != [] && KeyBefore(key(x), key(s[0]))
    ensures WithKey(key, s, key(x)) == []
  {
    if key(s[0]) == key(x) {
      KeyBeforeIrreflexive(key(x));
    }
    if |s| > 1 {
      var k0, k1, kx := key(s[0]), key(s[1]), key(x);
      assert !KeyBefore(k1, k0);
      if !KeyBefore(kx, k1) {
        if KeyBefore(k1, kx) {
          KeyBeforeTransitive(k1, kx, k0);
        } else {
          KeyBeforeTotal(k1, kx);
        }
      }
      WithKeyNone(key, x, s[1..]);
    }
  }

  lemma {:induction false} InsertWithKey<T>(key: T -> Key, x: T, s: seq<T>, k: Key)
    requires Sorted(key, s)
    ensures WithKey(key, Insert(key, x, s), k) == WithKey(key, s, k) + (if key(x) == k then [x] else [])
  {
    if s == [] {
    } else if KeyBefore(key(x), key(s[0])) {
      if key(x) == k {
        WithKeyNone(key, x, s);
      }
      assert ([x] + s)[1..] == s;
    } else {
      InsertWithKey(key, x, s[1..], k);
      assert ([s[0]] + Insert(key, x, s[1..]))[1..] == Insert(key, x, s[1..]);
    }
  }

  /** The sort is stable: for every key, the elements with that key appear in
      the same order before and after sorting. */
  lemma {:induction false} SortStable<T>(key: T -> Key, s: seq<T>, k: Key)
    ensures WithKey(key, Sort(key, s), k) == WithKey(key, s, k)
  {
    if s != [] {
      var n := |s| - 1;
      SortStable(key, s[..n], k);
      SortSorts(key, s[..n]);
      InsertWithKey(key, s[n], Sort(key, s[..n]), k);
      WithKeyAppend(key, s[..n], s[n], k);
      assert s == s[..n] + [s[n]];
    }
  }

  // ---------------------------------------------------------------- standings

  /** The registered teams as entries, in registration order. */
  function Entries(teams: map<string, Team>, order: seq<string>): (r: seq<Entry>)
    requires forall k :: 0 <= k < |order| ==> order[k] in teams
    ensures |r| == |order|
    ensures forall k :: 0 <= k < |r| ==> r[k].name in teams && r[k].team == teams[r[k].name]
    ensures forall k :: 0 <= k < |order| ==> r[k].name == order[k]
    ensures (forall i, j :: 0 <= i < j < |order| ==> order[i] != order[j]) ==>
      forall i, j :: 0 <= i < j < |r| ==> r[i].name != r[j].name
    ensures (forall x :: x in teams ==> x in order) ==>
      forall x :: x in teams <==> exists k :: 0 <= k < |r| && r[k].name == x
  {
    seq(|order|, k requires 0 <= k < |order| => Entry(order[k], teams[order[k]]))
  }

  /** The standings table: every team, by group and then by rank. */
  function Standings(teams: map<string, Team>, order: seq<string>): seq<Entry>
    requires forall k :: 0 <= k < |order| ==> order[k] in teams
  {
    Sort(StandingKey, Entries(teams, order))
  }

  /** In a list sorted by the standings key, a team of a smaller group comes first. */
  lemma GroupsAscend(st: seq<Entry>)
    requires Sorted(StandingKey, st)
    ensures forall i, j :: 0 <= i < |st| && 0 <= j < |st| && LexLess(st[i].team.group, st[j].team.group) ==> i < j
  {
    forall i, j | 0 <= i < |st| && 0 <= j < |st| && LexLess(st[i].team.group, st[j].team.group) ensures i < j {
      if j == i {
        LexLessIrreflexive(st[i].team.group);
      }
    }
  }

  /** In a list sorted by the standings key, within a group a team comes first
      when it has more confrontation wins; or equal wins and more individual
      wins; or both equal and a larger set difference; or all three equal and a
      larger game difference. */
  lemma WinsDescend(st: seq<Entry>)
    requires Sorted(StandingKey, st)
    ensures forall i, j ::
      (0 <= i < |st| && 0 <= j < |st| && st[i].team.group == st[j].team.group
       && st[i].team.teamMatchesWon > st[j].team.teamMatchesWon) ==> i < j
    ensures forall i, j ::
      (0 <= i < |st| && 0 <= j < |st| && st[i].team.group == st[j].team.group
       && st[i].team.teamMatchesWon == st[j].team.teamMatchesWon
       && st[i].team.individualMatchesWon > st[j].team.individualMatchesWon) ==> i < j
    ensures forall i, j ::
      (0 <= i < |st| && 0 <= j < |st| && st[i].team.group == st[j].team.group
       && RankOf(st[i].team).teamWins == RankOf(st[j].team).teamWins
       && RankOf(st[i].team).individualWins == RankOf(st[j].team).individualWins
       && RankOf(st[i].team).setDiff > RankOf(st[j].team).setDiff) ==> i < j
    ensures forall i, j ::
      (0 <= i < |st| && 0 <= j < |st| && st[i].team.group == st[j].team.group
       && RankOf(st[i].team).teamWins == RankOf(st[j].team).teamWins
       && RankOf(st[i].team).individualWins == RankOf(st[j].team).individualWins
       && RankOf(st[i].team).setDiff == RankOf(st[j].team).setDiff
       && RankOf(st[i].team).gameDiff > RankOf(st[j].team).gameDiff) ==> i < j
  {
  }

  /** The standings list every team once, groups in ascending order, and within
      a group by confrontation wins, then individual wins, then set difference,
      then game difference, each level descending. */
  lemma StandingsOrdered(teams: map<string, Team>, order: seq<string>)
    requires forall k :: 0 <= k < |order| ==> order[k] in teams
    ensures var st := Standings(teams, order);
      && multiset(st) == multiset(Entries(teams, order))
      && (forall i, j :: 0 <= i < |st| && 0 <= j < |st| && LexLess(st[i].team.group, st[j].team.group) ==> i < j)
      && (forall i, j ::
            (0 <= i < |st| && 0 <= j < |st| && st[i].team.group == st[j].team.group
             && st[i].team.teamMatchesWon > st[j].team.teamMatchesWon) ==> i < j)
      && (forall i, j ::
            (0 <= i < |st| && 0 <= j < |st| && st[i].team.group == st[j].team.group
             && st[i].team.teamMatchesWon == st[j].team.teamMatchesWon
             && st[i].team.individualMatchesWon > st[j].team.individualMatchesWon) ==> i < j)
      && (forall i, j ::
            (0 <= i < |st| && 0 <= j < |st| && st[i].team.group == st[j].team.group
             && st[i].team.teamMatchesWon == st[j].team.teamMatchesWon
             && st[i].team.individualMatchesWon == st[j].team.individualMatchesWon
             && st[i].team.setsWon - st[i].team.setsLost > st[j].team.setsWon - st[j].team.setsLost) ==> i < j)
      && (forall i, j ::
            (0 <= i < |st| && 0 <= j < |st| && st[i].team.group == st[j].team.group
             && st[i].team.teamMatchesWon == st[j].team.teamMatchesWon
             && st[i].team.individualMatchesWon == st[j].team.individualMatchesWon
             && st[i].team.setsWon - st[i].team.setsLost == st[j].team.setsWon - st[j].team.setsLost
             && st[i].team.gamesWon - st[i].team.gamesLost > st[j].team.gamesWon - st[j].team.gamesLost) ==> i < j)
  {
    var es := Entries(teams, order);
    SortSorts(StandingKey, es);
    SortPermutes(StandingKey, es);
    GroupsAscend(Sort(StandingKey, es));
    WinsDescend(Sort(StandingKey, es));
  }

  // ---------------------------------------------------------------- qualifiers

  /** The groups of `es`, each once, in order of first appearance. */
  function GroupsOf(es: seq<Entry>): (r: seq<string>)
    ensures forall g :: g in r <==> exists k :: 0 <= k < |es| && es[k].team.group == g
    ensures forall i, j :: 0 <= i < j < |r| ==> r[i] != r[j]
  {
    if es == [] then []
    else
      var g := es[|es| - 1].team.group;
      var r := GroupsOf(es[..|es| - 1]);
      if g in r then r else r + [g]
  }

  /** The members of group `g`, in order. */
  function Members(es: seq<Entry>, g: string): (r: seq<Entry>)
    ensures forall e :: e in r <==> e in es && e.team.group == g
    ensures Subsequence(r, es)
  {
    if es == [] then []
    else
      var r := Members(es[..|es| - 1], g);
      var e := es[|es| - 1];
      if e.team.group == g then
        assert (r + [e])[..|r|] == r;
        r + [e]
      else r
  }

  /** A prefix with Python's slice semantics for `s[:n]`: a negative `n` counts from the end. */
  function Take<T>(s: seq<T>, n: int): (r: seq<T>)
    ensures |r| == if n >= 0 then (if n <= |s| then n else |s|) else (if -n <= |s| then |s| + n else 0)
    ensures r == s[..|r|]
  {
    if n >= 0 then (if n <= |s| then s[..n] else s)
    else if -n <= |s| then s[..|s| + n] else []
  }

  /** The qualifiers of one group: its best `n` teams by rank, ties in registration order. */
  function GroupQualifiers(es: seq<Entry>, g: string, n: int): seq<Entry>
  {
    Take(Sort(RankKey, Members(es, g)), n)
  }

  /** The qualifiers of the groups `gs`, group after group. */
  function QualifiersFrom(es: seq<Entry>, gs: seq<string>, n: int): seq<Entry>
  {
    if gs == [] then [] else QualifiersFrom(es, gs[..|gs| - 1], n) + GroupQualifiers(es, gs[|gs| - 1], n)
  }

  /** The seeded qualifier names: groups in ascending order, each group's top
      `n`, then all of them ranked together (ties keep the group order). */
  function Seeds(es: seq<Entry>, n: int): (r: seq<string>)
  {
    var q := Sort(RankKey, QualifiersFrom(es, Sort(GroupKey, GroupsOf(es)), n));
    seq(|q|, k requires 0 <= k < |q| => q[k].name)
  }

  /** Within a group, every qualifier ranks at least as high as every team that
      did not qualify, and a non-negative quota `n` takes min(n, group size) teams. */
  lemma QualifiersDominate(es: seq<Entry>, g: string, n: int)
    ensures var s := Sort(RankKey, Members(es, g)); var q := GroupQualifiers(es, g, n);
      && q == s[..|q|]
      && (n >= 0 ==> |q| == if n <= |s| then n else |s|)
      && (forall i, j :: 0 <= i < |q| <= j < |s| ==> !RankBelow(RankOf(s[i].team), RankOf(s[j].team)))
  {
    SortSorts(RankKey, Members(es, g));
  }

  lemma {:induction false} DistinctCounts(s: seq<string>, x: string)
    requires forall i, j :: 0 <= i < j < |s| ==> s[i] != s[j]
    ensures multiset(s)[x] <= 1
  {
    if s != [] {
      var n := |s| - 1;
      DistinctCounts(s[..n], x);
      assert s == s[..n] + [s[n]];
      if x == s[n] {
        assert x !in s[..n];
      }
    }
  }

  lemma RepeatCounts(s: seq<string>, i: nat, j: nat)
    requires i < j < |s| && s[i] == s[j]
    ensures multiset(s)[s[i]] >= 2
  {
    assert s == s[..j] + s[j..];
    assert s[i] in s[..j] && s[j] in s[j..];
  }

  /** The groups are visited in strictly ascending order, each group of a
      registered team exactly once. */
  lemma GroupOrder(es: seq<Entry>)
    ensures var gs := Sort(GroupKey, GroupsOf(es));
      && (forall g :: g in gs <==> exists k :: 0 <= k < |es| && es[k].team.group == g)
      && (forall i, j :: 0 <= i < j < |gs| ==> LexLess(gs[i], gs[j]))
  {
    var g0 := GroupsOf(es);
    var gs := Sort(GroupKey, g0);
    SortSorts(GroupKey, g0);
    SortPermutes(GroupKey, g0);
    forall g ensures g in gs <==> g in g0 {
      assert g in gs <==> g in multiset(gs);
    }
    forall i, j | 0 <= i < j < |gs| ensures LexLess(gs[i], gs[j]) {
      if !KeyBefore(GroupKey(gs[i]), GroupKey(gs[j])) {
        KeyBeforeTotal(GroupKey(gs[i]), GroupKey(gs[j]));
        DistinctCounts(g0, gs[i]);
        RepeatCounts(gs, i, j);
      }
    }
  }

  /** The seeded list ranks the qualifiers: an earlier seed never ranks below a
      later one, every qualifier appears once, and qualifiers with equal records
      keep the group order. */
  lemma SeedsRanked(es: seq<Entry>, n: int)
    ensures var q := QualifiersFrom(es, Sort(GroupKey, GroupsOf(es)), n);
      var s := Sort(RankKey, q);
      && Seeds(es, n) == seq(|s|, k requires 0 <= k < |s| => s[k].name)
      && multiset(s) == multiset(q)
      && (forall i, j :: 0 <= i < j < |s| ==> !RankBelow(RankOf(s[i].team), RankOf(s[j].team)))
      && (forall r :: WithKey(RankKey, s, Key("", r)) == WithKey(RankKey, q, Key("", r)))
  {
    var q := QualifiersFrom(es, Sort(GroupKey, GroupsOf(es)), n);
    var s := Sort(RankKey, q);
    SortSorts(RankKey, q);
    SortPermutes(RankKey, q);
    forall r ensures WithKey(RankKey, s, Key("", r)) == WithKey(RankKey, q, Key("", r)) {
      SortStable(RankKey, q, Key("", r));
    }
    forall i, j | 0 <= i < j < |s| ensures !RankBelow(RankOf(s[i].team), RankOf(s[j].team)) {
      LexLessIrreflexive("");
      assert !KeyBefore(RankKey(s[j]), RankKey(s[i]));
    }
  }
}
