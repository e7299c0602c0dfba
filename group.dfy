/** Group stage: what recording one individual match does to the team counters,
    when a best-of-three confrontation is settled, what deleting a team removes,
    and the invariant that ties confrontations to the matches they came from. */
module GroupStage {
  import opened Text
  import opened Model
  import opened ResultParser

  // ---------------------------------------------------------------- counters

  /** The side with more sets wins; equal set counts go to side 2. */
  function MatchWinner(rep: MatchReport, t1: string, t2: string): string
  {
    if rep.p1Sets > rep.p2Sets then t1 else t2
  }

  function AddScores(t: Team, setsWon: nat, setsLost: nat, gamesWon: nat, gamesLost: nat): Team
  {
    t.(setsWon := t.setsWon + setsWon, setsLost := t.setsLost + setsLost,
       gamesWon := t.gamesWon + gamesWon, gamesLost := t.gamesLost + gamesLost)
  }

  /** The counter updates of `record_group_match`, in the order it makes them:
      the winner's individual wins, then team1's and team2's sets and games. */
  function Credit(teams: map<string, Team>, t1: string, t2: string, rep: MatchReport): map<string, Team>
    requires t1 in teams && t2 in teams
  {
    var w := MatchWinner(rep, t1, t2);
    var a := teams[w := teams[w].(individualMatchesWon := teams[w].individualMatchesWon + 1)];
    var b := a[t1 := AddScores(a[t1], rep.p1Sets, rep.p2Sets, rep.p1Games, rep.p2Games)];
    b[t2 := AddScores(b[t2], rep.p2Sets, rep.p1Sets, rep.p2Games, rep.p1Games)]
  }

  /** The confrontation bookkeeping: both teams played one more, the winner won one more. */
  function Settle(teams: map<string, Team>, t1: string, t2: string, w: string): map<string, Team>
    requires t1 in teams && t2 in teams && w in teams
  {
    var a := teams[t1 := teams[t1].(teamMatchesPlayed := teams[t1].teamMatchesPlayed + 1)];
    var b := a[t2 := a[t2].(teamMatchesPlayed := a[t2].teamMatchesPlayed + 1)];
    b[w := b[w].(teamMatchesWon := b[w].teamMatchesWon + 1)]
  }

  /** Settling a confrontation: both teams have played one more, only the
      winner has won one more, and nothing else changes. */
  lemma SettleEffect(teams: map<string, Team>, t1: string, t2: string, w: string)
    requires t1 in teams && t2 in teams && t1 != t2 && (w == t1 || w == t2)
    ensures var s := Settle(teams, t1, t2, w);
      && s.Keys == teams.Keys
      && (forall k :: k in teams && k != t1 && k != t2 ==> s[k] == teams[k])
      && s[t1].teamMatchesPlayed == teams[t1].teamMatchesPlayed + 1
      && s[t2].teamMatchesPlayed == teams[t2].teamMatchesPlayed + 1
      && s[w].teamMatchesWon == teams[w].teamMatchesWon + 1
      && (forall k :: k in teams && k != w ==> s[k].teamMatchesWon == teams[k].teamMatchesWon)
      && (forall k :: k in teams ==> s[k] == teams[k].(teamMatchesPlayed := s[k].teamMatchesPlayed, teamMatchesWon := s[k].teamMatchesWon))
  {
  }

  /** Recording a match between two different teams credits exactly those two:
      the winner gets one individual win, each side gets its own sets and games
      as won and the other side's as lost, and every other team is unchanged. */
  lemma CreditEffect(teams: map<string, Team>, t1: string, t2: string, rep: MatchReport)
    requires t1 in teams && t2 in teams && t1 != t2
    ensures var c := Credit(teams, t1, t2, rep); var w := MatchWinner(rep, t1, t2);
      && c.Keys == teams.Keys
      && (forall k :: k in teams && k != t1 && k != t2 ==> c[k] == teams[k])
      && c[w].individualMatchesWon == teams[w].individualMatchesWon + 1
      && (var l := if w == t1 then t2 else t1; c[l].individualMatchesWon == teams[l].individualMatchesWon)
      && c[t1] == AddScores(teams[t1], rep.p1Sets, rep.p2Sets, rep.p1Games, rep.p2Games).(individualMatchesWon := c[t1].individualMatchesWon)
      && c[t2] == AddScores(teams[t2], rep.p2Sets, rep.p1Sets, rep.p2Games, rep.p1Games).(individualMatchesWon := c[t2].individualMatchesWon)
      && (w == t1 <==> rep.p1Sets > rep.p2Sets)
  {
  }

  // ---------------------------------------------------------------- totals

  datatype Stat = SetsWon | SetsLost | GamesWon | GamesLost | IndividualWins

  function StatOf(t: Team, s: Stat): nat
  {
    match s
    case SetsWon => t.setsWon
    case SetsLost => t.setsLost
    case GamesWon => t.gamesWon
    case GamesLost => t.gamesLost
    case IndividualWins => t.individualMatchesWon
  }

  predicate Distinct(xs: seq<string>)
  {
    forall i, j :: 0 <= i < j < |xs| ==> xs[i] != xs[j]
  }

  /** The sum of one counter over the teams listed in `order`. */
  function Total(order: seq<string>, teams: map<string, Team>, s: Stat): nat
  {
    if order == [] then 0
    else
      var k := order[|order| - 1];
      Total(order[..|order| - 1], teams, s) + (if k in teams then StatOf(teams[k], s) else 0)
  }

  /** Replacing one listed team's record changes a total by the difference of the two records. */
  lemma {:induction false} TotalUpdate(order: seq<string>, teams: map<string, Team>, k: string, t: Team, s: Stat)
    requires Distinct(order) && k in order && k in teams
    ensures Total(order, teams[k := t], s) == Total(order, teams, s) - StatOf(teams[k], s) + StatOf(t, s)
  {
    var n := |order| - 1;
    if order[n] == k {
      assert k !in order[..n];
      TotalUnlisted(order[..n], teams, k, t, s);
    } else {
      assert k in order[..n];
      TotalUpdate(order[..n], teams, k, t, s);
    }
  }

  lemma {:induction false} TotalUnlisted(order: seq<string>, teams: map<string, Team>, k: string, t: Team, s: Stat)
    requires k !in order
    ensures Total(order, teams[k := t], s) == Total(order, teams, s)
  {
    if order != [] {
      assert k !in order[..|order| - 1];
      TotalUnlisted(order[..|order| - 1], teams, k, t, s);
    }
  }

  /** Across all teams, recording a match adds the same number of sets to "won" as
      to "lost", the same number of games to "won" as to "lost", and one individual win. */
  lemma CreditBalanced(order: seq<string>, teams: map<string, Team>, t1: string, t2: string, rep: MatchReport)
    requires Distinct(order) && t1 in order && t2 in order
    requires t1 in teams && t2 in teams && t1 != t2
    ensures var c := Credit(teams, t1, t2, rep);
      && Total(order, c, SetsWon) == Total(order, teams, SetsWon) + rep.p1Sets + rep.p2Sets
      && Total(order, c, SetsLost) == Total(order, teams, SetsLost) + rep.p1Sets + rep.p2Sets
      && Total(order, c, GamesWon) == Total(order, teams, GamesWon) + rep.p1Games + rep.p2Games
      && Total(order, c, GamesLost) == Total(order, teams, GamesLost) + rep.p1Games + rep.p2Games
      && Total(order, c, IndividualWins) == Total(order, teams, IndividualWins) + 1
  {
    var w := MatchWinner(rep, t1, t2);
    var a := teams[w := teams[w].(individualMatchesWon := teams[w].individualMatchesWon + 1)];
    var b := a[t1 := AddScores(a[t1], rep.p1Sets, rep.p2Sets, rep.p1Games, rep.p2Games)];
    var c := b[t2 := AddScores(b[t2], rep.p2Sets, rep.p1Sets, rep.p2Games, rep.p1Games)];
    forall s: Stat
      ensures Total(order, c, s) == Total(order, teams, s)
        + (StatOf(a[w], s) - StatOf(teams[w], s))
        + (StatOf(b[t1], s) - StatOf(a[t1], s))
        + (StatOf(c[t2], s) - StatOf(b[t2], s))
    {
      TotalUpdate(order, teams, w, a[w], s);
      TotalUpdate(order, a, t1, b[t1], s);
      TotalUpdate(order, b, t2, c[t2], s);
    }
  }

  // ---------------------------------------------------------------- confrontations

  /** Some confrontation already recorded is between `a` and `b`, in either order. */
  predicate HasConfrontation(rs: seq<Confrontation>, a: string, b: string)
  {
    exists k :: 0 <= k < |rs| && SamePair(rs[k].team1, rs[k].team2, a, b)
  }

  /** The confrontation score: the winner's count, a dash, and the rest of the three. */
  function ScoreText(k: nat): string
    requires k <= 3
  {
    NatToString(k) + "-" + NatToString(3 - k)
  }

  /** The winners of the first three matches between `a` and `b`. */
  function FirstThree(ms: seq<Match>, a: string, b: string): seq<string>
    requires |Between(ms, a, b)| >= 3
  {
    Winners(Between(ms, a, b)[..3])
  }

  /** The confrontation record for (t1, t2): the tally winner of their first three matches. */
  function Decide(ms: seq<Match>, t1: string, t2: string): Confrontation
    requires |Between(ms, t1, t2)| >= 3
  {
    var ws := FirstThree(ms, t1, t2);
    var w := MaxTally(ws);
    CountBound(ws, w);
    Confrontation(t1, t2, w, ScoreText(Count(ws, w)))
  }

  /** A confrontation goes to the team that won at least two of the first three
      matches between the pair, with score "2-1" or "3-0". */
  lemma DecideMajority(ms: seq<Match>, t1: string, t2: string)
    requires WinnersOnPitch(ms) && |Between(ms, t1, t2)| >= 3
    ensures var c := Decide(ms, t1, t2); var k := Count(FirstThree(ms, t1, t2), c.winner);
      && c.team1 == t1 && c.team2 == t2
      && (c.winner == t1 || c.winner == t2)
      && 2 <= k <= 3 && c.score == ScoreText(k)
      && (forall j :: 0 <= j < 3 && FirstThree(ms, t1, t2)[j] != c.winner ==> k == 2)
  {
    var ws := FirstThree(ms, t1, t2);
    WinnersBetween(ms, t1, t2);
    assert forall k :: 0 <= k < 3 ==> ws[k] == Winners(Between(ms, t1, t2))[k];
    MajorityOfThree(ws, t1, t2);
    var w := MaxTally(ws);
    forall j | 0 <= j < 3 && ws[j] != w ensures Count(ws, w) == 2 {
      CountPositive(ws, j);
      if t1 != t2 {
        CountTwo(ws, t1, t2);
      }
    }
  }

  /** Each confrontation is between two different teams and was decided by the
      first three matches between them. */
  ghost predicate AllDecided(ms: seq<Match>, rs: seq<Confrontation>)
  {
    forall i :: 0 <= i < |rs| ==>
      rs[i].team1 != rs[i].team2 && |Between(ms, rs[i].team1, rs[i].team2)| >= 3
      && rs[i] == Decide(ms, rs[i].team1, rs[i].team2)
  }

  /** No pair of teams has two confrontations. */
  predicate PairsUnique(rs: seq<Confrontation>)
  {
    forall i, j :: 0 <= i < j < |rs| ==> !SamePair(rs[i].team1, rs[i].team2, rs[j].team1, rs[j].team2)
  }

  /** Every pair of different teams with three or more matches has a confrontation. */
  ghost predicate AllSettled(ms: seq<Match>, rs: seq<Confrontation>)
  {
    forall a, b :: a != b && |Between(ms, a, b)| >= 3 ==> HasConfrontation(rs, a, b)
  }

  /** The confrontation invariant of a category. */
  ghost predicate ConfrontationsSound(ms: seq<Match>, rs: seq<Confrontation>)
  {
    AllDecided(ms, rs) && PairsUnique(rs) && AllSettled(ms, rs)
  }

  /** Group matches are between two different teams and won by one of them. */
  predicate GroupMatchesWellFormed(ms: seq<Match>)
  {
    WinnersOnPitch(ms) && forall k :: 0 <= k < |ms| ==> ms[k].team1 != ms[k].team2
  }

  /** The confrontation step of record_group_match after appending `m` between t1 and t2:
      append Decide(...) exactly when the pair now has three or more matches and no
      confrontation yet. */
  function ConfrontationStep(ms: seq<Match>, rs: seq<Confrontation>, t1: string, t2: string): seq<Confrontation>
  {
    if |Between(ms, t1, t2)| >= 3 && !HasConfrontation(rs, t1, t2) then rs + [Decide(ms, t1, t2)] else rs
  }

  /** Appending a match never changes the first three matches of a pair that already had three. */
  lemma AppendKeepsDecided(ms: seq<Match>, rs: seq<Confrontation>, m: Match)
    requires AllDecided(ms, rs)
    ensures AllDecided(ms + [m], rs)
  {
    forall i | 0 <= i < |rs|
      ensures |Between(ms + [m], rs[i].team1, rs[i].team2)| >= 3
      ensures Decide(ms + [m], rs[i].team1, rs[i].team2) == rs[i]
    {
      var a, b := rs[i].team1, rs[i].team2;
      BetweenAppend(ms, m, a, b);
      assert Between(ms + [m], a, b)[..3] == Between(ms, a, b)[..3];
    }
  }

  /** Appending a match between two different teams and then running the
      confrontation step keeps the confrontations sound. */
  lemma RecordKeepsSound(ms: seq<Match>, rs: seq<Confrontation>, m: Match)
    requires ConfrontationsSound(ms, rs) && m.team1 != m.team2
    ensures ConfrontationsSound(ms + [m], ConfrontationStep(ms + [m], rs, m.team1, m.team2))
  {
    var ms' := ms + [m];
    var t1, t2 := m.team1, m.team2;
    AppendKeepsDecided(ms, rs, m);
    if |Between(ms', t1, t2)| >= 3 && !HasConfrontation(rs, t1, t2) {
      StepAppends(ms', rs, t1, t2);
    }
    StepSettles(ms, rs, m);
  }

  lemma StepAppends(ms: seq<Match>, rs: seq<Confrontation>, t1: string, t2: string)
    requires AllDecided(ms, rs) && PairsUnique(rs) && t1 != t2
    requires |Between(ms, t1, t2)| >= 3 && !HasConfrontation(rs, t1, t2)
    ensures AllDecided(ms, rs + [Decide(ms, t1, t2)]) && PairsUnique(rs + [Decide(ms, t1, t2)])
  {
    var rs' := rs + [Decide(ms, t1, t2)];
    forall i, j | 0 <= i < j < |rs'| ensures !SamePair(rs'[i].team1, rs'[i].team2, rs'[j].team1, rs'[j].team2) {
      if j == |rs| {
        assert !SamePair(rs[i].team1, rs[i].team2, t1, t2);
      }
    }
  }

  lemma StepSettles(ms: seq<Match>, rs: seq<Confrontation>, m: Match)
    requires AllSettled(ms, rs)
    ensures AllSettled(ms + [m], ConfrontationStep(ms + [m], rs, m.team1, m.team2))
  {
    var ms' := ms + [m];
    var t1, t2 := m.team1, m.team2;
    var rs' := ConfrontationStep(ms', rs, t1, t2);
    forall a, b | a != b && |Between(ms', a, b)| >= 3 ensures HasConfrontation(rs', a, b) {
      BetweenAppend(ms, m, a, b);
      if SamePair(t1, t2, a, b) {
        BetweenSymmetric(ms', a, b);
        if HasConfrontation(rs, t1, t2) {
          var k :| 0 <= k < |rs| && SamePair(rs[k].team1, rs[k].team2, t1, t2);
          assert rs'[k] == rs[k];
        } else {
          assert SamePair(rs'[|rs|].team1, rs'[|rs|].team2, a, b);
        }
      } else {
        var k :| 0 <= k < |rs| && SamePair(rs[k].team1, rs[k].team2, a, b);
        assert rs'[k] == rs[k];
      }
    }
  }

  // ---------------------------------------------------------------- deleting a team

  /** The matches, in order, in which the team `name` did not play. */
  function WithoutTeamMatches(ms: seq<Match>, name: string): (r: seq<Match>)
    ensures forall k :: 0 <= k < |r| ==> r[k].team1 != name && r[k].team2 != name
    ensures forall m :: m in r ==> m in ms
  {
    if ms == [] then []
    else
      var m := ms[|ms| - 1];
      WithoutTeamMatches(ms[..|ms| - 1], name) + (if name != m.team1 && name != m.team2 then [m] else [])
  }

  /** The confrontations, in order, that the team `name` was not part of. */
  function WithoutTeamResults(rs: seq<Confrontation>, name: string): (r: seq<Confrontation>)
    ensures forall k :: 0 <= k < |r| ==> r[k].team1 != name && r[k].team2 != name
    ensures forall c :: c in r ==> c in rs
    ensures forall c :: c in rs && c.team1 != name && c.team2 != name ==> c in r
  {
    if rs == [] then []
    else
      var c := rs[|rs| - 1];
      WithoutTeamResults(rs[..|rs| - 1], name) + (if name != c.team1 && name != c.team2 then [c] else [])
  }

  /** Deleting a team's matches leaves the matches between any two other teams as they were. */
  lemma {:induction false} BetweenWithout(ms: seq<Match>, x: string, a: string, b: string)
    requires x != a && x != b
    ensures Between(WithoutTeamMatches(ms, x), a, b) == Between(ms, a, b)
  {
    if ms != [] {
      var n := |ms| - 1;
      BetweenWithout(ms[..n], x, a, b);
      var m := ms[n];
      var w := WithoutTeamMatches(ms[..n], x);
      assert Between(ms, a, b) == Between(ms[..n], a, b) + (if SamePair(m.team1, m.team2, a, b) then [m] else []);
      if x != m.team1 && x != m.team2 {
        assert WithoutTeamMatches(ms, x) == w + [m];
        BetweenAppend(w, m, a, b);
      } else {
        assert WithoutTeamMatches(ms, x) == w;
      }
    }
  }

  /** After deleting a team's matches none is left between it and anyone. */
  lemma {:induction false} BetweenWithoutSelf(ms: seq<Match>, x: string, b: string)
    ensures Between(WithoutTeamMatches(ms, x), x, b) == []
  {
    if ms != [] {
      var n := |ms| - 1;
      BetweenWithoutSelf(ms[..n], x, b);
      var m := ms[n];
      var w := WithoutTeamMatches(ms[..n], x);
      if x != m.team1 && x != m.team2 {
        assert WithoutTeamMatches(ms, x) == w + [m];
        BetweenAppend(w, m, x, b);
      } else {
        assert WithoutTeamMatches(ms, x) == w;
      }
    }
  }

  lemma DeleteKeepsDecided(ms: seq<Match>, rs: seq<Confrontation>, x: string)
    requires AllDecided(ms, rs)
    ensures AllDecided(WithoutTeamMatches(ms, x), WithoutTeamResults(rs, x))
  {
    var ms', rs' := WithoutTeamMatches(ms, x), WithoutTeamResults(rs, x);
    forall i | 0 <= i < |rs'|
      ensures rs'[i].team1 != rs'[i].team2 && |Between(ms', rs'[i].team1, rs'[i].team2)| >= 3
      ensures rs'[i] == Decide(ms', rs'[i].team1, rs'[i].team2)
    {
      assert rs'[i] in rs;
      var k :| 0 <= k < |rs| && rs[k] == rs'[i];
      BetweenWithout(ms, x, rs'[i].team1, rs'[i].team2);
    }
  }

  lemma DeleteKeepsSettled(ms: seq<Match>, rs: seq<Confrontation>, x: string)
    requires AllSettled(ms, rs)
    ensures AllSettled(WithoutTeamMatches(ms, x), WithoutTeamResults(rs, x))
  {
    var ms', rs' := WithoutTeamMatches(ms, x), WithoutTeamResults(rs, x);
    forall a, b | a != b && |Between(ms', a, b)| >= 3 ensures HasConfrontation(rs', a, b) {
      if a == x {
        BetweenWithoutSelf(ms, x, b);
      } else if b == x {
        BetweenSymmetric(ms', a, b);
        BetweenWithoutSelf(ms, x, a);
      } else {
        BetweenWithout(ms, x, a, b);
        var k :| 0 <= k < |rs| && SamePair(rs[k].team1, rs[k].team2, a, b);
        assert rs[k] in rs';
        var k' :| 0 <= k' < |rs'| && rs'[k'] == rs[k];
      }
    }
  }

  /** delete_team's cascade keeps the confrontations sound. */
  lemma DeleteKeepsSound(ms: seq<Match>, rs: seq<Confrontation>, x: string)
    requires ConfrontationsSound(ms, rs)
    ensures ConfrontationsSound(WithoutTeamMatches(ms, x), WithoutTeamResults(rs, x))
  {
    DeleteKeepsDecided(ms, rs, x);
    WithoutResultsDistinct(rs, x);
    DeleteKeepsSettled(ms, rs, x);
  }

  /** Filtering keeps the results in order, so no pair appears twice afterwards. */
  lemma {:induction false} WithoutResultsDistinct(rs: seq<Confrontation>, x: string)
    requires PairsUnique(rs)
    ensures PairsUnique(WithoutTeamResults(rs, x))
  {
    if rs != [] {
      var n := |rs| - 1;
      assert PairsUnique(rs[..n]);
      WithoutResultsDistinct(rs[..n], x);
      var c := rs[n];
      var w := WithoutTeamResults(rs[..n], x);
      if x != c.team1 && x != c.team2 {
        assert WithoutTeamResults(rs, x) == w + [c];
        forall i | 0 <= i < |w| ensures !SamePair(w[i].team1, w[i].team2, c.team1, c.team2) {
          assert w[i] in rs[..n];
          var k :| 0 <= k < n && rs[..n][k] == w[i];
          assert rs[k] == w[i];
        }
        var r := w + [c];
        forall i, j | 0 <= i < j < |r| ensures !SamePair(r[i].team1, r[i].team2, r[j].team1, r[j].team2) {
          if j < |w| { assert r[i] == w[i] && r[j] == w[j]; }
        }
      } else {
        assert WithoutTeamResults(rs, x) == w;
      }
    }
  }
}
