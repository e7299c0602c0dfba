/** The values a category holds (teams, individual matches, confrontations),
    team identification from reported player names, and the win tally that
    both stages use to pick a winner between two teams. */
module Model {
  import opened Text

  /** The sentinel the knockout stage uses for an empty bracket slot. */
  const Bye: string := "BYE"

  datatype Team = Team(
    group: string,
    players: seq<string>,
    teamMatchesPlayed: nat,
    teamMatchesWon: nat,
    individualMatchesWon: nat,
    setsWon: nat,
    setsLost: nat,
    gamesWon: nat,
    gamesLost: nat)

  /** One reported result: the reported player tokens, the teams they resolved
      to, the winning team and the canonical score string. */
  datatype Match = Match(p1: string, p2: string, team1: string, team2: string, winner: string, setScores: string)

  /** A group-stage best-of-three between two teams. */
  datatype Confrontation = Confrontation(team1: string, team2: string, winner: string, score: string)

  /** A Python name is "truthy" when it is not the empty string: `if not t1`
      and `if winner:` treat a team called "" as missing. */
  predicate Named(r: Option<string>)
  {
    r.Some? && r.value != ""
  }

  // ---------------------------------------------------------------- roster

  /** The comma-separated player names, each stripped and lower-cased. */
  function PlayerNames(playersStr: string): (r: seq<string>)
    ensures |r| == |Split(playersStr, ',')| == multiset(playersStr)[','] + 1
    ensures forall k :: 0 <= k < |r| ==> r[k] == Lower(Strip(Split(playersStr, ',')[k]))
    ensures forall k :: 0 <= k < |r| ==> Strip(r[k]) == r[k] && Lower(r[k]) == r[k]
  {
    var parts := Split(playersStr, ',');
    SplitCount(playersStr, ',');
    var r := seq(|parts|, k requires 0 <= k < |parts| => Lower(Strip(parts[k])));
    assert forall k :: 0 <= k < |r| ==> Strip(r[k]) == r[k] && Lower(r[k]) == r[k] by {
      forall k | 0 <= k < |r| ensures Strip(r[k]) == r[k] && Lower(r[k]) == r[k] {
        LowerStripNormal(parts[k]);
      }
    }
    r
  }

  /** A freshly registered team: upper-cased group, normalised players, zeroed counters. */
  function NewTeam(group: string, playersStr: string): (t: Team)
    ensures t.group == Upper(group) && |t.group| == |group| && Upper(t.group) == t.group
    ensures |t.players| == |Split(playersStr, ',')| == multiset(playersStr)[','] + 1
    ensures forall k :: 0 <= k < |t.players| ==> t.players[k] == Lower(Strip(Split(playersStr, ',')[k]))
    ensures forall k :: 0 <= k < |t.players| ==> Strip(t.players[k]) == t.players[k] && Lower(t.players[k]) == t.players[k]
    ensures t.teamMatchesPlayed == t.teamMatchesWon == t.individualMatchesWon == 0
    ensures t.setsWon == t.setsLost == t.gamesWon == t.gamesLost == 0
  {
    Team(Upper(group), PlayerNames(playersStr), 0, 0, 0, 0, 0, 0, 0)
  }

  // ---------------------------------------------------------------- identification

  /** The slash-separated names of one side of a result line, each stripped and lower-cased. */
  function ReportedNames(player: string): (r: seq<string>)
    ensures |r| == |Split(player, '/')| == multiset(player)['/'] + 1
    ensures forall k :: 0 <= k < |r| ==> r[k] == Lower(Strip(Split(player, '/')[k]))
    ensures forall k :: 0 <= k < |r| ==> Strip(r[k]) == r[k] && Lower(r[k]) == r[k]
  {
    var parts := Split(player, '/');
    SplitCount(player, '/');
    var r := seq(|parts|, k requires 0 <= k < |parts| => Lower(Strip(parts[k])));
    assert forall k :: 0 <= k < |r| ==> Strip(r[k]) == r[k] && Lower(r[k]) == r[k] by {
      forall k | 0 <= k < |r| ensures Strip(r[k]) == r[k] && Lower(r[k]) == r[k] {
        LowerStripNormal(parts[k]);
      }
    }
    r
  }

  /** Every reported name is one of the team's players. */
  predicate Covers(t: Team, names: seq<string>)
  {
    forall n :: n in names ==> n in t.players
  }

  predicate Qualifies(teams: map<string, Team>, name: string, names: seq<string>)
  {
    name in teams && Covers(teams[name], names)
  }

  /** The first position at or after `from` in `order` whose team covers `names`. */
  function FirstCovering(order: seq<string>, teams: map<string, Team>, names: seq<string>, from: nat): (r: Option<nat>)
    requires from <= |order|
    ensures r.Some? ==> from <= r.value < |order| && Qualifies(teams, order[r.value], names)
    ensures r.Some? ==> forall j :: from <= j < r.value ==> !Qualifies(teams, order[j], names)
    ensures r.None? ==> forall j :: from <= j < |order| ==> !Qualifies(teams, order[j], names)
    decreases |order| - from
  {
    if from == |order| then None
    else if Qualifies(teams, order[from], names) then Some(from)
    else FirstCovering(order, teams, names, from + 1)
  }

  /** identify_team: the first team, in registration order, whose players include
      every name of the reported token; None when no team does. */
  function IdentifyTeam(player: string, teams: map<string, Team>, order: seq<string>): (r: Option<string>)
    ensures r.Some? ==> exists k :: 0 <= k < |order| && order[k] == r.value
                          && Qualifies(teams, order[k], ReportedNames(player))
                          && forall j :: 0 <= j < k ==> !Qualifies(teams, order[j], ReportedNames(player))
    ensures r.None? <==> forall j :: 0 <= j < |order| ==> !Qualifies(teams, order[j], ReportedNames(player))
  {
    match FirstCovering(order, teams, ReportedNames(player), 0)
    case Some(k) => Some(order[k])
    case None => None
  }

  // ---------------------------------------------------------------- pairs and tallies

  /** {x1, x2} == {a, b} as Python sets. */
  predicate SamePair(x1: string, x2: string, a: string, b: string)
  {
    (x1 == a && x2 == b) || (x1 == b && x2 == a)
  }

  lemma SamePairIsSetEquality(x1: string, x2: string, a: string, b: string)
    ensures SamePair(x1, x2, a, b) <==> {x1, x2} == {a, b}
  {
    if {x1, x2} == {a, b} {
      assert x1 in {a, b} && x2 in {a, b} && a in {x1, x2} && b in {x1, x2};
    }
  }

  /** The matches, in order, played between the teams `a` and `b` (either side). */
  function Between(ms: seq<Match>, a: string, b: string): (r: seq<Match>)
    ensures |r| <= |ms|
    ensures forall k :: 0 <= k < |r| ==> SamePair(r[k].team1, r[k].team2, a, b)
  {
    if ms == [] then []
    else
      var m := ms[|ms| - 1];
      Between(ms[..|ms| - 1], a, b) + (if SamePair(m.team1, m.team2, a, b) then [m] else [])
  }

  lemma BetweenAppend(ms: seq<Match>, m: Match, a: string, b: string)
    ensures Between(ms + [m], a, b) == Between(ms, a, b) + (if SamePair(m.team1, m.team2, a, b) then [m] else [])
  {
    assert (ms + [m])[..|ms|] == ms;
  }

  lemma {:induction false} BetweenSymmetric(ms: seq<Match>, a: string, b: string)
    ensures Between(ms, a, b) == Between(ms, b, a)
  {
    if ms != [] { BetweenSymmetric(ms[..|ms| - 1], a, b); }
  }

  /** The winners of a list of matches, in order. */
  function Winners(ms: seq<Match>): (r: seq<string>)
    ensures |r| == |ms| && forall k :: 0 <= k < |ms| ==> r[k] == ms[k].winner
  {
    seq(|ms|, k requires 0 <= k < |ms| => ms[k].winner)
  }

  /** How many times `x` occurs in `ws` (`tally[x]` in `record_group_match` and the knockout winner queries). */
  function Count(ws: seq<string>, x: string): nat
  {
    if ws == [] then 0
    else Count(ws[..|ws| - 1], x) + (if ws[|ws| - 1] == x then 1 else 0)
  }

  lemma {:induction false} CountPositive(ws: seq<string>, k: nat)
    requires k < |ws|
    ensures Count(ws, ws[k]) >= 1
  {
    if k < |ws| - 1 { CountPositive(ws[..|ws| - 1], k); }
  }

  /** Two distinct names that are the only ones occurring share the whole list. */
  lemma {:induction false} CountTwo(ws: seq<string>, a: string, b: string)
    requires a != b && forall k :: 0 <= k < |ws| ==> ws[k] == a || ws[k] == b
    ensures Count(ws, a) + Count(ws, b) == |ws|
  {
    if ws != [] { CountTwo(ws[..|ws| - 1], a, b); }
  }

  /** Position of the first occurrence of `x` (its insertion position in the tally). */
  function FirstIndex(ws: seq<string>, x: string): (r: nat)
    requires x in ws
    ensures r < |ws| && ws[r] == x && forall j :: 0 <= j < r ==> ws[j] != x
  {
    if ws[0] == x then 0 else 1 + FirstIndex(ws[1..], x)
  }

  /** The scan max() makes over the tally keys: a later key replaces the best only with a strictly greater count. */
  function BestFrom(ws: seq<string>, i: nat, best: string): (r: string)
    requires 0 < i <= |ws| && best in ws[..i]
    requires forall j :: 0 <= j < i ==> Count(ws, ws[j]) <= Count(ws, best)
    requires forall j :: 0 <= j < i && Count(ws, ws[j]) == Count(ws, best) ==> FirstIndex(ws, best) <= j
    ensures r in ws
    ensures forall j :: 0 <= j < |ws| ==> Count(ws, ws[j]) <= Count(ws, r)
    ensures forall j :: 0 <= j < |ws| && Count(ws, ws[j]) == Count(ws, r) ==> FirstIndex(ws, r) <= j
    decreases |ws| - i
  {
    if i == |ws| then best
    else
      assert ws[..i + 1] == ws[..i] + [ws[i]];
      if Count(ws, ws[i]) > Count(ws, best) then BestFrom(ws, i + 1, ws[i])
      else BestFrom(ws, i + 1, best)
  }

  /** The tally maximum over `ws`: a name with the greatest
      count, and among those the one that occurs first. */
  function MaxTally(ws: seq<string>): (r: string)
    requires ws != []
    ensures r in ws
    ensures forall j :: 0 <= j < |ws| ==> Count(ws, ws[j]) <= Count(ws, r)
    ensures forall j :: 0 <= j < |ws| && Count(ws, ws[j]) == Count(ws, r) ==> FirstIndex(ws, r) <= j
  {
    assert ws[..1] == [ws[0]];
    BestFrom(ws, 1, ws[0])
  }

  /** Among three results between two teams, the tally winner won at least two. */
  lemma MajorityOfThree(ws: seq<string>, a: string, b: string)
    requires |ws| == 3 && forall k :: 0 <= k < |ws| ==> ws[k] == a || ws[k] == b
    ensures MaxTally(ws) == a || MaxTally(ws) == b
    ensures 2 <= Count(ws, MaxTally(ws)) <= 3
  {
    var w := MaxTally(ws);
    CountBound(ws, w);
    if a == b {
      assert w == a;
      CountTwoEqual(ws, a);
    } else {
      CountTwo(ws, a, b);
      if Count(ws, a) >= 2 {
        var k :| 0 <= k < 3 && ws[k] == a by {
          if forall k :: 0 <= k < 3 ==> ws[k] != a { CountAbsent(ws, a); }
        }
      } else {
        assert Count(ws, b) >= 2;
        var k :| 0 <= k < 3 && ws[k] == b by {
          if forall k :: 0 <= k < 3 ==> ws[k] != b { CountAbsent(ws, b); }
        }
      }
    }
  }

  lemma {:induction false} CountBound(ws: seq<string>, x: string)
    ensures Count(ws, x) <= |ws|
  {
    if ws != [] { CountBound(ws[..|ws| - 1], x); }
  }

  lemma {:induction false} CountAbsent(ws: seq<string>, x: string)
    requires forall k :: 0 <= k < |ws| ==> ws[k] != x
    ensures Count(ws, x) == 0
  {
    if ws != [] { CountAbsent(ws[..|ws| - 1], x); }
  }

  lemma {:induction false} CountTwoEqual(ws: seq<string>, a: string)
    requires forall k :: 0 <= k < |ws| ==> ws[k] == a
    ensures Count(ws, a) == |ws|
  {
    if ws != [] { CountTwoEqual(ws[..|ws| - 1], a); }
  }

  /** Every match's winner is one of its two teams. */
  predicate WinnersOnPitch(ms: seq<Match>)
  {
    forall k :: 0 <= k < |ms| ==> ms[k].winner == ms[k].team1 || ms[k].winner == ms[k].team2
  }

  /** The winners of the matches between `a` and `b` are `a` or `b`. */
  lemma WinnersBetween(ms: seq<Match>, a: string, b: string)
    requires WinnersOnPitch(ms)
    ensures var ws := Winners(Between(ms, a, b)); forall k :: 0 <= k < |ws| ==> ws[k] == a || ws[k] == b
  {
    BetweenSubset(ms, a, b);
    var bs := Between(ms, a, b);
    forall k | 0 <= k < |bs| ensures bs[k].winner == a || bs[k].winner == b {
      assert bs[k] in ms;
      var i :| 0 <= i < |ms| && ms[i] == bs[k];
    }
  }

  lemma {:induction false} BetweenSubset(ms: seq<Match>, a: string, b: string)
    ensures forall m :: m in Between(ms, a, b) ==> m in ms
  {
    if ms != [] { BetweenSubset(ms[..|ms| - 1], a, b); }
  }
}
