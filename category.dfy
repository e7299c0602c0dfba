/** One category of the tournament as a mutable record (teams, group matches,
    confrontations, knockout rounds and matches, champion), the commands that
    change it, and the tournament's map from category names to categories. */
module TournamentLogic {
  import opened Text
  import opened Model
  import opened ResultParser
  import opened GroupStage
  import opened Knockout
  import opened Ranking

  /** Why a command was refused (each is a ValueError that the commands raise,
      or the IndexError of `record_knockout_match` for NoBracket). */
  datatype Failure =
    | BadFormat          // the result line does not match the pattern
    | BadScore           // a set token is not two dash-separated integers
    | Unidentified       // a side names no team (or a team called "")
    | SameTeam           // both sides belong to one team
    | NoBracket          // a knockout match before any bracket exists
    | NoActiveMatchup    // the two teams do not meet in the current round
    | MatchLimit         // the two teams have already played three knockout matches
    | KnockoutLocked     // deleting a team once the knockout has started
    | NoTeams            // a bracket for a category without teams

  datatype Outcome<+T> = Done(value: T) | Failed(failure: Failure)

  function ParseFailure(e: ParseError): Failure
  {
    match e
    case FormatError => BadFormat
    case ScoreError => BadScore
  }

  /** The order of registered teams with `name` removed. */
  function Without(order: seq<string>, name: string): (r: seq<string>)
    ensures forall x :: x in r <==> x in order && x != name
    ensures Distinct(order) ==> Distinct(r)
    ensures Subsequence(r, order)
  {
    if order == [] then []
    else
      var x := order[|order| - 1];
      var r := Without(order[..|order| - 1], name);
      assert forall y :: y in order[..|order| - 1] ==> y in order;
      if x == name then r
      else
        assert Distinct(order) ==> x !in order[..|order| - 1];
        r + [x]
  }

  /** The individual match record that `record_group_match` and
      `record_knockout_match` store for a report between t1 and t2. */
  function MatchFor(rep: MatchReport, t1: string, t2: string): Match
  {
    Match(rep.p1, rep.p2, t1, t2, MatchWinner(rep, t1, t2), rep.setScores)
  }

  /** The checks record_group_match makes before changing anything, in order:
      the line parses, both sides name a team, and the teams differ. */
  function GroupEntry(teams: map<string, Team>, order: seq<string>, p: Parsed<MatchReport>): (r: Outcome<(MatchReport, string, string)>)
    ensures r.Done? ==> r.value.1 in teams && r.value.2 in teams && r.value.1 != r.value.2
  {
    match p
    case Err(e) => Failed(ParseFailure(e))
    case Ok(rep) =>
      var t1 := IdentifyTeam(rep.p1, teams, order);
      var t2 := IdentifyTeam(rep.p2, teams, order);
      if !Named(t1) || !Named(t2) then Failed(Unidentified)
      else if t1.value == t2.value then Failed(SameTeam)
      else Done((rep, t1.value, t2.value))
  }

  /** An accepted group result is between two different registered teams, each
      the first team in registration order whose players include every name
      reported for its side. */
  lemma GroupEntryIdentifies(teams: map<string, Team>, order: seq<string>, p: Parsed<MatchReport>)
    requires GroupEntry(teams, order, p).Done?
    ensures var (rep, t1, t2) := GroupEntry(teams, order, p).value;
      && p == Ok(rep)
      && t1 != t2 && t1 != "" && t2 != ""
      && t1 in teams && Covers(teams[t1], ReportedNames(rep.p1))
      && t2 in teams && Covers(teams[t2], ReportedNames(rep.p2))
      && (forall j :: 0 <= j < |order| && order[j] != t1 && Qualifies(teams, order[j], ReportedNames(rep.p1)) ==>
            exists k :: 0 <= k < j && order[k] == t1)
  {
    var rep := p.value;
    var t1 := IdentifyTeam(rep.p1, teams, order).value;
    var k :| 0 <= k < |order| && order[k] == t1
      && Qualifies(teams, order[k], ReportedNames(rep.p1))
      && forall j :: 0 <= j < k ==> !Qualifies(teams, order[j], ReportedNames(rep.p1));
    var t2 := IdentifyTeam(rep.p2, teams, order).value;
    var k2 :| 0 <= k2 < |order| && order[k2] == t2 && Qualifies(teams, order[k2], ReportedNames(rep.p2));
  }

  /** The checks record_knockout_match makes before changing anything, in order:
      the line parses, both sides name a team, a bracket exists, the teams meet
      in the current round, and they have played fewer than three knockout matches. */
  function KnockoutEntry(teams: map<string, Team>, order: seq<string>, rounds: seq<seq<Matchup>>,
                         ms: seq<Match>, p: Parsed<MatchReport>): Outcome<(MatchReport, string, string)>
  {
    match p
    case Err(e) => Failed(ParseFailure(e))
    case Ok(rep) =>
      var t1 := IdentifyTeam(rep.p1, teams, order);
      var t2 := IdentifyTeam(rep.p2, teams, order);
      if !Named(t1) || !Named(t2) then Failed(Unidentified)
      else if rounds == [] then Failed(NoBracket)
      else if !InRound(rounds[|rounds| - 1], t1.value, t2.value) then Failed(NoActiveMatchup)
      else if |Between(ms, t1.value, t2.value)| >= 3 then Failed(MatchLimit)
      else Done((rep, t1.value, t2.value))
  }

  /** The two teams form one of the round's matchups, in either order. */
  predicate InRound(round: seq<Matchup>, t1: string, t2: string)
  {
    exists i :: 0 <= i < |round| && SamePair(t1, t2, round[i].0, round[i].1)
  }

  /** No pair of teams has played more than three knockout matches. */
  ghost predicate KnockoutCapped(ms: seq<Match>)
  {
    forall a, b :: |Between(ms, a, b)| <= 3
  }

  /** Appending a match between a pair that has played fewer than three keeps the cap. */
  lemma KnockoutCapKept(ms: seq<Match>, m: Match)
    requires KnockoutCapped(ms) && |Between(ms, m.team1, m.team2)| < 3
    ensures KnockoutCapped(ms + [m])
  {
    forall a, b ensures |Between(ms + [m], a, b)| <= 3 {
      BetweenAppend(ms, m, a, b);
      if SamePair(m.team1, m.team2, a, b) {
        BetweenSymmetric(ms, a, b);
      }
    }
  }

  /** The knockout part of a category: its rounds and its champion. */
  datatype Bracket = Bracket(rounds: seq<seq<Matchup>>, champion: Option<string>)

  /** The round check: when every matchup of the last round has a winner, a
      single winner becomes champion and several winners get a next round. */
  function CheckRound(b: Bracket, ms: seq<Match>): Bracket
  {
    if b.rounds == [] then b
    else
      match RoundWinners(ms, b.rounds[|b.rounds| - 1])
      case None => b
      case Some(ws) =>
        if |ws| == 1 then b.(champion := Some(ws[0]))
        else b.(rounds := b.rounds + [NextRound(ws)])
  }

  /** The round check never removes or rewrites a round: it either leaves the
      bracket alone, crowns the single winner of a complete last round, or
      appends exactly one round holding that round's winners in order (plus a
      BYE when their number is odd). A crowned bracket is stable under a
      further check. */
  lemma CheckRoundEffect(b: Bracket, ms: seq<Match>)
    ensures var c := CheckRound(b, ms);
      && |b.rounds| <= |c.rounds| <= |b.rounds| + 1
      && c.rounds[..|b.rounds|] == b.rounds
      && (b.rounds == [] || RoundWinners(ms, b.rounds[|b.rounds| - 1]).None? ==> c == b)
      && (b.rounds != [] && RoundWinners(ms, b.rounds[|b.rounds| - 1]).Some? ==>
            var ws := RoundWinners(ms, b.rounds[|b.rounds| - 1]).value;
            && (|ws| == 1 ==> c == b.(champion := Some(ws[0])) && CheckRound(c, ms) == c)
            && (|ws| != 1 ==> c == b.(rounds := b.rounds + [NextRound(ws)])))
      && (c.champion != b.champion ==>
            b.rounds != [] && RoundWinners(ms, b.rounds[|b.rounds| - 1]) == Some([c.champion.value])
            && c.rounds == b.rounds && CheckRound(c, ms) == c)
      && (|c.rounds| > |b.rounds| ==>
            var ws := RoundWinners(ms, b.rounds[|b.rounds| - 1]).value;
            && |ws| != 1 && |ws| == |b.rounds[|b.rounds| - 1]|
            && |c.rounds[|b.rounds|]| == (|ws| + 1) / 2
            && Flatten(c.rounds[|b.rounds|]) == ws + (if |ws| % 2 == 1 then [Bye] else []))
  {
    var c := CheckRound(b, ms);
    if c.champion != b.champion {
      var ws := RoundWinners(ms, b.rounds[|b.rounds| - 1]).value;
      assert ws == [ws[0]];
    }
    if |c.rounds| > |b.rounds| {
      NextRoundFlattens(RoundWinners(ms, b.rounds[|b.rounds| - 1]).value);
    }
  }

  /** The team order lists each registered team exactly once. */
  ghost predicate RosterValid(teams: map<string, Team>, order: seq<string>)
  {
    Distinct(order) && forall k :: k in teams <==> k in order
  }

  /** Group matches and confrontations involve registered teams only, and the
      confrontations are sound for the matches. */
  ghost predicate GroupValid(teams: map<string, Team>, ms: seq<Match>, rs: seq<Confrontation>)
  {
    && GroupMatchesWellFormed(ms)
    && (forall m :: m in ms ==> m.team1 in teams && m.team2 in teams)
    && (forall c :: c in rs ==> c.team1 in teams && c.team2 in teams)
    && ConfrontationsSound(ms, rs)
  }

  /** Knockout matches are won by one of their teams, capped at three per pair,
      and absent while there is no bracket. */
  ghost predicate KnockoutValid(rounds: seq<seq<Matchup>>, ms: seq<Match>)
  {
    WinnersOnPitch(ms) && KnockoutCapped(ms) && (rounds == [] ==> ms == [])
  }

  /** What recording an accepted group result does: the state after it and the
      confrontation it settled, if any. */
  datatype GroupRecord = GroupRecord(teams: map<string, Team>, matches: seq<Match>,
                                     results: seq<Confrontation>, settled: Option<Confrontation>)

  function RecordGroup(teams: map<string, Team>, ms: seq<Match>, rs: seq<Confrontation>,
                       rep: MatchReport, t1: string, t2: string): GroupRecord
    requires t1 in teams && t2 in teams && t1 != t2 && WinnersOnPitch(ms)
  {
    var ms' := ms + [MatchFor(rep, t1, t2)];
    var credited := Credit(teams, t1, t2, rep);
    if |Between(ms', t1, t2)| >= 3 && !HasConfrontation(rs, t1, t2) then
      var c := Decide(ms', t1, t2);
      DecideMajority(ms', t1, t2);
      GroupRecord(Settle(credited, t1, t2, c.winner), ms', rs + [c], Some(c))
    else GroupRecord(credited, ms', rs, None)
  }

  /** Recording a group result keeps the group invariant, settles a pair exactly
      when it reaches three matches without a confrontation (for the team with
      two or three of the first three wins), and keeps the set of teams. */
  lemma RecordGroupValid(teams: map<string, Team>, ms: seq<Match>, rs: seq<Confrontation>,
                         rep: MatchReport, t1: string, t2: string)
    requires GroupValid(teams, ms, rs) && t1 in teams && t2 in teams && t1 != t2
    ensures var g := RecordGroup(teams, ms, rs, rep, t1, t2);
      && GroupValid(g.teams, g.matches, g.results)
      && g.teams.Keys == teams.Keys
      && g.matches == ms + [MatchFor(rep, t1, t2)]
      && g.results == ConfrontationStep(g.matches, rs, t1, t2)
      && (g.settled.Some? <==> |g.results| == |rs| + 1)
      && (g.settled.Some? ==>
            && g.results == rs + [g.settled.value]
            && (g.settled.value.winner == t1 || g.settled.value.winner == t2)
            && (g.settled.value.score == "2-1" || g.settled.value.score == "3-0"))
  {
    var m := MatchFor(rep, t1, t2);
    RecordKeepsSound(ms, rs, m);
    RecordSettles(teams, ms, rs, rep, t1, t2);
    RecordKeepsTeams(teams, ms, rs, rep, t1, t2);
    RecordWellFormed(ms, m);
    RecordOnRoster(teams, ms, rs, rep, t1, t2);
  }

  /** Recording a group result changes no team's registration. */
  lemma RecordKeepsTeams(teams: map<string, Team>, ms: seq<Match>, rs: seq<Confrontation>,
                         rep: MatchReport, t1: string, t2: string)
    requires WinnersOnPitch(ms) && t1 in teams && t2 in teams && t1 != t2
    ensures RecordGroup(teams, ms, rs, rep, t1, t2).teams.Keys == teams.Keys
  {
    var ms' := ms + [MatchFor(rep, t1, t2)];
    CreditEffect(teams, t1, t2, rep);
    if |Between(ms', t1, t2)| >= 3 && !HasConfrontation(rs, t1, t2) {
      DecideMajority(ms', t1, t2);
    }
  }

  lemma RecordSettles(teams: map<string, Team>, ms: seq<Match>, rs: seq<Confrontation>,
                      rep: MatchReport, t1: string, t2: string)
    requires WinnersOnPitch(ms) && t1 in teams && t2 in teams && t1 != t2
    ensures var g := RecordGroup(teams, ms, rs, rep, t1, t2);
      && g.matches == ms + [MatchFor(rep, t1, t2)]
      && g.results == ConfrontationStep(g.matches, rs, t1, t2)
      && (g.settled.Some? <==> |g.results| == |rs| + 1)
      && (g.settled.Some? ==>
            && g.results == rs + [g.settled.value]
            && (g.settled.value.winner == t1 || g.settled.value.winner == t2)
            && (g.settled.value.score == "2-1" || g.settled.value.score == "3-0"))
  {
    var ms' := ms + [MatchFor(rep, t1, t2)];
    if |Between(ms', t1, t2)| >= 3 && !HasConfrontation(rs, t1, t2) {
      DecideMajority(ms', t1, t2);
      assert ScoreText(2) == "2-1" && ScoreText(3) == "3-0";
    }
  }

  lemma RecordWellFormed(ms: seq<Match>, m: Match)
    requires m.team1 != m.team2 && (m.winner == m.team1 || m.winner == m.team2)
    ensures GroupMatchesWellFormed(ms) ==> GroupMatchesWellFormed(ms + [m])
    ensures WinnersOnPitch(ms) ==> WinnersOnPitch(ms + [m])
  {
  }

  lemma RecordOnRoster(teams: map<string, Team>, ms: seq<Match>, rs: seq<Confrontation>,
                       rep: MatchReport, t1: string, t2: string)
    requires WinnersOnPitch(ms) && t1 in teams && t2 in teams && t1 != t2
    requires forall m :: m in ms ==> m.team1 in teams && m.team2 in teams
    requires forall c :: c in rs ==> c.team1 in teams && c.team2 in teams
    ensures var g := RecordGroup(teams, ms, rs, rep, t1, t2);
      && (forall m :: m in g.matches ==> m.team1 in g.teams && m.team2 in g.teams)
      && (forall c :: c in g.results ==> c.team1 in g.teams && c.team2 in g.teams)
  {
    RecordSettles(teams, ms, rs, rep, t1, t2);
    RecordKeepsTeams(teams, ms, rs, rep, t1, t2);
    var g := RecordGroup(teams, ms, rs, rep, t1, t2);
    assert forall m :: m in g.matches ==> m in ms || m == MatchFor(rep, t1, t2);
    if g.settled.Some? {
      assert forall c :: c in g.results ==> c in rs || c == g.settled.value;
    }
  }

  /** The roster invariant only depends on which teams are registered. */
  lemma RosterSameKeys(teams: map<string, Team>, teams': map<string, Team>, order: seq<string>)
    requires RosterValid(teams, order) && teams'.Keys == teams.Keys
    ensures RosterValid(teams', order)
  {
    assert forall k :: k in teams' <==> k in teams;
  }

  /** Deleting a registered team keeps the roster invariant. */
  lemma DeleteTeamRoster(teams: map<string, Team>, order: seq<string>, name: string)
    requires RosterValid(teams, order) && name in teams
    ensures RosterValid(teams - {name}, Without(order, name))
  {
  }

  lemma DeleteWellFormed(ms: seq<Match>, name: string)
    requires GroupMatchesWellFormed(ms)
    ensures GroupMatchesWellFormed(WithoutTeamMatches(ms, name))
  {
    var ms' := WithoutTeamMatches(ms, name);
    forall k | 0 <= k < |ms'|
      ensures ms'[k].team1 != ms'[k].team2
      ensures ms'[k].winner == ms'[k].team1 || ms'[k].winner == ms'[k].team2
    {
      assert ms'[k] in ms;
    }
  }

  lemma DeleteOnRoster(teams: map<string, Team>, ms: seq<Match>, rs: seq<Confrontation>, name: string)
    requires forall m :: m in ms ==> m.team1 in teams && m.team2 in teams
    requires forall c :: c in rs ==> c.team1 in teams && c.team2 in teams
    ensures forall m :: m in WithoutTeamMatches(ms, name) ==> m.team1 in teams - {name} && m.team2 in teams - {name}
    ensures forall c :: c in WithoutTeamResults(rs, name) ==> c.team1 in teams - {name} && c.team2 in teams - {name}
  {
    var ms' := WithoutTeamMatches(ms, name);
    forall m | m in ms' ensures m.team1 in teams - {name} && m.team2 in teams - {name} {
      var k :| 0 <= k < |ms'| && ms'[k] == m;
    }
    var rs' := WithoutTeamResults(rs, name);
    forall c | c in rs' ensures c.team1 in teams - {name} && c.team2 in teams - {name} {
      var k :| 0 <= k < |rs'| && rs'[k] == c;
    }
  }

  /** Deleting a team keeps the group invariant. */
  lemma DeleteTeamGroup(teams: map<string, Team>, ms: seq<Match>, rs: seq<Confrontation>, name: string)
    requires GroupValid(teams, ms, rs)
    ensures GroupValid(teams - {name}, WithoutTeamMatches(ms, name), WithoutTeamResults(rs, name))
  {
    DeleteKeepsSound(ms, rs, name);
    DeleteWellFormed(ms, name);
    DeleteOnRoster(teams, ms, rs, name);
  }

  /** The round check keeps the knockout invariant. */
  lemma CheckRoundValid(b: Bracket, ms: seq<Match>)
    requires KnockoutValid(b.rounds, ms)
    ensures KnockoutValid(CheckRound(b, ms).rounds, ms)
  {
  }

  class Category {
    var teams: map<string, Team>
    /** Team names in registration order (the insertion order of the `teams` dictionary). */
    var teamOrder: seq<string>
    var matches: seq<Match>
    var results: seq<Confrontation>
    var knockout: seq<seq<Matchup>>
    var koMatches: seq<Match>
    var champion: Option<string>

    /** The category invariant: the team order lists each registered team once,
        group matches and confrontations involve registered teams only, every
        confrontation is the decided first three matches of its pair, knockout
        matches are won by one of their teams and capped at three per pair, and
        there are no knockout matches without a bracket. */
    ghost predicate Valid()
      reads this
    {
      RosterValid(teams, teamOrder) && GroupValid(teams, matches, results) && KnockoutValid(knockout, koMatches)
    }

    /** A category as initialize_category creates it. */
    constructor ()
      ensures Valid()
      ensures teams == map[] && teamOrder == [] && matches == [] && results == []
      ensures knockout == [] && koMatches == [] && champion == None
    {
      teams := map[];
      teamOrder := [];
      matches := [];
      results := [];
      knockout := [];
      koMatches := [];
      champion := None;
    }

    /** Registers (or re-registers, keeping its place) a team with zeroed counters. */
    method RegisterTeam(name: string, group: string, playersStr: string)
      requires Valid()
      modifies this
      ensures Valid()
      ensures teams == old(teams)[name := NewTeam(group, playersStr)]
      ensures teamOrder == if name in old(teams) then old(teamOrder) else old(teamOrder) + [name]
      ensures matches == old(matches) && results == old(results)
      ensures knockout == old(knockout) && koMatches == old(koMatches) && champion == old(champion)
    {
      if name !in teams {
        teamOrder := teamOrder + [name];
      }
      teams := teams[name := NewTeam(group, playersStr)];
    }

    /** Deletes a team with its group matches and confrontations; refused once
        the knockout has started. Done(false) when there is no such team. */
    method DeleteTeam(name: string) returns (r: Outcome<bool>)
      requires Valid()
      modifies this
      ensures Valid()
      ensures old(knockout) != [] ==> r == Failed(KnockoutLocked) && unchanged(this)
      ensures old(knockout) == [] && name !in old(teams) ==> r == Done(false) && unchanged(this)
      ensures old(knockout) == [] && name in old(teams) ==>
        && r == Done(true)
        && teams == old(teams) - {name} && teamOrder == Without(old(teamOrder), name)
        && matches == WithoutTeamMatches(old(matches), name)
        && results == WithoutTeamResults(old(results), name)
      ensures knockout == old(knockout) && koMatches == old(koMatches) && champion == old(champion)
    {
      if knockout != [] {
        return Failed(KnockoutLocked);
      }
      if name !in teams {
        return Done(false);
      }
      RemoveTeam(name);
      r := Done(true);
    }

    /** The cascade of delete_team once the team is known to exist. */
    method RemoveTeam(name: string)
      requires Valid() && name in teams
      modifies this
      ensures Valid()
      ensures teams == old(teams) - {name} && teamOrder == Without(old(teamOrder), name)
      ensures matches == WithoutTeamMatches(old(matches), name)
      ensures results == WithoutTeamResults(old(results), name)
      ensures knockout == old(knockout) && koMatches == old(koMatches) && champion == old(champion)
    {
      var teams', order', matches', results' :=
        teams - {name}, Without(teamOrder, name), WithoutTeamMatches(matches, name), WithoutTeamResults(results, name);
      assert RosterValid(teams', order') && GroupValid(teams', matches', results') by {
        DeleteTeamRoster(teams, teamOrder, name);
        DeleteTeamGroup(teams, matches, results, name);
      }
      teams, teamOrder, matches, results := teams', order', matches', results';
    }

    /** Records one group-stage result line. Errors leave the category as it
        was; otherwise the match is appended, both teams are credited, and a
        pair reaching three matches without a confrontation gets one (returned). */
    method RecordGroupMatch(line: string) returns (r: Outcome<Option<Confrontation>>)
      requires Valid()
      modifies this
      ensures Valid()
      ensures GroupEntry(old(teams), old(teamOrder), Report(line)).Failed? ==>
        r == Failed(GroupEntry(old(teams), old(teamOrder), Report(line)).failure) && unchanged(this)
      ensures GroupEntry(old(teams), old(teamOrder), Report(line)).Done? ==>
        var (rep, t1, t2) := GroupEntry(old(teams), old(teamOrder), Report(line)).value;
        && r.Done?
        && GroupRecord(teams, matches, results, r.value) == RecordGroup(old(teams), old(matches), old(results), rep, t1, t2)
        && teamOrder == old(teamOrder)
        && knockout == old(knockout) && koMatches == old(koMatches) && champion == old(champion)
    {
      var p := ParseMatchResult(line);
      r := RecordGroupReport(p);
    }

    /** record_group_match after parsing: identification, then the update. */
    method RecordGroupReport(p: Parsed<MatchReport>) returns (r: Outcome<Option<Confrontation>>)
      requires Valid()
      modifies this
      ensures Valid()
      ensures GroupEntry(old(teams), old(teamOrder), p).Failed? ==>
        r == Failed(GroupEntry(old(teams), old(teamOrder), p).failure) && unchanged(this)
      ensures GroupEntry(old(teams), old(teamOrder), p).Done? ==>
        var (rep, t1, t2) := GroupEntry(old(teams), old(teamOrder), p).value;
        && r.Done?
        && GroupRecord(teams, matches, results, r.value) == RecordGroup(old(teams), old(matches), old(results), rep, t1, t2)
        && teamOrder == old(teamOrder)
        && knockout == old(knockout) && koMatches == old(koMatches) && champion == old(champion)
    {
      var entry := GroupEntry(teams, teamOrder, p);
      if entry.Failed? {
        return Failed(entry.failure);
      }
      var (rep, a, b) := entry.value;
      var settled := ApplyGroupResult(rep, a, b);
      r := Done(settled);
    }

    /** The updates of record_group_match once both teams are known. */
    method ApplyGroupResult(rep: MatchReport, t1: string, t2: string) returns (settled: Option<Confrontation>)
      requires Valid() && t1 in teams && t2 in teams && t1 != t2
      modifies this
      ensures Valid()
      ensures GroupRecord(teams, matches, results, settled) == RecordGroup(old(teams), old(matches), old(results), rep, t1, t2)
      ensures teamOrder == old(teamOrder)
      ensures knockout == old(knockout) && koMatches == old(koMatches) && champion == old(champion)
    {
      var g := RecordGroup(teams, matches, results, rep, t1, t2);
      assert RosterValid(g.teams, teamOrder) && GroupValid(g.teams, g.matches, g.results) by {
        RecordGroupValid(teams, matches, results, rep, t1, t2);
        RosterSameKeys(teams, g.teams, teamOrder);
      }
      teams, matches, results := g.teams, g.matches, g.results;
      settled := g.settled;
    }

    /** The standings table of the category. */
    function StandingsTable(): seq<Entry>
      requires Valid()
      reads this
    {
      Standings(teams, teamOrder)
    }

    /** The round check: scans the last round's matchups, stopping at the first
        without a winner; when all have one, crowns a single winner or appends
        the next round. Nothing happens without a bracket. */
    method CheckAndAdvance()
      requires Valid()
      modifies this
      ensures Valid()
      ensures Bracket(knockout, champion) == CheckRound(Bracket(old(knockout), old(champion)), koMatches)
      ensures teams == old(teams) && teamOrder == old(teamOrder) && matches == old(matches)
      ensures results == old(results) && koMatches == old(koMatches)
    {
      if knockout == [] {
        return;
      }
      var round := knockout[|knockout| - 1];
      var winners: seq<string> := [];
      var allDecided := true;
      var i := 0;
      while i < |round|
        invariant 0 <= i <= |round|
        invariant |winners| == i
        invariant forall k :: 0 <= k < i ==> Some(winners[k]) == FinalWinner(koMatches, round[k].0, round[k].1)
        invariant forall k :: 0 <= k < i ==> Named(FinalWinner(koMatches, round[k].0, round[k].1))
        invariant allDecided
        decreases |round| - i, allDecided
      {
        var w := FinalWinner(koMatches, round[i].0, round[i].1);
        if Named(w) {
          winners := winners + [w.value];
          i := i + 1;
        } else {
          allDecided := false;
          break;
        }
      }
      if allDecided {
        var rw := RoundWinners(koMatches, round);
        assert rw.Some? && |rw.value| == |winners|;
        assert forall k :: 0 <= k < |round| ==> rw.value[k] == winners[k];
        assert rw.value == winners;
        if |winners| == 1 {
          champion := Some(winners[0]);
        } else {
          knockout := knockout + [NextRound(winners)];
        }
      }
    }

    /** The first matchup of `round` between t1 and t2, in either order. */
    method FindMatchup(round: seq<Matchup>, t1: string, t2: string) returns (found: Option<nat>)
      ensures found.Some? ==> found.value < |round| && SamePair(t1, t2, round[found.value].0, round[found.value].1)
      ensures found.Some? ==> forall k :: 0 <= k < found.value ==> !SamePair(t1, t2, round[k].0, round[k].1)
      ensures found.None? <==> !InRound(round, t1, t2)
    {
      var i := 0;
      while i < |round|
        invariant 0 <= i <= |round|
        invariant forall k :: 0 <= k < i ==> !SamePair(t1, t2, round[k].0, round[k].1)
      {
        if SamePair(t1, t2, round[i].0, round[i].1) {
          return Some(i);
        }
        i := i + 1;
      }
      return None;
    }

    /** Records one knockout result line. Errors leave the category as it was;
        otherwise the match is appended and the round check runs. */
    method RecordKnockoutMatch(line: string) returns (r: Outcome<string>)
      requires Valid()
      modifies this
      ensures Valid()
      ensures KnockoutEntry(old(teams), old(teamOrder), old(knockout), old(koMatches), Report(line)).Failed? ==>
        r == Failed(KnockoutEntry(old(teams), old(teamOrder), old(knockout), old(koMatches), Report(line)).failure)
        && unchanged(this)
      ensures KnockoutEntry(old(teams), old(teamOrder), old(knockout), old(koMatches), Report(line)).Done? ==>
        var (rep, t1, t2) := KnockoutEntry(old(teams), old(teamOrder), old(knockout), old(koMatches), Report(line)).value;
        && koMatches == old(koMatches) + [MatchFor(rep, t1, t2)]
        && Bracket(knockout, champion) == CheckRound(Bracket(old(knockout), old(champion)), koMatches)
        && r == Done(MatchWinner(rep, t1, t2))
        && teams == old(teams) && teamOrder == old(teamOrder)
        && matches == old(matches) && results == old(results)
    {
      var p := ParseMatchResult(line);
      r := RecordKnockoutReport(p);
    }

    /** record_knockout_match after parsing: identification, the matchup and
        limit checks, then the update and the round check. */
    method RecordKnockoutReport(p: Parsed<MatchReport>) returns (r: Outcome<string>)
      requires Valid()
      modifies this
      ensures Valid()
      ensures KnockoutEntry(old(teams), old(teamOrder), old(knockout), old(koMatches), p).Failed? ==>
        r == Failed(KnockoutEntry(old(teams), old(teamOrder), old(knockout), old(koMatches), p).failure)
        && unchanged(this)
      ensures KnockoutEntry(old(teams), old(teamOrder), old(knockout), old(koMatches), p).Done? ==>
        var (rep, t1, t2) := KnockoutEntry(old(teams), old(teamOrder), old(knockout), old(koMatches), p).value;
        && koMatches == old(koMatches) + [MatchFor(rep, t1, t2)]
        && Bracket(knockout, champion) == CheckRound(Bracket(old(knockout), old(champion)), koMatches)
        && r == Done(MatchWinner(rep, t1, t2))
        && teams == old(teams) && teamOrder == old(teamOrder)
        && matches == old(matches) && results == old(results)
    {
      if p.Err? {
        return Failed(ParseFailure(p.error));
      }
      var t1 := IdentifyTeam(p.value.p1, teams, teamOrder);
      var t2 := IdentifyTeam(p.value.p2, teams, teamOrder);
      if !Named(t1) || !Named(t2) {
        return Failed(Unidentified);
      }
      if knockout == [] {
        return Failed(NoBracket);
      }
      var a, b := t1.value, t2.value;
      var found := FindMatchup(knockout[|knockout| - 1], a, b);
      if found.None? {
        return Failed(NoActiveMatchup);
      }
      if |Between(koMatches, a, b)| >= 3 {
        return Failed(MatchLimit);
      }
      var m := MatchFor(p.value, a, b);
      ApplyKnockoutResult(m);
      r := Done(m.winner);
    }

    /** The updates of record_knockout_match once the match is accepted: append
        it, then run the round check. */
    method ApplyKnockoutResult(m: Match)
      requires Valid() && knockout != []
      requires (m.winner == m.team1 || m.winner == m.team2) && |Between(koMatches, m.team1, m.team2)| < 3
      modifies this
      ensures Valid()
      ensures koMatches == old(koMatches) + [m]
      ensures Bracket(knockout, champion) == CheckRound(Bracket(old(knockout), old(champion)), koMatches)
      ensures teams == old(teams) && teamOrder == old(teamOrder)
      ensures matches == old(matches) && results == old(results)
    {
      KnockoutCapKept(koMatches, m);
      assert forall k :: 0 <= k < |koMatches| ==> (koMatches + [m])[k] == koMatches[k];
      koMatches := koMatches + [m];
      CheckAndAdvance();
    }

    /** Seeds a new bracket from the group standings: each group's best
        `numAdvancing`, ranked together, padded with BYEs and paired first
        against last. Clears knockout matches and the champion. */
    method GenerateKnockoutBracket(numAdvancing: int, bracketSize: nat) returns (r: Outcome<seq<Matchup>>)
      requires Valid()
      modifies this
      ensures Valid()
      ensures old(teams) == map[] ==> r == Failed(NoTeams) && unchanged(this)
      ensures old(teams) != map[] ==>
        var round := SeedPairs(Seeds(Entries(teams, teamOrder), numAdvancing), bracketSize);
        && r == Done(round)
        && knockout == [round] && koMatches == [] && champion == None
        && teams == old(teams) && teamOrder == old(teamOrder)
        && matches == old(matches) && results == old(results)
    {
      if teams == map[] {
        return Failed(NoTeams);
      }
      var seeds := Seeds(Entries(teams, teamOrder), numAdvancing);
      var round := SeedBracket(seeds, bracketSize);
      knockout := [round];
      koMatches := [];
      champion := None;
      r := Done(round);
    }

    /** Discards the bracket, the knockout matches and the champion. */
    method ResetKnockoutPhase()
      requires Valid()
      modifies this
      ensures Valid()
      ensures knockout == [] && koMatches == [] && champion == None
      ensures teams == old(teams) && teamOrder == old(teamOrder)
      ensures matches == old(matches) && results == old(results)
    {
      knockout := [];
      koMatches := [];
      champion := None;
    }
  }

  /** The whole tournament: its categories by name. */
  class Tournament {
    var categories: map<string, Category>

    /** The data a session starts from: no categories. */
    constructor ()
      ensures categories == map[]
    {
      categories := map[];
    }

    /** The category called `name`, created empty if it does not exist yet. */
    method InitializeCategory(name: string) returns (c: Category)
      modifies this
      ensures name in old(categories) ==> c == old(categories)[name] && categories == old(categories)
      ensures name !in old(categories) ==>
        && fresh(c) && c.Valid() && c.teams == map[] && c.teamOrder == [] && c.matches == [] && c.results == []
        && c.knockout == [] && c.koMatches == [] && c.champion == None
        && categories == old(categories)[name := c]
    {
      if name in categories {
        return categories[name];
      }
      c := new Category();
      categories := categories[name := c];
    }

    /** Removes the category called `name`; false when there is none. */
    method DeleteCategory(name: string) returns (found: bool)
      modifies this
      ensures found == (name in old(categories))
      ensures categories == old(categories) - {name}
    {
      found := name in categories;
      categories := categories - {name};
    }
  }
}
