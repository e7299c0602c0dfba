/** Knockout phase: who wins a matchup, when a round is complete, how the next
    round pairs the winners, and how the first round is seeded. */
module Knockout {
  import opened Text
  import opened Model

  /** One pairing of a round: two team names, either of which may be the BYE sentinel. */
  type Matchup = (string, string)

  /** The winner of a matchup while it is being played: a BYE side loses at once;
      otherwise a side with two or more wins among all matches between the two
      teams (side `a` is checked first), or none yet. */
  function ProvisionalWinner(ms: seq<Match>, a: string, b: string): Option<string>
  {
    if b == Bye then Some(a)
    else if a == Bye then Some(b)
    else
      var ws := Winners(Between(ms, a, b));
      if Count(ws, a) >= 2 then Some(a)
      else if Count(ws, b) >= 2 then Some(b)
      else None
  }

  /** The winner the round check uses: a BYE side loses at once; otherwise no
      winner before three matches between the teams, and after that the tally
      maximum of their winners (first in order of first win on a tie). */
  function FinalWinner(ms: seq<Match>, a: string, b: string): Option<string>
  {
    if b == Bye then Some(a)
    else if a == Bye then Some(b)
    else
      var bs := Between(ms, a, b);
      if |bs| < 3 then None else Some(MaxTally(Winners(bs)))
  }

  /** After exactly three matches between two different teams the matchup has a
      winner, it is one of the two, and the round check and the provisional
      view agree on it. */
  lemma FinalAgreesWithProvisional(ms: seq<Match>, a: string, b: string)
    requires WinnersOnPitch(ms) && a != b && |Between(ms, a, b)| == 3
    ensures FinalWinner(ms, a, b).Some?
    ensures a != Bye && b != Bye ==> FinalWinner(ms, a, b).value == a || FinalWinner(ms, a, b).value == b
    ensures FinalWinner(ms, a, b) == ProvisionalWinner(ms, a, b)
  {
    if a != Bye && b != Bye {
      var ws := Winners(Between(ms, a, b));
      WinnersBetween(ms, a, b);
      MajorityOfThree(ws, a, b);
      CountTwo(ws, a, b);
    }
  }

  /** The final winner: the other side when one side is a BYE; otherwise none
      before three matches between the teams, and afterwards one of the two
      teams with at least as many wins as the other. */
  lemma FinalWinnerRule(ms: seq<Match>, a: string, b: string)
    requires WinnersOnPitch(ms)
    ensures b == Bye ==> FinalWinner(ms, a, b) == Some(a)
    ensures a == Bye && b != Bye ==> FinalWinner(ms, a, b) == Some(b)
    ensures a != Bye && b != Bye ==> (FinalWinner(ms, a, b).None? <==> |Between(ms, a, b)| < 3)
    ensures a != Bye && b != Bye && FinalWinner(ms, a, b).Some? ==>
      var w := FinalWinner(ms, a, b).value; var ws := Winners(Between(ms, a, b));
      && (w == a || w == b)
      && Count(ws, w) >= Count(ws, a) && Count(ws, w) >= Count(ws, b)
  {
    if a != Bye && b != Bye && |Between(ms, a, b)| >= 3 {
      var ws := Winners(Between(ms, a, b));
      var w := MaxTally(ws);
      WinnersBetween(ms, a, b);
      if a !in ws { CountAbsent(ws, a); } else { var j :| 0 <= j < |ws| && ws[j] == a; }
      if b !in ws { CountAbsent(ws, b); } else { var j :| 0 <= j < |ws| && ws[j] == b; }
    }
  }

  /** A provisional winner has won two of the matches between the teams, unless
      the other side is a BYE. */
  lemma ProvisionalWinnerWonTwice(ms: seq<Match>, a: string, b: string)
    requires a != Bye && b != Bye && ProvisionalWinner(ms, a, b).Some?
    ensures var w := ProvisionalWinner(ms, a, b).value;
      (w == a || w == b) && Count(Winners(Between(ms, a, b)), w) >= 2
  {
  }

  /** The winners of a round in matchup order, when every matchup has a winner
      whose name is not empty; None as soon as one has not. */
  function RoundWinners(ms: seq<Match>, round: seq<Matchup>): (r: Option<seq<string>>)
    ensures r.Some? <==> forall i :: 0 <= i < |round| ==> Named(FinalWinner(ms, round[i].0, round[i].1))
    ensures r.Some? ==> |r.value| == |round|
    ensures r.Some? ==> forall i :: 0 <= i < |round| ==> Some(r.value[i]) == FinalWinner(ms, round[i].0, round[i].1)
  {
    if forall i :: 0 <= i < |round| ==> Named(FinalWinner(ms, round[i].0, round[i].1)) then
      Some(seq(|round|, i requires 0 <= i < |round| => FinalWinner(ms, round[i].0, round[i].1).value))
    else None
  }

  /** The next round: consecutive winners are paired and an odd one out meets a BYE. */
  function NextRound(ws: seq<string>): (r: seq<Matchup>)
    ensures |ws| >= 1 ==> 1 <= |r|
    ensures |ws| >= 2 ==> |r| < |ws|
  {
    seq((|ws| + 1) / 2, i requires 0 <= i < (|ws| + 1) / 2 =>
      (ws[2 * i], if 2 * i + 1 < |ws| then ws[2 * i + 1] else Bye))
  }

  /** The teams of a round, read left to right. */
  function Flatten(round: seq<Matchup>): (r: seq<string>)
  {
    if round == [] then []
    else Flatten(round[..|round| - 1]) + [round[|round| - 1].0, round[|round| - 1].1]
  }

  lemma {:induction false} FlattenIndex(round: seq<Matchup>)
    ensures |Flatten(round)| == 2 * |round|
    ensures forall i :: 0 <= i < |round| ==> Flatten(round)[2 * i] == round[i].0 && Flatten(round)[2 * i + 1] == round[i].1
  {
    if round != [] {
      FlattenIndex(round[..|round| - 1]);
    }
  }

  /** Reading the next round left to right gives back the winners in order,
      followed by one BYE when their number is odd. */
  lemma NextRoundFlattens(ws: seq<string>)
    ensures Flatten(NextRound(ws)) == ws + (if |ws| % 2 == 1 then [Bye] else [])
  {
    var r := NextRound(ws);
    var t := ws + (if |ws| % 2 == 1 then [Bye] else []);
    FlattenIndex(r);
    assert |t| == 2 * |r|;
    forall k | 0 <= k < |t| ensures Flatten(r)[k] == t[k] {
      var i := k / 2;
      assert r[i] == (ws[2 * i], if 2 * i + 1 < |ws| then ws[2 * i + 1] else Bye);
      if k % 2 == 0 {
        assert k == 2 * i && Flatten(r)[2 * i] == r[i].0;
      } else {
        assert k == 2 * i + 1 && Flatten(r)[2 * i + 1] == r[i].1;
      }
    }
  }

  // ---------------------------------------------------------------- seeding

  /** The seeded list: the qualifiers in rank order, padded with BYEs up to the bracket size. */
  function Padded(names: seq<string>, size: nat): (r: seq<string>)
    ensures |r| == if |names| >= size then |names| else size
  {
    if |names| >= size then names else names + seq(size - |names|, _ => Bye)
  }

  /** The first round: seed i of the top half meets the i-th seed counted from
      the end of the seeded list. */
  function SeedPairs(names: seq<string>, size: nat): (r: seq<Matchup>)
    ensures |r| == size / 2
  {
    var p := Padded(names, size);
    seq(size / 2, i requires 0 <= i < size / 2 => (p[i], p[|p| - 1 - i]))
  }

  /** The list reversed. */
  function Reverse(s: seq<string>): (r: seq<string>)
    ensures |r| == |s| && forall k :: 0 <= k < |s| ==> r[k] == s[|s| - 1 - k]
  {
    seq(|s|, k requires 0 <= k < |s| => s[|s| - 1 - k])
  }

  /** Pads with BYEs one at a time, then pairs the top half with the reversed bottom half. */
  method SeedBracket(names: seq<string>, size: nat) returns (round: seq<Matchup>)
    ensures round == SeedPairs(names, size)
  {
    var seeded := names;
    while |seeded| < size
      invariant |names| <= |seeded| <= (if |names| >= size then |names| else size)
      invariant seeded == names + seq(|seeded| - |names|, _ => Bye)
      decreases size - |seeded|
    {
      seeded := seeded + [Bye];
    }
    assert seeded == Padded(names, size);
    var top := seeded[..size / 2];
    var bottom := Reverse(seeded[size / 2..]);
    round := [];
    var i := 0;
    while i < |top|
      invariant 0 <= i <= |top| == size / 2
      invariant |round| == i
      invariant forall k :: 0 <= k < i ==> round[k] == (seeded[k], seeded[|seeded| - 1 - k])
    {
      round := round + [(top[i], bottom[i])];
      i := i + 1;
    }
  }

  /** When the qualifiers fit in an even bracket, everyone is placed, the top
      seeds are the ones that meet the BYEs, and seed i meets seed size-1-i. */
  lemma SeedingPlacesEveryone(names: seq<string>, size: nat)
    requires size % 2 == 0 && |names| <= size
    ensures var r := SeedPairs(names, size);
      && (forall k :: 0 <= k < |names| ==>
            (k < size / 2 && r[k].0 == names[k]) || (size - 1 - k < size / 2 && r[size - 1 - k].1 == names[k]))
      && (forall i :: 0 <= i < size / 2 && i < size - |names| ==> r[i].1 == Bye)
      && (forall i :: 0 <= i < size / 2 && i >= size - |names| ==> r[i].1 == names[size - 1 - i])
  {
    var p := Padded(names, size);
    assert forall k :: 0 <= k < |names| ==> p[k] == names[k];
    assert forall k :: |names| <= k < size ==> p[k] == Bye;
  }

  /** With more qualifiers than the bracket holds, the seeds in the middle of
      the ranking are the ones left out: the top half and the lowest-ranked
      qualifiers are placed. */
  lemma SeedingDropsMiddle(names: seq<string>, size: nat)
    requires |names| > size
    ensures var r := SeedPairs(names, size);
      forall i :: 0 <= i < size / 2 ==> r[i] == (names[i], names[|names| - 1 - i])
  {
  }
}
