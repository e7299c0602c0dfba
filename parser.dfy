/** The result-line parser: "<p1> def. <p2> <g1-g2> <g1-g2> ..." into the two
    player tokens, set counts, game totals and a canonical score string. */
module ResultParser {
  import opened Text

  datatype ParseError = FormatError | ScoreError

  datatype Parsed<+T> = Ok(value: T) | Err(error: ParseError)

  /** The seven values the parser returns: both player tokens (stripped), sets won
      by each side, games won by each side, and the canonical score string. */
  datatype MatchReport = MatchReport(
    p1: string, p2: string,
    p1Sets: nat, p2Sets: nat,
    p1Games: nat, p2Games: nat,
    setScores: string)

  /** One set: games won by side 1, games won by side 2. */
  type SetScore = (nat, nat)

  const Def: string := " def. "

  // ---------------------------------------------------------------- the pattern

  predicate NoNewline(s: string)
  {
    forall k :: 0 <= k < |s| ==> s[k] != '\n'
  }

  /** The pattern (.+?) def\. (.+?) (.+) matches from the start of `line` with the
      first group ending at `i` and the second at `j` ('.' matches anything but '\n'). */
  predicate IsSplitAt(line: string, i: nat, j: nat)
  {
    && 1 <= i && i + 7 <= j && j + 2 <= |line|
    && line[i..i + 6] == Def
    && line[j] == ' '
    && NoNewline(line[..j + 2])
  }

  /** (i, j) is the match the regex engine reports: the lazy groups try the
      shortest first group first, and for it the shortest second group first. */
  ghost predicate IsFirstSplit(line: string, i: nat, j: nat)
  {
    && IsSplitAt(line, i, j)
    && (forall i': nat, j': nat :: i' < i ==> !IsSplitAt(line, i', j'))
    && (forall j': nat :: j' < j ==> !IsSplitAt(line, i, j'))
  }

  /** End of the greedy third group: the first newline at or after `k`, or the end. */
  function LineEnd(line: string, k: nat): (e: nat)
    requires k <= |line|
    ensures k <= e <= |line| && NoNewline(line[k..e]) && (e < |line| ==> line[e] == '\n')
    decreases |line| - k
  {
    if k == |line| || line[k] == '\n' then k
    else
      var e := LineEnd(line, k + 1);
      assert line[k..e] == [line[k]] + line[k + 1..e];
      e
  }

  /** The smallest end `j' >= j` of the second group for a first group ending at `i`. */
  function SecondEnd(line: string, i: nat, j: nat): (r: Option<nat>)
    ensures r.Some? ==> j <= r.value && IsSplitAt(line, i, r.value)
    ensures r.Some? ==> forall j' :: j <= j' < r.value ==> !IsSplitAt(line, i, j')
    ensures r.None? ==> forall j' :: j <= j' ==> !IsSplitAt(line, i, j')
    decreases |line| - j
  {
    if j + 2 > |line| then None
    else if IsSplitAt(line, i, j) then Some(j)
    else SecondEnd(line, i, j + 1)
  }

  /** The first match over first-group ends `i' >= i`. */
  function FirstEnds(line: string, i: nat): (r: Option<(nat, nat)>)
    ensures r.Some? ==> i <= r.value.0 && IsSplitAt(line, r.value.0, r.value.1)
    ensures r.Some? ==> forall i', j' :: i <= i' < r.value.0 ==> !IsSplitAt(line, i', j')
    ensures r.Some? ==> forall j': nat :: j' < r.value.1 ==> !IsSplitAt(line, r.value.0, j')
    ensures r.None? ==> forall i', j' :: i <= i' ==> !IsSplitAt(line, i', j')
    decreases |line| - i
  {
    if i > |line| then None
    else
      match SecondEnd(line, i, 0)
      case Some(j) => Some((i, j))
      case None => FirstEnds(line, i + 1)
  }

  /** The three groups the result-line pattern captures, or None when it does not match. */
  function SplitReport(line: string): (r: Option<(string, string, string)>)
    ensures r.None? <==> forall i: nat, j: nat :: !IsSplitAt(line, i, j)
    ensures r.Some? ==> exists i: nat, j: nat ::
                          && IsFirstSplit(line, i, j)
                          && r.value == (line[..i], line[i + 6..j], line[j + 1..LineEnd(line, j + 1)])
  {
    match FirstEnds(line, 0)
    case None => None
    case Some((i, j)) =>
      assert IsFirstSplit(line, i, j);
      Some((line[..i], line[i + 6..j], line[j + 1..LineEnd(line, j + 1)]))
  }

  // ---------------------------------------------------------------- set scores

  /** One set token: exactly two dash-separated integers. */
  function ParseSet(token: string): Option<SetScore>
  {
    var parts := Split(token, '-');
    if |parts| != 2 then None
    else match (ParseNat(parts[0]), ParseNat(parts[1]))
      case (Some(g1), Some(g2)) => Some((g1, g2))
      case _ => None
  }

  /** The canonical text of a set: both game counts in decimal, joined by a dash. */
  function RenderSet(s: SetScore): string
  {
    NatToString(s.0) + "-" + NatToString(s.1)
  }

  lemma RenderSetIsWord(s: SetScore)
    ensures RenderSet(s) != [] && NoSpace(RenderSet(s))
  {
    var r := RenderSet(s);
    assert forall k :: 0 <= k < |r| ==> IsDigit(r[k]) || r[k] == '-';
  }

  /** The canonical score string: the rendered sets joined by single spaces. */
  function RenderSets(sets: seq<SetScore>): string
  {
    Join(RenderedSets(sets), " ")
  }

  function RenderedSets(sets: seq<SetScore>): (r: seq<string>)
    ensures |r| == |sets| && forall k :: 0 <= k < |sets| ==> r[k] == RenderSet(sets[k])
  {
    seq(|sets|, k requires 0 <= k < |sets| => RenderSet(sets[k]))
  }

  /** Every token parses as a set score, or None. */
  function ParseSets(tokens: seq<string>): (r: Option<seq<SetScore>>)
    ensures r.Some? <==> forall k :: 0 <= k < |tokens| ==> ParseSet(tokens[k]).Some?
    ensures r.Some? ==> |r.value| == |tokens|
                        && forall k :: 0 <= k < |tokens| ==> r.value[k] == ParseSet(tokens[k]).value
  {
    if forall k :: 0 <= k < |tokens| ==> ParseSet(tokens[k]).Some?
    then Some(seq(|tokens|, k requires 0 <= k < |tokens| => ParseSet(tokens[k]).value))
    else None
  }

  /** The first |sets| tokens parse to `sets`. */
  ghost predicate ParsedPrefix(tokens: seq<string>, sets: seq<SetScore>)
  {
    |sets| <= |tokens| && forall i :: 0 <= i < |sets| ==> ParseSet(tokens[i]) == Some(sets[i])
  }

  lemma ParsedPrefixStep(tokens: seq<string>, sets: seq<SetScore>)
    requires ParsedPrefix(tokens, sets) && |sets| < |tokens| && ParseSet(tokens[|sets|]).Some?
    ensures ParsedPrefix(tokens, sets + [ParseSet(tokens[|sets|]).value])
  {
  }

  lemma ParseSetsEach(tokens: seq<string>, sets: seq<SetScore>)
    requires |sets| == |tokens| && ParsedPrefix(tokens, sets)
    ensures ParseSets(tokens) == Some(sets)
  {
    assert forall i :: 0 <= i < |tokens| ==> ParseSet(tokens[i]).Some?;
    assert ParseSets(tokens).value == sets;
  }

  lemma ParseSetsFails(tokens: seq<string>, k: nat)
    requires k < |tokens| && ParseSet(tokens[k]).None?
    ensures ParseSets(tokens).None?
  {
  }

  /** Sets credited to side 1: those with g1 > g2. */
  function Sets1(sets: seq<SetScore>): nat
  {
    if sets == [] then 0
    else Sets1(sets[..|sets| - 1]) + (if sets[|sets| - 1].0 > sets[|sets| - 1].1 then 1 else 0)
  }

  /** Sets credited to side 2: every other set, ties included. */
  function Sets2(sets: seq<SetScore>): nat
  {
    if sets == [] then 0
    else Sets2(sets[..|sets| - 1]) + (if sets[|sets| - 1].0 > sets[|sets| - 1].1 then 0 else 1)
  }

  function Games1(sets: seq<SetScore>): nat
  {
    if sets == [] then 0 else Games1(sets[..|sets| - 1]) + sets[|sets| - 1].0
  }

  function Games2(sets: seq<SetScore>): nat
  {
    if sets == [] then 0 else Games2(sets[..|sets| - 1]) + sets[|sets| - 1].1
  }

  /** The report the parser produces for `line`, as a function of the line. */
  function Report(line: string): Parsed<MatchReport>
  {
    match SplitReport(line)
    case None => Err(FormatError)
    case Some((p1, p2, score)) =>
      match ParseSets(Words(score))
      case None => Err(ScoreError)
      case Some(sets) =>
        Ok(MatchReport(Strip(p1), Strip(p2), Sets1(sets), Sets2(sets), Games1(sets), Games2(sets), RenderSets(sets)))
  }

  /** The totals parse_match_result keeps while it walks the set tokens. */
  datatype Tally = Tally(p1Sets: nat, p2Sets: nat, p1Games: nat, p2Games: nat, rendered: seq<string>)

  function TallyOf(sets: seq<SetScore>): Tally
  {
    Tally(Sets1(sets), Sets2(sets), Games1(sets), Games2(sets), RenderedSets(sets))
  }

  /** The loop of parse_match_result over the whitespace-separated set tokens. */
  method TallySets(tokens: seq<string>) returns (r: Option<Tally>)
    ensures r.None? <==> ParseSets(tokens).None?
    ensures r.Some? ==> r.value == TallyOf(ParseSets(tokens).value)
  {
    var p1Sets, p2Sets, p1Games, p2Games := 0, 0, 0, 0;
    var rendered: seq<string> := [];
    ghost var sets: seq<SetScore> := [];
    var k := 0;
    while k < |tokens|
      invariant 0 <= k <= |tokens|
      invariant |sets| == k && ParsedPrefix(tokens, sets)
      invariant p1Sets == Sets1(sets) && p2Sets == Sets2(sets) && p1Games == Games1(sets) && p2Games == Games2(sets)
      invariant rendered == RenderedSets(sets)
    {
      var one := ParseSet(tokens[k]);
      if one.None? {
        ParseSetsFails(tokens, k);
        return None;
      }
      var g1, g2 := one.value.0, one.value.1;
      rendered := rendered + [RenderSet((g1, g2))];
      if g1 > g2 {
        p1Sets := p1Sets + 1;
      } else {
        p2Sets := p2Sets + 1;
      }
      p1Games := p1Games + g1;
      p2Games := p2Games + g2;
      SetCredit(sets, g1, g2);
      assert RenderedSets(sets + [(g1, g2)]) == RenderedSets(sets) + [RenderSet((g1, g2))];
      ParsedPrefixStep(tokens, sets);
      sets := sets + [(g1, g2)];
      k := k + 1;
    }
    assert |sets| == |tokens|;
    ParseSetsEach(tokens, sets);
    r := Some(Tally(p1Sets, p2Sets, p1Games, p2Games, rendered));
  }

  /** parse_match_result: split the line, then tally the set tokens. */
  method ParseMatchResult(line: string) returns (r: Parsed<MatchReport>)
    ensures r == Report(line)
  {
    var groups := SplitReport(line);
    if groups.None? {
      return Err(FormatError);
    }
    var (p1, p2, score) := groups.value;
    var tally := TallySets(Words(score));
    if tally.None? {
      return Err(ScoreError);
    }
    var t := tally.value;
    r := Ok(MatchReport(Strip(p1), Strip(p2), t.p1Sets, t.p2Sets, t.p1Games, t.p2Games, Join(t.rendered, " ")));
  }

  // ---------------------------------------------------------------- properties

  /** Every set is credited to exactly one side. */
  lemma {:induction false} SetsPartition(sets: seq<SetScore>)
    ensures Sets1(sets) + Sets2(sets) == |sets|
  {
    if sets != [] { SetsPartition(sets[..|sets| - 1]); }
  }

  /** A set goes to side 1 exactly when g1 > g2; a tied set goes to side 2. */
  lemma SetCredit(sets: seq<SetScore>, g1: nat, g2: nat)
    ensures Sets1(sets + [(g1, g2)]) == Sets1(sets) + (if g1 > g2 then 1 else 0)
    ensures Sets2(sets + [(g1, g2)]) == Sets2(sets) + (if g1 > g2 then 0 else 1)
    ensures Games1(sets + [(g1, g2)]) == Games1(sets) + g1
    ensures Games2(sets + [(g1, g2)]) == Games2(sets) + g2
  {
    assert (sets + [(g1, g2)])[..|sets|] == sets;
  }

  /** The rendered form of one set parses back to that set. */
  lemma ParseRenderSet(s: SetScore)
    ensures ParseSet(RenderSet(s)) == Some(s)
  {
    var a, b := NatToString(s.0), NatToString(s.1);
    assert '-' !in a by { assert forall k :: 0 <= k < |a| ==> IsDigit(a[k]); }
    assert '-' !in b by { assert forall k :: 0 <= k < |b| ==> IsDigit(b[k]); }
    SplitAtFirst(a, b, '-');
    SplitNoSep(b, '-');
    assert RenderSet(s) == a + ['-'] + b;
    ParseNatOfString(s.0);
    ParseNatOfString(s.1);
  }

  /** The canonical score string splits back into the same set scores. */
  lemma RenderSetsRoundTrip(sets: seq<SetScore>)
    ensures ParseSets(Words(RenderSets(sets))) == Some(sets)
  {
    var rs := RenderedSets(sets);
    forall k | 0 <= k < |rs| ensures rs[k] != [] && NoSpace(rs[k]) {
      RenderSetIsWord(sets[k]);
    }
    WordsOfJoin(rs);
    assert Words(RenderSets(sets)) == rs;
    forall k | 0 <= k < |sets| ensures ParseSet(rs[k]) == Some(sets[k]) {
      ParseRenderSet(sets[k]);
    }
    assert ParsedPrefix(rs, sets);
    ParseSetsEach(rs, sets);
  }

  /** A parsed report re-parses from its canonical score string to the same tallies. */
  lemma ReportScoresCanonical(line: string)
    ensures Report(line).Ok? ==>
      var r := Report(line).value;
      && r.p1Sets + r.p2Sets == |Words(r.setScores)|
      && ParseSets(Words(r.setScores)).Some?
      && var sets := ParseSets(Words(r.setScores)).value;
         r.p1Sets == Sets1(sets) && r.p2Sets == Sets2(sets)
         && r.p1Games == Games1(sets) && r.p2Games == Games2(sets)
  {
    if Report(line).Ok? {
      var (p1, p2, score) := SplitReport(line).value;
      var sets := ParseSets(Words(score)).value;
      RenderSetsRoundTrip(sets);
      SetsPartition(sets);
    }
  }
}
