# Team tennis tournament: category logic

This project models the core of a team tennis tournament manager: what
happens to one *category* (for example "Men's A") as teams register, results
are typed in, the group stage is scored, a knockout bracket is seeded and the
knockout rounds advance to a champion. All of it lives in `tournament_logic.py`.

A category is a record that the commands change in place. It is modelled as
the class `TournamentLogic.Category`. Its fields are:

- `teams`: the team table, keyed by team name;
- `teamOrder`: the dict's insertion order, which decides who wins a lookup and how ties are kept when sorting;
- `matches` and `results`: the individual group matches and the decided best-of-three team confrontations;
- `knockout`, `koMatches` and `champion`: the knockout rounds, the individual knockout matches and the champion.

The set of categories is the class `TournamentLogic.Tournament`, with a map from category name to category.

Each command is a method whose `ensures` gives the whole new state as a
function of the old one. That function is defined once in the module that owns
the concept:

- `ResultParser` reads a result line such as `Alice def. Bob 6-4 3-6 7-5`.
  - It follows the regular expression `(.+?) def\. (.+?) (.+)` exactly: the lazy groups take the leftmost split, `.` does not cross a newline, and the score ends at the first newline.
  - It follows Python's `int` on each `g1-g2` token: an optional `+`, and `_` allowed between digits. CPython's limit on the number of digits is not modelled (see "## Left out").
- `Model` covers:
  - the team record and how a player list is normalised;
  - `identify_team`: the first team, in insertion order, that has every `/`-separated player;
  - filtering matches by unordered pair;
  - the tally maximum used for winners, in which ties go to the key counted first, as with `max` over a `defaultdict`.
- `GroupStage` covers the counter updates of a group match, and when and how a confrontation is decided.
- `Knockout` covers:
  - the provisional and final winner of a matchup;
  - the pairing of the next round;
  - the first-round seeding. The loops of the seeding are kept as a method.
- `Ranking` covers:
  - the ranking key of the standings and of the bracket;
  - a stable insertion sort that stands for Python's stable `sorted(..., reverse=True)`;
  - the group-wise selection of qualifiers.
- `Text` models the Python string operations the code relies on:
  - `str.strip`, `str.split` and `str.split(sep)`;
  - `lower` and `upper`;
  - `int` on digit strings;
  - the decimal rendering in f-strings;
  - lexicographic comparison of strings.

Some conventions of `tournament_logic.py` are kept exactly:

- The bracket's BYE marker is the string `"BYE"`, so a `("BYE", "BYE")` matchup produces the winner `"BYE"`, as `_get_ko_final_winner` does.
- Python truthiness (`if not t1`, `if winner:`) treats an empty team name as missing.
- The exceptions and message strings that commands return become an `Outcome` value: `Done(...)` or `Failed(reason)`. The error cases are checked in the order the Python functions check them.
- When a command fails, the category is left unchanged.

## Model

| member | source | states |
|---|---|---|
| Text.JoinSplit | tournament_logic.py:65 | splitting on a separator and joining back gives the text back |
| Text.SplitCount | tournament_logic.py:54 | `split(sep)` gives one more piece than there are separators |
| Text.LowerStripNormal | tournament_logic.py:54 | a stripped, lower-cased name is unchanged by stripping or lower-casing it again |
| Text.WordsOfJoin | tournament_logic.py:64 | whitespace-splitting space-joined words that have no whitespace gives the words back |
| Text.ParseNatOfString | tournament_logic.py:65 | `int` of the decimal rendering of a number gives the number back |
| Text.LexLessTotal | tournament_logic.py:187 | two different strings are ordered one way or the other |
| Text.LexLessTransitive | tournament_logic.py:187 | string order is transitive |
| ResultParser.SplitReport | tournament_logic.py:60-61 | None exactly when no split into `p1 def. p2 score` exists; otherwise the three groups of the first split in regex order |
| ResultParser.TallySets | tournament_logic.py:63-68 | the counting loop fails exactly when a token is not `int-int`; otherwise it gives the set counts, game sums and canonical set list of the tokens |
| ResultParser.ParseMatchResult | tournament_logic.py:59-69 | the parse method gives the result of the line's specification, error paths included |
| ResultParser.SetsPartition | tournament_logic.py:66-67 | sets won by side 1 plus sets won by side 2 equals the number of set tokens |
| ResultParser.ParseRenderSet | tournament_logic.py:65 | parsing the rendering `g1-g2` of a set gives the set back |
| ResultParser.RenderSetsRoundTrip | tournament_logic.py:64-69 | parsing the canonical score string gives back the sets it was made from |
| ResultParser.ReportScoresCanonical | tournament_logic.py:59-69 | a parsed report's score string reparses to the same sets, so its counts and sums agree with it |
| Model.PlayerNames | tournament_logic.py:54 | one name per comma-separated part, so one more name than there are commas; every name is normalised: stripping or lower-casing it again changes nothing |
| Model.NewTeam | tournament_logic.py:55 | a new team's group is the given group upper-cased; player k is comma-separated part k, stripped and lower-cased, one per part; every counter is zero |
| Model.ReportedNames | tournament_logic.py:73 | one name per `/`-separated part, so one more than there are slashes; every name is normalised like a roster name, so it can equal a stored player |
| Model.IdentifyTeam | tournament_logic.py:72-76 | the first team in insertion order whose players include every reported name; None exactly when no team does |
| Model.SamePairIsSetEquality | tournament_logic.py:90 | the pair test holds exactly when the two-element sets are equal |
| Model.BetweenSymmetric | tournament_logic.py:90 | the matches between a and b are those between b and a |
| Model.MaxTally | tournament_logic.py:93-94 | the result is one of the winners; no winner has a larger count; any winner with an equal count first appears no earlier than the result |
| Model.MajorityOfThree | tournament_logic.py:93-94 | among three wins shared by two teams, the tally maximum has two or three of them |
| Model.CountTwo | tournament_logic.py:115-117 | when every win belongs to one of two teams, their win counts add up to the number of wins |
| Model.WinnersBetween | tournament_logic.py:124-127 | when every winner played in its match, the winners between a and b are a or b |
| GroupStage.CreditEffect | tournament_logic.py:84-89 | the winner is team1 exactly when s1 > s2; the winner gains one individual win and the loser none; both sides add their sets and games symmetrically; no other team changes |
| GroupStage.CreditBalanced | tournament_logic.py:86-89 | summed over the roster, sets won and sets lost each grow by s1 + s2, games won and games lost each by g1 + g2, and individual wins by one, so the won/lost balance is kept |
| GroupStage.SettleEffect | tournament_logic.py:95-96 | both teams play one more confrontation; only the winner wins one more; no other team changes |
| GroupStage.DecideMajority | tournament_logic.py:92-97 | the confrontation is between the two teams; its winner has k ≥ 2 of the first three wins; its score is `k-(3-k)` |
| GroupStage.AppendKeepsDecided | tournament_logic.py:90-93 | adding a match does not change any recorded confrontation's decision, which uses only the first three |
| GroupStage.StepAppends | tournament_logic.py:92-97 | recording a new pair keeps every confrontation decided by its first three matches and keeps one per pair |
| GroupStage.StepSettles | tournament_logic.py:90-97 | after recording, every pair of different teams with three or more matches has a confrontation |
| GroupStage.RecordKeepsSound | tournament_logic.py:85-97 | recording a match keeps the confrontation invariant: one per pair, each decided by its first three matches, and one for every pair with three or more |
| GroupStage.WithoutTeamMatches | tournament_logic.py:47 | no kept match involves the deleted team, and every kept match was there before |
| GroupStage.WithoutTeamResults | tournament_logic.py:48 | a confrontation is kept exactly when the deleted team is not in it |
| GroupStage.BetweenWithout | tournament_logic.py:47 | deleting a team leaves the matches between two other teams unchanged |
| GroupStage.BetweenWithoutSelf | tournament_logic.py:47 | no match with the deleted team remains |
| GroupStage.DeleteKeepsDecided | tournament_logic.py:46-48 | after the cascade every remaining confrontation is still the decision of its first three matches |
| GroupStage.DeleteKeepsSettled | tournament_logic.py:46-48 | after the cascade every remaining confrontation still has three matches |
| GroupStage.DeleteKeepsSound | tournament_logic.py:46-48 | the cascade keeps the confrontation invariant |
| GroupStage.WithoutResultsDistinct | tournament_logic.py:48 | the cascade keeps one confrontation per pair |
| GroupStage.TotalUpdate | tournament_logic.py:86-89 | replacing one team changes a roster total by that team's difference |
| Knockout.FinalWinnerRule | tournament_logic.py:121-128 | a BYE side loses; otherwise no winner before three matches between the pair, then one of the two with at least the other's win count |
| Knockout.FinalAgreesWithProvisional | tournament_logic.py:110-128 | after exactly three matches between two teams, the final and the provisional winner agree |
| Knockout.ProvisionalWinnerWonTwice | tournament_logic.py:116-117 | a provisional winner against a real team is one of the two and has won at least two matches |
| Knockout.RoundWinners | tournament_logic.py:134-138 | the round's winners exist exactly when every matchup has a named final winner, in matchup order |
| Knockout.NextRound | tournament_logic.py:142 | a non-empty list of winners gives a non-empty next round, which is smaller whenever there were two or more |
| Knockout.NextRoundFlattens | tournament_logic.py:142 | reading the next round left to right gives the winners in order, plus one BYE when their number is odd |
| Knockout.SeedBracket | tournament_logic.py:197-209 | the padding and pairing loops give seed i against the i-th seed from the end of the BYE-padded list |
| Knockout.SeedingPlacesEveryone | tournament_logic.py:197-209 | in an even bracket with room for all, every qualifier is placed, the top seeds meet the BYEs, and seed i meets seed size-1-i |
| Knockout.SeedingDropsMiddle | tournament_logic.py:204-209 | with more qualifiers than the bracket holds, the top half and the lowest-ranked are paired and the middle is dropped |
| Ranking.KeyBeforeTransitive | tournament_logic.py:107 | the standings order is transitive |
| Ranking.KeyBeforeTotal | tournament_logic.py:107 | two keys neither of which comes first are equal |
| Ranking.SortSorts | tournament_logic.py:189 | the sort's output is ordered by the key |
| Ranking.SortPermutes | tournament_logic.py:195 | the sort's output is a permutation of its input |
| Ranking.SortStable | tournament_logic.py:195 | entries with equal keys keep their input order, as Python's `sorted` does |
| Ranking.Entries | tournament_logic.py:184 | one entry per team in insertion order, each carrying that team's record; when the order has no repeats and lists every team, the entries' names are distinct and are exactly the registered teams |
| Ranking.StandingsOrdered | tournament_logic.py:102-107 | the standings are a permutation of the teams; groups ascend; within a group more confrontation wins, then more individual wins, then a larger set difference, then a larger game difference come first |
| Ranking.GroupsOf | tournament_logic.py:183-185 | each group appears once, and exactly the groups of the teams appear |
| Ranking.Members | tournament_logic.py:185 | the members of a group are exactly the teams with that group, kept in the order of the given entries (registration order) |
| Ranking.Take | tournament_logic.py:191 | Python's `s[:n]`: a prefix, of length n, or counted from the end when n is negative, clipped to the list |
| Ranking.GroupOrder | tournament_logic.py:187 | the groups are visited in strictly ascending name order, each group of a team exactly once |
| Ranking.QualifiersDominate | tournament_logic.py:189-191 | the qualifiers of a group are a prefix of its ranking, and none ranks below a team left out |
| Ranking.SeedsRanked | tournament_logic.py:187-198 | the seeds are the qualifiers' names re-sorted by rank: a permutation, with no rank inversion, and ties in group order |
| TournamentLogic.Without | tournament_logic.py:46 | the insertion order without the popped key keeps every other name in its order and stays free of repeats |
| TournamentLogic.GroupEntry | tournament_logic.py:80-83 | a group entry that passes the checks names two different registered teams |
| TournamentLogic.GroupEntryIdentifies | tournament_logic.py:80-83 | a group entry that passes the checks is the parsed report and the two identified teams |
| TournamentLogic.KnockoutCapKept | tournament_logic.py:160-165 | adding a match for a pair with fewer than three keeps every pair at three knockout matches or fewer |
| TournamentLogic.CheckRoundEffect | tournament_logic.py:131-143 | without a round or with an undecided matchup nothing changes; a complete last round with one winner crowns that winner and changes nothing else, and checking again changes nothing; a complete round with several winners gets exactly one new round of ⌈n/2⌉ matchups holding the winners in order, plus a BYE when their number is odd; the champion changes, or a round is added, only in those cases |
| TournamentLogic.CheckRoundValid | tournament_logic.py:131-143 | the round check keeps the knockout invariant: winners played, at most three matches per pair, no matches without a bracket |
| TournamentLogic.RecordGroupValid | tournament_logic.py:79-99 | recording a group match keeps the roster, the confrontation invariant and the well-formedness of matches |
| TournamentLogic.RecordKeepsTeams | tournament_logic.py:84-96 | recording a group match changes counters but neither adds nor removes teams |
| TournamentLogic.RecordSettles | tournament_logic.py:85-97 | one match is appended; a confrontation is reported exactly when one is appended to the results; it is won by one of the two teams with score 2-1 or 3-0 |
| TournamentLogic.RecordWellFormed | tournament_logic.py:84-85 | appending a match between two different teams won by one of them keeps every match well formed |
| TournamentLogic.RecordOnRoster | tournament_logic.py:85-97 | recorded matches and confrontations only name registered teams |
| TournamentLogic.RosterSameKeys | tournament_logic.py:86-96 | updating counters keeps the roster and its insertion order in step |
| TournamentLogic.DeleteTeamRoster | tournament_logic.py:46 | popping a team keeps the roster and its insertion order in step |
| TournamentLogic.DeleteWellFormed | tournament_logic.py:47 | the match cascade keeps every match well formed |
| TournamentLogic.DeleteOnRoster | tournament_logic.py:46-48 | after the cascade no match or confrontation names the deleted team |
| TournamentLogic.DeleteTeamGroup | tournament_logic.py:42-50 | deleting a team and cascading keeps the group-stage invariant |
| TournamentLogic.Category.constructor | tournament_logic.py:31 | a new category is empty |
| TournamentLogic.Category.RegisterTeam | tournament_logic.py:53-56 | the team is set, or overwritten, with zero counters; a new name goes last in the order; nothing else changes |
| TournamentLogic.Category.DeleteTeam | tournament_logic.py:42-50 | refused once a knockout exists; an unknown name changes nothing; otherwise the team, its matches and its confrontations go, and opponents' counters are kept |
| TournamentLogic.Category.RemoveTeam | tournament_logic.py:45-48 | the team is popped, its matches and confrontations are filtered out, the invariant is kept and the knockout is untouched |
| TournamentLogic.Category.RecordGroupMatch | tournament_logic.py:79-99 | a failed parse or identification changes nothing; otherwise the new state is the group-recording function of the old one, and the invariant is kept |
| TournamentLogic.Category.RecordGroupReport | tournament_logic.py:80-99 | the same, starting from the parse result |
| TournamentLogic.Category.ApplyGroupResult | tournament_logic.py:84-97 | the counters, matches and confrontations become the group-recording function of the old ones |
| TournamentLogic.Category.CheckAndAdvance | tournament_logic.py:131-151 | the loop over the last round gives the round check's bracket and champion; nothing else changes |
| TournamentLogic.Category.FindMatchup | tournament_logic.py:158-163 | the first matchup of the round with the same pair; None exactly when there is none |
| TournamentLogic.Category.RecordKnockoutMatch | tournament_logic.py:153-167 | parse, identification, no-bracket, no-matchup and three-match failures change nothing; otherwise one match is appended and the round check runs |
| TournamentLogic.Category.RecordKnockoutReport | tournament_logic.py:154-167 | the same, starting from the parse result |
| TournamentLogic.Category.ApplyKnockoutResult | tournament_logic.py:164-166 | the match is appended, the round check's bracket and champion are the new ones, and the cap is kept |
| TournamentLogic.Category.GenerateKnockoutBracket | tournament_logic.py:172-214 | with no teams it fails and changes nothing; otherwise the knockout is the single round seeded from the ranked qualifiers, its matches are cleared and there is no champion |
| TournamentLogic.Category.ResetKnockoutPhase | tournament_logic.py:300-302 | the knockout, its matches and the champion are cleared; the group stage is kept |
| TournamentLogic.Tournament.InitializeCategory | tournament_logic.py:29-32 | an existing category is returned unchanged; otherwise a new category with no teams, matches, confrontations, rounds, knockout matches or champion is added under that name |
| TournamentLogic.Tournament.DeleteCategory | tournament_logic.py:35-39 | the category is removed, and the result says whether it existed |

## Left out

- `load_data` and `save_data` (tournament_logic.py:17-26): JSON file I/O. A tournament starts empty.
- `generate_bracket_image` (tournament_logic.py:217-296): Graphviz drawing. Its only logic is the two winner queries, which are modelled.
- `_write_formatted_standings` and `export_category_to_excel` (tournament_logic.py:306-357): spreadsheet and image output.
- The DataFrame built by `get_standings_df` (tournament_logic.py:103-107): only the row order is modelled. The model's sort keeps teams with equal keys in registration order; pandas' `sort_values`, which `get_standings_df` uses, does not promise that order.
- Ranking.StandingsOrdered: does not state the order of rows whose group and four counters are all equal, because that order belongs to pandas' sort.
- The unused `random` import, `launch.py` and the Streamlit pages: process start-up and user interface.
- The message strings the commands return, in Spanish: the model returns `Outcome` values. `Done` carries the data the message reports, such as the confrontation or the winner, and `Failed` names the reason.
- Python's full Unicode tables:
  - `lower` and `upper` are modelled for ASCII and the one-to-one Latin-1 letters;
  - `int` is modelled for ASCII digits.
  Characters outside that range are left unchanged, or rejected as digits.
- TournamentLogic.Category.GenerateKnockoutBracket: `bracket_size` is a natural number. A negative size, which `generate_knockout_bracket` accepts, is not modelled.
- Dictionary entries missing from loaded data (the `.get(..., default)` fallbacks and `setdefault`): a category always has all its fields, so those fallbacks are the empty values the model starts with.
- Concurrency between user sessions: each command runs alone on a category.
- Text.ParseNat: accepts a decimal token of any length. CPython 3.11 and later, and the 3.7–3.10 security releases, raise `ValueError` from `int` on more than 4300 digits (the `sys.set_int_max_str_digits` limit). The limit depends on the interpreter version and its configuration.
- ResultParser.TallySets: for the same reason, a `g1-g2` token with more than 4300 digits on one side counts as a set here, where CPython would raise `ValueError`.
