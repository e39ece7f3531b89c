# Football league standings, verified

A Dafny model of `LeagueService`, the standings engine of a football-league dashboard. The service keeps:

- the match schedule it was given;
- a fixed team-name to country-code table.

It offers two ways to read that schedule:

- **`getMatches`** hands the schedule back with the flags of both teams added.
- **`getLeaderboard`** builds the table:
  - it walks the schedule once and registers every team named as home or away side, played or not;
  - for played matches only, it adds to both sides the match played, the goals for and against, and the match points (3/0, 0/3 or 1/1);
  - it keeps a head-to-head record per opponent;
  - it makes one row per team, with the goal difference (`gd = gf - ga`);
  - it sorts the rows by points, then the points each team took from the other, then goal difference, then goals for (all higher first), and finally by name.

## Modules

- `fixtures.dfy`, module `Fixtures`:
  - the match record;
  - the country-code table and its lookup;
  - the flag annotation `getMatches` performs.
- `tally.dfy`, module `Tally`:
  - the accumulation pass, modelled as a `Teams` value whose key order is the insertion order `Object.keys` lists;
  - `initializeTeam`, `calculateMatchPoints`, `updateTeamStats` and `updateHeadToHeadStats`;
  - the fold the `forEach` loop computes;
  - an independent reference definition of every team's statistics as sums over the match list, with a proof that the loop's dictionary equals it.
- `ranking.dfy`, module `Ranking`:
  - the leaderboard row;
  - the comparator and its meaning as a ranking rule;
  - `sortLeaderboard` as an in-place insertion sort on an `array`, proved to permute the rows and to leave every row at least as high as the next.
- `aggregates.dfy`, module `Aggregates`:
  - conservation laws over all teams: goals scored equal goals conceded, two appearances per played match, points handed out per match;
  - a team's totals are the sums of its head-to-head records, and records mirror each other;
  - unplayed fixtures count for nothing;
  - a team's matches-played count equals its appearances;
  - every team's accumulator is the same for the schedule in any order.
- `league.dfy`, module `League`:
  - the `LeagueService` class with its `matches` field, `SetMatches`, `GetMatches` and `GetLeaderboard`;
  - the `GetLeaderboard` loop is proved to compute the fold, and its result is proved to be a leaderboard (`IsLeaderboard`);
  - the consequences of that promise, stated on the rows;
  - the leaderboards of a schedule do not depend on the order of its matches.
- `scenarios.dfy`, module `Scenarios`: the schedules of the repository's test suite (`tests/leaderboard.test.ts`), each with the leaderboard it must produce. There is also a three-team cycle: it shows that the comparator is not a strict order, so the ranking is not always unique.

## Model

| member | source | states |
|---|---|---|
| Fixtures.FlagCode | src/app/services/league.service.ts:247-250 | a name has a country code exactly when the table maps it, and the code is the table's |
| Fixtures.FlagCodeTable | src/app/services/league.service.ts:12-17 | exactly Brazil, Cameroon, Switzerland and Serbia have a code, and no two teams share one |
| Fixtures.Annotate | src/app/services/league.service.ts:58-62 | same length and order; every match kept field for field; each gets the flag codes of its home and away team |
| Fixtures.AnnotateRoundTrip | src/app/services/league.service.ts:57-63 | stripping the added flag fields gives back the stored schedule |
| Tally.CalculateMatchPoints | src/app/services/league.service.ts:188-199 | (3,0) exactly for a home win, (0,3) exactly for an away win, (1,1) exactly for a draw; the two add up to 3 for a decided match and 2 for a draw |
| Tally.InitializeTeam | src/app/services/league.service.ts:176-186 | the keys grow by the name and nothing else; entries already there are untouched; a new name gets the all-zero accumulator and is appended to the key order, a known name leaves the dictionary as it is; the key order keeps listing every key once |
| Tally.InitializeTeamAsWritten | src/app/services/league.service.ts:177 | the guard as written: a name inherited from `Object.prototype` is treated as registered and left out; every other name behaves as `InitializeTeam` |
| Tally.InheritedNameNotRegistered | src/app/services/league.service.ts:176-186 | a team called "constructor" gets no entry from the guard as written and an entry from the corrected one |
| Tally.UpdateTeamStats | src/app/services/league.service.ts:201-211 | one more match played; goals for, goals against and points increase by the given amounts; the head-to-head map is unchanged |
| Tally.Lookup | src/app/services/league.service.ts:220-222 | the record against an opponent, an all-zero one when there is none; `Tally.ReferenceLookup` states that it is the reference sum for every name, met or not |
| Tally.UpdateHeadToHeadStats | src/app/services/league.service.ts:213-227 | the record against the opponent is created as zeros on first meeting and then increased by the match; the other records and the totals are unchanged |
| Tally.UnnamedTeamIsNew | src/app/services/league.service.ts:84-86 | a team no match names has the all-zero reference accumulator |
| Tally.ReferenceLookup | src/app/services/league.service.ts:220-226 | the record against any name, met or not, is the reference sum over the matches |
| Tally.ReferenceExtends | src/app/services/league.service.ts:84-123 | the reference for one more match is the reference accrued with that match's contribution |
| Tally.OutsiderGetsNothing | src/app/services/league.service.ts:94-121 | a match gives nothing to a team that does not play in it |
| Tally.Step | src/app/services/league.service.ts:85-121 | one iteration of the `forEach` body; `Tally.StepPlayed` states that a played match adds exactly its contribution to every team, and `Tally.StepUnplayed` that an unplayed one only registers its teams |
| Tally.StepPlayed | src/app/services/league.service.ts:88-121 | one played iteration of the loop body adds exactly that match's contribution to every team, including a team drawn against itself |
| Tally.TallyOf | src/app/services/league.service.ts:84-122 | the dictionary after the `forEach` loop; `Tally.TallyKeys`, `Tally.TallyOrder` and `Tally.TallyMatchesReference` state its keys, their order and every accumulator |
| Tally.TallyKeys | src/app/services/league.service.ts:84-86 | the loop's dictionary lists each key once, and its keys are exactly the teams some match names |
| Tally.TallyOrder | src/app/services/league.service.ts:84-86 | the dictionary lists its keys in the order their teams are first named by the schedule, home side before away side, match by match |
| Tally.TallyMatchesReference | src/app/services/league.service.ts:84-123 | after the loop, every team's accumulator equals the reference sums over the played matches |
| Ranking.ToRow | src/app/services/league.service.ts:126-131 | the row carries the name, its flag code, the accumulator field for field, and `gd == gf - ga` |
| Ranking.BuildRows | src/app/services/league.service.ts:126-131 | one row per key of the dictionary, in key order |
| Ranking.NameCompare | src/app/services/league.service.ts:243 | the name comparison, -1, 0 or 1; `Ranking.NameCompareMeansBefore`, `Ranking.NameCompareZero` and `Ranking.NameCompareAntisymmetric` state what it means |
| Ranking.NameCompareMeansBefore | src/app/services/league.service.ts:243 | the name comparison is negative exactly when the first name comes before the second in lexicographic order |
| Ranking.NameCompareZero | src/app/services/league.service.ts:243 | the name comparison is zero only for equal names |
| Ranking.NameCompareAntisymmetric | src/app/services/league.service.ts:243 | swapping the names negates the comparison |
| Ranking.H2HPoints | src/app/services/league.service.ts:233-234 | the points a row's team took from an opponent, zero when they never met (through `Tally.Lookup`) |
| Ranking.Compare | src/app/services/league.service.ts:230-244 | the comparator passed to `sort`; `Ranking.CompareMeaning`, `Ranking.CompareAntisymmetric` and `Ranking.CompareTotal` state what it decides |
| Ranking.CompareMeaning | src/app/services/league.service.ts:229-245 | the comparator puts `a` first exactly when the first criterion on which the rows differ (points, head-to-head points with a missing record as 0, goal difference, goals for, name) favours `a`; it returns zero only when the rows agree on every criterion, name included |
| Ranking.CompareAntisymmetric | src/app/services/league.service.ts:230-244 | `Compare(a, b) == -Compare(b, a)` |
| Ranking.CompareTotal | src/app/services/league.service.ts:230-244 | rows of different teams never compare level: exactly one of the two ranks above the other |
| Ranking.OrderedIsStrict | src/app/services/league.service.ts:229-245 | sorted rows of different teams rank each strictly above the next |
| Ranking.OrderedEverywhere | src/app/services/league.service.ts:229-245 | where the comparator happens to be transitive on the rows, sorted order holds between every pair, not only neighbours |
| Ranking.SortLeaderboard | src/app/services/league.service.ts:229-245 | sorts the array in place: the result is a permutation of the rows and each row is at least as high as the next |
| Ranking.InsertRow | src/app/services/league.service.ts:230 | one insertion step extends the sorted prefix by one row, permutes the array and leaves the rows after the inserted one untouched |
| Aggregates.ContributionShares | src/app/services/league.service.ts:94-105 | a team's gain from a match is the home side's share if it played at home plus the away side's share if it played away |
| Aggregates.RecordShares | src/app/services/league.service.ts:108-121 | a team's record against an opponent gains the share of each side it played on against that opponent |
| Aggregates.MatchTotalBalance | src/app/services/league.service.ts:88-105 | over the whole schedule: two appearances per played match, as many goals conceded as scored, three points per decided match and two per draw |
| Aggregates.SumTotalsIsMatchTotal | src/app/services/league.service.ts:94-105 | adding up one statistic over all teams, each once, gives the match total |
| Aggregates.GoalsConserved | src/app/services/league.service.ts:94-105 | the goals scored by all teams equal the goals conceded by all teams; appearances and points add up as the matches hand them out |
| Aggregates.HeadToHeadMirror | src/app/services/league.service.ts:108-121 | what a team scored against an opponent is what that opponent conceded against it, and the other way round |
| Aggregates.OpponentsSymmetric | src/app/services/league.service.ts:108-121 | a team has met an opponent exactly when the opponent has met it |
| Aggregates.HeadToHeadSums | src/app/services/league.service.ts:94-121 | a team's points, goals for and goals against are the sums of its head-to-head records over all teams |
| Aggregates.UnplayedIgnored | src/app/services/league.service.ts:88 | dropping the unplayed fixtures leaves every team's accumulator as it is |
| Aggregates.OnlyUnplayedIsNew | src/app/services/league.service.ts:84-88 | a team whose fixtures are all unplayed has the all-zero accumulator |
| Aggregates.RemoveTotals | src/app/services/league.service.ts:94-105 | taking any one match out of the schedule takes exactly its contribution out of every team's totals |
| Aggregates.RemoveRecord | src/app/services/league.service.ts:108-121 | taking any one match out of the schedule takes exactly its contribution out of every head-to-head record |
| Aggregates.ReorderedSums | src/app/services/league.service.ts:84-121 | two schedules with the same matches in any order give every team the same totals, records and opponents, and name the same teams |
| Aggregates.ReorderedReference | src/app/services/league.service.ts:84-121 | reordering the schedule leaves every team's reference accumulator as it is |
| Aggregates.MatchesPlayedCount | src/app/services/league.service.ts:207 | with no team drawn against itself, a team's matches-played count is the number of played fixtures it appears in |
| League.ReferenceRow | src/app/services/league.service.ts:126-131 | the reference row of a team carries its name and `gd == gf - ga` |
| League.LeagueService.constructor | src/app/services/league.service.ts:8 | a new service holds an empty schedule |
| League.LeagueService.SetMatches | src/app/services/league.service.ts:48-50 | the stored schedule becomes the given one |
| League.LeagueService.GetMatches | src/app/services/league.service.ts:57-63 | the stored schedule in order, each match kept and given its two flag codes; stripping the flags gives the schedule back |
| League.LeagueService.GetLeaderboard | src/app/services/league.service.ts:80-135 | the result is a leaderboard of the stored schedule: one row per named team and no other, no team twice, every row the reference statistics of its team, and every row strictly ranked above the next by the comparator |
| League.Rank | src/app/services/league.service.ts:134 | sorting a fresh array of the rows yields a permutation of them in comparator order |
| League.TallyPrefix | src/app/services/league.service.ts:84 | one more match is one more iteration of the loop body |
| League.TallyRows | src/app/services/league.service.ts:84-131 | the rows in dictionary key order are standings of the schedule |
| League.StandingsReordered | src/app/services/league.service.ts:134 | standings stay standings under any permutation of the rows |
| League.StandingsSize | src/app/services/league.service.ts:126-131 | there are exactly as many rows as teams named in the schedule |
| League.StandingsEmpty | src/app/services/league.service.ts:80-135 | an empty schedule has no rows |
| League.StandingsNames | src/app/services/league.service.ts:84-86 | the row names list each named team exactly once and no other |
| League.StandingsColumn | src/app/services/league.service.ts:126-131 | each row's statistic is the reference total of its team |
| League.StandingsBalance | src/app/services/league.service.ts:94-105 | over the leaderboard, goals for add up to goals against; appearances are two per played match; points are two per played match plus one per decided match |
| League.StandingsHeadToHead | src/app/services/league.service.ts:94-121 | a row's goals for, goals against and points are the sums of its head-to-head records against all teams on the leaderboard |
| League.StandingsMirror | src/app/services/league.service.ts:108-121 | two rows' records against each other mirror: what one scored the other conceded |
| League.StandingsOnlyUnplayed | src/app/services/league.service.ts:88 | a team with only unplayed fixtures has an all-zero row and no head-to-head records |
| League.StandingsMatchesPlayed | src/app/services/league.service.ts:207 | with no team drawn against itself, `mp` counts the played fixtures the team appears in |
| League.ReorderedRows | src/app/services/league.service.ts:84-131 | reordering the schedule changes neither the named teams nor any team's reference row |
| League.LeaderboardReordered | src/app/services/league.service.ts:80-135 | the schedule in any order has exactly the same leaderboards |
| League.ReorderedDetermined | src/app/services/league.service.ts:80-135 | when a leaderboard ranks every row strictly above all later rows, the schedule in any other order has that leaderboard and no other |
| League.PlaceInRanking | src/app/services/league.service.ts:229-245 | in a strict ranking, of two rows the one ranked above comes first |
| League.RankingDetermined | src/app/services/league.service.ts:229-245 | rows of different teams, each ranked above the next and holding exactly the rows of a strict ranking, are that ranking |
| League.StandingsDetermined | src/app/services/league.service.ts:229-245 | when the teams' reference rows rank strictly one above another in some order, every leaderboard lists them in that order |
| Scenarios.RowValues | src/app/services/league.service.ts:126-131 | a row's statistics and head-to-head points are the sums of the matches' shares |
| Scenarios.OneFixture | src/app/services/league.service.ts:80-135 | one fixture between different teams gives two rows, the side ranking above the other first |
| Scenarios.Win | tests/leaderboard.test.ts:66-84 | the winner of a single match is first, with 3 points to 0, its goals as scored, gd as the difference and both flag codes |
| Scenarios.Draw | tests/leaderboard.test.ts:86-104 | a draw gives each side one point, and the name decides the order |
| Scenarios.Unplayed | tests/leaderboard.test.ts:380-412 | an unplayed fixture lists both teams with all-zero rows and no records, in name order |
| Scenarios.GoalDifferenceDecides | tests/leaderboard.test.ts:282-319 | with points and head-to-head level, the better goal difference ranks first |
| Scenarios.GoalsScoredDecides | tests/leaderboard.test.ts:321-349 | with points, head-to-head and goal difference level, more goals scored ranks first |
| Scenarios.HeadToHeadPairDecides | tests/leaderboard.test.ts:108-180 | two teams on six points are ordered by their meeting; the records hold 3-0 and 3 points, and 0-3 and 0 points |
| Scenarios.HeadToHeadTrioDecides | tests/leaderboard.test.ts:182-280 | three teams on six points are ordered by their pairwise meetings, with the head-to-head points the suite checks |
| Scenarios.CycleNotDetermined | src/app/services/league.service.ts:233-238 | in a cycle of one-goal wins each team ranks above the next round the cycle, and two different orders of the rows are both leaderboards |
| Scenarios.BrazilBeatsFrance | tests/leaderboard.test.ts:39-63 | Brazil 2-1 France: Brazil first with 1 played, 2-1, gd 1, 3 points and code BR; France second with no code |
| Scenarios.HighScoring | tests/leaderboard.test.ts:414-434 | a 10-9 win: the winner first with 10 for, 9 against, gd 1 |
| Scenarios.Alphabetical | tests/leaderboard.test.ts:351-371 | Brazil 1-1 Argentina: level on everything, Argentina first by name |
| Scenarios.NotYetPlayed | tests/leaderboard.test.ts:380-412 | an unplayed TeamA v TeamB gives two all-zero rows, TeamA first |
| Scenarios.NoMatches | tests/leaderboard.test.ts:374-378 | an empty schedule gives an empty leaderboard |
| Scenarios.SetAndGet | tests/leaderboard.test.ts:18-37 | a fresh service given Brazil v France hands back one match with codes BR and none |
| Scenarios.BasicStats | tests/leaderboard.test.ts:39-63 | a fresh service given a 2-1 home win ranks the home side first with 1, 2, 1, 3 points, gd 1 and the right flag codes |
| Scenarios.Replace | src/app/services/league.service.ts:48-50 | setting a new schedule replaces the old one |

## Left out

- `fetchData` and `getAccessToken` (src/app/services/league.service.ts:140-174) are left out. They are asynchronous HTTP and token exchange, with nothing to compute.
- The Angular components, modules and routing are left out. They are UI wiring.
- `Fixtures.FlagCode` yields the country code as an `Option` rather than the flag address string. An unmapped name, which makes the source interpolate `undefined` into the address, is `None`. A name inherited from `Object.prototype` ("constructor", "toString", ...) is `None` too, although `countryCodes[teamName]` is then the inherited function and the source interpolates its text.
- `Ranking.NameCompareMeansBefore` models `localeCompare` as plain lexicographic order on characters. Locale collation (case, accents) is not modelled.
- `Ranking.SortLeaderboard` is an insertion sort, not the JavaScript engine's `Array.prototype.sort`. It promises a permutation of the rows in which each row is at least as high as the next. On a consistent comparator any correct sort gives this. Under a head-to-head cycle the comparator is not consistent (`Scenarios.CycleNotDetermined`), and ECMAScript then leaves the order `Array.prototype.sort` produces implementation-defined. That order need not rank each row at least as high as the next: a heap sort, for one, can leave two neighbours inverted. There, `GetLeaderboard`'s neighbour promise describes this insertion sort, not the source.
- `League.LeagueService.GetLeaderboard` does not promise a unique order. The head-to-head step compares pairs only, so the comparator is not transitive: in a three-team cycle, more than one order satisfies it (`Scenarios.CycleNotDetermined`). The result is stated as "a leaderboard" rather than as one particular permutation of the rows in key order. With a cycle, the source's own output need not be a leaderboard at all (previous line). When the rows are strictly ranked, the order is fixed (`League.StandingsDetermined`), and so it is the same for the schedule in any order (`League.ReorderedDetermined`).
- `League.LeaderboardReordered` proves that the leaderboard promise does not depend on the order of the schedule, not that the source's output does. Under a head-to-head cycle the source's output depends on the sort's input order: among the admissible orders when the engine's sort keeps neighbours ordered, as insertion and merge sorts do, and in an implementation-defined way otherwise. That input is in `Object.keys` order, which is the order teams are first named (`Tally.TallyOrder`), so there the source's output can follow the order of the matches.
- Records are values. The source mutates each team's record in place (`team.mp += 1`, `headToHead[opponent].points += ...`). The model replaces the record in the dictionary, because every record is reached only through its key and no aliasing can be observed.
- `Tally.TallyOrder` states pure insertion order. `Object.keys` lists integer-like keys ("1", "42") first, in numeric order, and then the other keys in insertion order. The order only matters to the sort's input, which the leaderboard promise does not depend on.
- Scores are unbounded integers. JavaScript numbers are doubles, and their rounding above 2^53 is not modelled. The scores of an unplayed fixture are never read, so the model gives them any integer in place of `null`/absent.
- `Aggregates.MatchesPlayedCount` requires that no team is drawn against itself. A self-match counts twice in `mp` in the source, and the model computes that too, but this lemma does not cover it.
- `Tally.InitializeTeamAsWritten` is not used by the loop, which models the corrected behaviour only. What the as-written code does after skipping an inherited name is not modelled. For an unplayed fixture, that team silently gets no row. For a played fixture, `teams[name]` is the inherited member (for "constructor", the `Object` function). `updateTeamStats` (lines 201-211) sets its `mp`, `gf`, `ga` and `points` to `NaN`. Then `updateHeadToHeadStats` reads `team.headToHead[opponent]` with `team.headToHead` undefined (line 220) and throws a `TypeError`, so `getLeaderboard` throws.
- `Tally.UpdateHeadToHeadStats` models the record guard at line 220 (`!team.headToHead[opponent]`) as a plain key test. An opponent named after an `Object.prototype` member would read as already met, but such an opponent is itself a team of the same played fixture, so `getLeaderboard` throws during that fixture anyway (previous line). The model does not reproduce the writes to the inherited member that happen before the throw.
- `League.LeagueService.SetMatches` stores the schedule as a value. The source stores the caller's array by reference (line 49), so a caller who later mutates that array changes what `getMatches` and `getLeaderboard` see. That aliasing is not modelled.
- `Scenarios.BasicStats` takes the two team names as parameters rather than the literal suite names. `Scenarios.BrazilBeatsFrance` states the suite's literal case.

## Findings

| source | as written | input that shows it | evidently intended | confidence | as-written member | corrected member |
|---|---|---|---|---|---|---|
| src/app/services/league.service.ts:177 | `initializeTeam` tests `!teams[teamName]` on a plain object, so a name inherited from `Object.prototype` reads as already registered. An unplayed fixture then gives that team no row. A played one sets the inherited member's `mp`, `gf`, `ga` and `points` to `NaN` and then throws a `TypeError` at line 220, because `team.headToHead` is undefined, so `getLeaderboard` throws | a match whose home team is named "constructor" (or "toString", "valueOf", ...) | every team named by a match gets its own zeroed entry and a row | not executed | Tally.InitializeTeamAsWritten (shown by Tally.InheritedNameNotRegistered) | Tally.InitializeTeam (used by the loop; Tally.TallyKeys proves every named team is registered) |
