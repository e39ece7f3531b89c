/** The accumulation pass of `getLeaderboard`: the `teams` dictionary, the
    helpers that fill it, the fold the `forEach` loop computes, and an
    independent reference definition of every team's statistics as sums
    over the match list. */
module Tally {
  import opened Fixtures

  /** The pair `calculateMatchPoints` returns. */
  datatype MatchPoints = MatchPoints(homePoints: int, awayPoints: int)

  /** Three points for a win, none for a loss, one each for a draw. */
  function CalculateMatchPoints(homeScore: int, awayScore: int): (r: MatchPoints)
    ensures homeScore > awayScore <==> r == MatchPoints(3, 0)
    ensures homeScore < awayScore <==> r == MatchPoints(0, 3)
    ensures homeScore == awayScore <==> r == MatchPoints(1, 1)
    ensures r.homePoints + r.awayPoints == if homeScore == awayScore then 2 else 3
  {
    if homeScore > awayScore then MatchPoints(3, 0)
    else if homeScore < awayScore then MatchPoints(0, 3)
    else MatchPoints(1, 1)
  }

  /** A head-to-head record against one opponent. */
  datatype HeadToHead = HeadToHead(gf: int, ga: int, points: int) {
    function Plus(other: HeadToHead): HeadToHead {
      HeadToHead(gf + other.gf, ga + other.ga, points + other.points)
    }
  }

  const NoMeeting := HeadToHead(0, 0, 0)

  /** A team's accumulator: matches played, goals for and against, points,
      and the head-to-head records keyed by opponent name. */
  datatype TeamStats = TeamStats(mp: int, gf: int, ga: int, points: int, headToHead: map<string, HeadToHead>)

  /** The fresh accumulator `initializeTeam` stores. */
  const NewTeam := TeamStats(0, 0, 0, 0, map[])

  /** The `teams` dictionary: its entries, and its keys in insertion order
      (the order `Object.keys` lists them in). */
  datatype Teams = Teams(order: seq<string>, stats: map<string, TeamStats>)

  const NoTeams := Teams([], map[])

  /** The key order lists every key exactly once. */
  ghost predicate WellFormed(teams: Teams) {
    && (forall i, j :: 0 <= i < j < |teams.order| ==> teams.order[i] != teams.order[j])
    && (forall k :: k in teams.stats <==> k in teams.order)
  }

  /** Registers a team with a zeroed accumulator unless it is already there. */
  function InitializeTeam(teams: Teams, teamName: string): (r: Teams)
    ensures r.stats.Keys == teams.stats.Keys + {teamName}
    ensures forall k :: k in teams.stats ==> r.stats[k] == teams.stats[k]
    ensures teamName !in teams.stats ==> r.stats[teamName] == NewTeam
    ensures teamName !in teams.stats ==> r.order == teams.order + [teamName]
    ensures teamName in teams.stats ==> r == teams
    ensures WellFormed(teams) ==> WellFormed(r)
  {
    if teamName in teams.stats then teams
    else Teams(teams.order + [teamName], teams.stats[teamName := NewTeam])
  }

  /** The names a plain object literal inherits from `Object.prototype`:
      reading `teams[name]` for one of them yields an inherited member, which
      is truthy, rather than `undefined`. */
  const InheritedKeys: set<string> := {
    "constructor", "hasOwnProperty", "isPrototypeOf", "propertyIsEnumerable",
    "toLocaleString", "toString", "valueOf", "__proto__",
    "__defineGetter__", "__defineSetter__", "__lookupGetter__", "__lookupSetter__"}

  /** `initializeTeam` as written: the guard `!teams[teamName]` treats an
      inherited name as already registered, so that team is never added. */
  function InitializeTeamAsWritten(teams: Teams, teamName: string): (r: Teams)
    ensures teamName in InheritedKeys ==> r == teams
    ensures teamName !in InheritedKeys ==> r == InitializeTeam(teams, teamName)
  {
    if teamName in teams.stats || teamName in InheritedKeys then teams
    else Teams(teams.order + [teamName], teams.stats[teamName := NewTeam])
  }

  /** A team called "constructor" is left out by the guard as written and
      registered by the corrected one. */
  lemma InheritedNameNotRegistered()
    ensures "constructor" !in InitializeTeamAsWritten(NoTeams, "constructor").stats
    ensures "constructor" in InitializeTeam(NoTeams, "constructor").stats
  {
  }

  /** Adds one played match, its goals and its points to a team's totals. */
  function UpdateTeamStats(team: TeamStats, goalsFor: int, goalsAgainst: int, points: int): (r: TeamStats)
    ensures r.mp == team.mp + 1
    ensures r.gf == team.gf + goalsFor && r.ga == team.ga + goalsAgainst
    ensures r.points == team.points + points
    ensures r.headToHead == team.headToHead
  {
    team.(mp := team.mp + 1, gf := team.gf + goalsFor, ga := team.ga + goalsAgainst, points := team.points + points)
  }

  /** The record against `opponent`, or an all-zero one if they never met. */
  function Lookup(headToHead: map<string, HeadToHead>, opponent: string): HeadToHead {
    if opponent in headToHead then headToHead[opponent] else NoMeeting
  }

  /** Adds one match to the record against `opponent`, creating it on first meeting. */
  function UpdateHeadToHeadStats(team: TeamStats, opponent: string, goalsFor: int, goalsAgainst: int, points: int): (r: TeamStats)
    ensures r.headToHead.Keys == team.headToHead.Keys + {opponent}
    ensures r.headToHead[opponent] == Lookup(team.headToHead, opponent).Plus(HeadToHead(goalsFor, goalsAgainst, points))
    ensures forall o :: o in team.headToHead && o != opponent ==> r.headToHead[o] == team.headToHead[o]
    ensures r.mp == team.mp && r.gf == team.gf && r.ga == team.ga && r.points == team.points
  {
    var record := Lookup(team.headToHead, opponent);
    team.(headToHead := team.headToHead[opponent := HeadToHead(record.gf + goalsFor, record.ga + goalsAgainst, record.points + points)])
  }

  /** One iteration of the `forEach` body: register both teams, then, for a
      played match only, add the totals and the head-to-head records of each side. */
  function Step(teams: Teams, m: Match): Teams {
    var registered := InitializeTeam(InitializeTeam(teams, m.homeTeam), m.awayTeam);
    if !m.matchPlayed then registered
    else
      var p := CalculateMatchPoints(m.homeTeamScore, m.awayTeamScore);
      var s0 := registered.stats;
      var s1 := s0[m.homeTeam := UpdateTeamStats(s0[m.homeTeam], m.homeTeamScore, m.awayTeamScore, p.homePoints)];
      var s2 := s1[m.awayTeam := UpdateTeamStats(s1[m.awayTeam], m.awayTeamScore, m.homeTeamScore, p.awayPoints)];
      var s3 := s2[m.homeTeam := UpdateHeadToHeadStats(s2[m.homeTeam], m.awayTeam, m.homeTeamScore, m.awayTeamScore, p.homePoints)];
      var s4 := s3[m.awayTeam := UpdateHeadToHeadStats(s3[m.awayTeam], m.homeTeam, m.awayTeamScore, m.homeTeamScore, p.awayPoints)];
      Teams(registered.order, s4)
  }

  /** The dictionary after the loop has seen the matches `ms`, in order. */
  function TallyOf(ms: seq<Match>): Teams
    decreases |ms|
  {
    if ms == [] then NoTeams else Step(TallyOf(ms[..|ms| - 1]), ms[|ms| - 1])
  }

  // ---------------------------------------------------------------------
  // Reference definitions: what each team's accumulator should hold,
  // stated as sums over the match list rather than as updates.

  /** Matches played, goals for, goals against and points. */
  datatype Totals = Totals(mp: int, gf: int, ga: int, points: int) {
    function Plus(other: Totals): Totals {
      Totals(mp + other.mp, gf + other.gf, ga + other.ga, points + other.points)
    }
  }

  const Zero := Totals(0, 0, 0, 0)

  /** Every name that occurs as home or away team, played or not. */
  function TeamNames(ms: seq<Match>): set<string>
    decreases |ms|
  {
    if ms == [] then {}
    else TeamNames(ms[..|ms| - 1]) + {ms[|ms| - 1].homeTeam, ms[|ms| - 1].awayTeam}
  }

  /** What one match adds to team `t`'s totals: its home side, its away side,
      both (a team drawn against itself), or nothing. */
  function Contribution(m: Match, t: string): Totals {
    if !m.matchPlayed then Zero
    else
      var p := CalculateMatchPoints(m.homeTeamScore, m.awayTeamScore);
      (if m.homeTeam == t then Totals(1, m.homeTeamScore, m.awayTeamScore, p.homePoints) else Zero)
      .Plus(if m.awayTeam == t then Totals(1, m.awayTeamScore, m.homeTeamScore, p.awayPoints) else Zero)
  }

  function TotalsOf(ms: seq<Match>, t: string): Totals
    decreases |ms|
  {
    if ms == [] then Zero else TotalsOf(ms[..|ms| - 1], t).Plus(Contribution(ms[|ms| - 1], t))
  }

  /** The opponents team `t` meets in one match, if it was played. */
  function MetIn(m: Match, t: string): set<string> {
    if !m.matchPlayed then {}
    else (if m.homeTeam == t then {m.awayTeam} else {}) + (if m.awayTeam == t then {m.homeTeam} else {})
  }

  /** Every opponent team `t` has met in a played match. */
  function Opponents(ms: seq<Match>, t: string): set<string>
    decreases |ms|
  {
    if ms == [] then {} else Opponents(ms[..|ms| - 1], t) + MetIn(ms[|ms| - 1], t)
  }

  /** What one match adds to `t`'s record against `o`. */
  function H2HContribution(m: Match, t: string, o: string): HeadToHead {
    if !m.matchPlayed then NoMeeting
    else
      var p := CalculateMatchPoints(m.homeTeamScore, m.awayTeamScore);
      (if m.homeTeam == t && m.awayTeam == o then HeadToHead(m.homeTeamScore, m.awayTeamScore, p.homePoints) else NoMeeting)
      .Plus(if m.awayTeam == t && m.homeTeam == o then HeadToHead(m.awayTeamScore, m.homeTeamScore, p.awayPoints) else NoMeeting)
  }

  function H2HOf(ms: seq<Match>, t: string, o: string): HeadToHead
    decreases |ms|
  {
    if ms == [] then NoMeeting else H2HOf(ms[..|ms| - 1], t, o).Plus(H2HContribution(ms[|ms| - 1], t, o))
  }

  /** The accumulator team `t` should have after all of `ms`. */
  function ReferenceStats(ms: seq<Match>, t: string): TeamStats {
    var s := TotalsOf(ms, t);
    TeamStats(s.mp, s.gf, s.ga, s.points, map o | o in Opponents(ms, t) :: H2HOf(ms, t, o))
  }

  // ---------------------------------------------------------------------
  // The loop computes the reference.

  /** The head-to-head map `h` after one more match `m` of team `t`. */
  ghost function AccrueRecords(h: map<string, HeadToHead>, m: Match, t: string): map<string, HeadToHead> {
    map o | o in h.Keys + MetIn(m, t) :: Lookup(h, o).Plus(H2HContribution(m, t, o))
  }

  /** An accumulator `s` updated for one more match `m`, described by what
      the match contributes rather than by the order of the updates. */
  ghost function Accrue(s: TeamStats, m: Match, t: string): TeamStats {
    var c := Contribution(m, t);
    TeamStats(s.mp + c.mp, s.gf + c.gf, s.ga + c.ga, s.points + c.points, AccrueRecords(s.headToHead, m, t))
  }

  function Get(stats: map<string, TeamStats>, t: string): TeamStats {
    if t in stats then stats[t] else NewTeam
  }

  /** A team that is never named has nothing recorded. */
  lemma {:induction false} UnnamedTeamIsEmpty(ms: seq<Match>, t: string)
    requires t !in TeamNames(ms)
    ensures TotalsOf(ms, t) == Zero && Opponents(ms, t) == {}
    decreases |ms|
  {
    if ms != [] {
      var front, m := ms[..|ms| - 1], ms[|ms| - 1];
      assert t !in TeamNames(front) && t != m.homeTeam && t != m.awayTeam;
      UnnamedTeamIsEmpty(front, t);
      assert Contribution(m, t) == Zero && MetIn(m, t) == {};
    }
  }

  /** ... so its reference accumulator is the fresh one. */
  lemma UnnamedTeamIsNew(ms: seq<Match>, t: string)
    requires t !in TeamNames(ms)
    ensures ReferenceStats(ms, t) == NewTeam
  {
    UnnamedTeamIsEmpty(ms, t);
    assert ReferenceStats(ms, t).headToHead == map[];
  }

  /** A match adds no record against a name it does not pair `t` with. */
  lemma NoRecordFromUnmet(m: Match, t: string, o: string)
    requires o !in MetIn(m, t)
    ensures H2HContribution(m, t, o) == NoMeeting
  {
  }

  /** No record against an opponent never met. */
  lemma {:induction false} UnmetOpponentIsEmpty(ms: seq<Match>, t: string, o: string)
    requires o !in Opponents(ms, t)
    ensures H2HOf(ms, t, o) == NoMeeting
    decreases |ms|
  {
    if ms != [] {
      var front, m := ms[..|ms| - 1], ms[|ms| - 1];
      assert o !in Opponents(front, t) && o !in MetIn(m, t);
      UnmetOpponentIsEmpty(front, t, o);
      NoRecordFromUnmet(m, t, o);
    }
  }

  /** The record against any name, met or not, is the reference sum. */
  lemma ReferenceLookup(ms: seq<Match>, t: string, o: string)
    ensures Lookup(ReferenceStats(ms, t).headToHead, o) == H2HOf(ms, t, o)
  {
    if o !in Opponents(ms, t) {
      UnmetOpponentIsEmpty(ms, t, o);
    }
  }

  /** The reference for one more match is the reference accrued by that match. */
  lemma ReferenceExtends(ms: seq<Match>, t: string)
    requires ms != []
    ensures ReferenceStats(ms, t) == Accrue(ReferenceStats(ms[..|ms| - 1], t), ms[|ms| - 1], t)
  {
    var front, m := ms[..|ms| - 1], ms[|ms| - 1];
    var lhs := ReferenceStats(ms, t).headToHead;
    var rhs := AccrueRecords(ReferenceStats(front, t).headToHead, m, t);
    forall o | o in lhs.Keys
      ensures o in rhs && lhs[o] == rhs[o]
    {
      ReferenceLookup(front, t, o);
    }
    assert lhs.Keys == rhs.Keys;
  }

  /** A match that pairs `t` with nobody leaves its records alone. */
  lemma AccrueNoOpponent(h: map<string, HeadToHead>, m: Match, t: string)
    requires MetIn(m, t) == {}
    ensures AccrueRecords(h, m, t) == h
  {
    var r := AccrueRecords(h, m, t);
    forall o | o in r ensures r[o] == h[o] {
      NoRecordFromUnmet(m, t, o);
    }
    assert r.Keys == h.Keys;
  }

  /** A match that pairs `t` with exactly one opponent `o` adds to that
      record only. */
  lemma AccrueOneOpponent(h: map<string, HeadToHead>, m: Match, t: string, o: string)
    requires MetIn(m, t) == {o}
    ensures AccrueRecords(h, m, t) == h[o := Lookup(h, o).Plus(H2HContribution(m, t, o))]
  {
    var r := AccrueRecords(h, m, t);
    var e := h[o := Lookup(h, o).Plus(H2HContribution(m, t, o))];
    forall k | k in r ensures k in e && r[k] == e[k] {
      if k != o {
        NoRecordFromUnmet(m, t, k);
      }
    }
    assert r.Keys == e.Keys;
  }

  /** A match contributing nothing to `t` leaves its accumulator as it is. */
  lemma AccrueNothing(s: TeamStats, m: Match, t: string)
    requires MetIn(m, t) == {} && Contribution(m, t) == Zero
    ensures Accrue(s, m, t) == s
  {
    AccrueNoOpponent(s.headToHead, m, t);
  }

  /** An unplayed match only registers its teams. */
  lemma StepUnplayed(teams: Teams, m: Match, t: string)
    requires !m.matchPlayed && t in Step(teams, m).stats
    ensures Step(teams, m).stats[t] == Accrue(Get(teams.stats, t), m, t)
  {
    assert Step(teams, m).stats[t] == Get(teams.stats, t);
    AccrueNothing(Get(teams.stats, t), m, t);
  }

  /** What the `forEach` body leaves in the home side's accumulator when two
      different teams play. */
  lemma StepHomeShape(teams: Teams, m: Match)
    requires m.matchPlayed && m.homeTeam != m.awayTeam
    ensures var p := CalculateMatchPoints(m.homeTeamScore, m.awayTeamScore);
      Step(teams, m).stats[m.homeTeam]
      == UpdateHeadToHeadStats(UpdateTeamStats(Get(teams.stats, m.homeTeam), m.homeTeamScore, m.awayTeamScore, p.homePoints),
                               m.awayTeam, m.homeTeamScore, m.awayTeamScore, p.homePoints)
  {
    var registered := InitializeTeam(InitializeTeam(teams, m.homeTeam), m.awayTeam);
    assert registered.stats[m.homeTeam] == Get(teams.stats, m.homeTeam);
  }

  /** The same for the away side. */
  lemma StepAwayShape(teams: Teams, m: Match)
    requires m.matchPlayed && m.homeTeam != m.awayTeam
    ensures var p := CalculateMatchPoints(m.homeTeamScore, m.awayTeamScore);
      Step(teams, m).stats[m.awayTeam]
      == UpdateHeadToHeadStats(UpdateTeamStats(Get(teams.stats, m.awayTeam), m.awayTeamScore, m.homeTeamScore, p.awayPoints),
                               m.homeTeam, m.awayTeamScore, m.homeTeamScore, p.awayPoints)
  {
    var registered := InitializeTeam(InitializeTeam(teams, m.homeTeam), m.awayTeam);
    assert registered.stats[m.awayTeam] == Get(teams.stats, m.awayTeam);
  }

  /** The same for a team playing itself: all four updates hit one accumulator. */
  lemma StepSelfShape(teams: Teams, m: Match)
    requires m.matchPlayed && m.homeTeam == m.awayTeam
    ensures var p := CalculateMatchPoints(m.homeTeamScore, m.awayTeamScore);
      var t := m.homeTeam;
      Step(teams, m).stats[t]
      == UpdateHeadToHeadStats(
           UpdateHeadToHeadStats(
             UpdateTeamStats(UpdateTeamStats(Get(teams.stats, t), m.homeTeamScore, m.awayTeamScore, p.homePoints),
                             m.awayTeamScore, m.homeTeamScore, p.awayPoints),
             t, m.homeTeamScore, m.awayTeamScore, p.homePoints),
           t, m.awayTeamScore, m.homeTeamScore, p.awayPoints)
  {
    var registered := InitializeTeam(InitializeTeam(teams, m.homeTeam), m.awayTeam);
    assert registered.stats[m.homeTeam] == Get(teams.stats, m.homeTeam);
  }

  /** A played match leaves the teams that did not take part alone. */
  lemma StepOtherShape(teams: Teams, m: Match, t: string)
    requires m.matchPlayed && t in Step(teams, m).stats && t != m.homeTeam && t != m.awayTeam
    ensures Step(teams, m).stats[t] == Get(teams.stats, t)
  {
    var registered := InitializeTeam(InitializeTeam(teams, m.homeTeam), m.awayTeam);
    assert registered.stats[t] == Get(teams.stats, t);
  }

  /** Accruing a match between two different teams, home side. */
  lemma AccrueHome(s: TeamStats, m: Match)
    requires m.matchPlayed && m.homeTeam != m.awayTeam
    ensures var p := CalculateMatchPoints(m.homeTeamScore, m.awayTeamScore);
      Accrue(s, m, m.homeTeam)
      == UpdateHeadToHeadStats(UpdateTeamStats(s, m.homeTeamScore, m.awayTeamScore, p.homePoints),
                               m.awayTeam, m.homeTeamScore, m.awayTeamScore, p.homePoints)
  {
    assert MetIn(m, m.homeTeam) == {m.awayTeam};
    AccrueOneOpponent(s.headToHead, m, m.homeTeam, m.awayTeam);
  }

  /** Accruing a match between two different teams, away side. */
  lemma AccrueAway(s: TeamStats, m: Match)
    requires m.matchPlayed && m.homeTeam != m.awayTeam
    ensures var p := CalculateMatchPoints(m.homeTeamScore, m.awayTeamScore);
      Accrue(s, m, m.awayTeam)
      == UpdateHeadToHeadStats(UpdateTeamStats(s, m.awayTeamScore, m.homeTeamScore, p.awayPoints),
                               m.homeTeam, m.awayTeamScore, m.homeTeamScore, p.awayPoints)
  {
    assert MetIn(m, m.awayTeam) == {m.homeTeam};
    AccrueOneOpponent(s.headToHead, m, m.awayTeam, m.homeTeam);
  }

  /** Four updates of one record, as the self-match performs them. */
  lemma SelfRecord(s: TeamStats, t: string, x: HeadToHead, y: HeadToHead, hp: int, ap: int)
    ensures
      UpdateHeadToHeadStats(
        UpdateHeadToHeadStats(
          UpdateTeamStats(UpdateTeamStats(s, x.gf, x.ga, hp), y.gf, y.ga, ap),
          t, x.gf, x.ga, x.points),
        t, y.gf, y.ga, y.points).headToHead
      == s.headToHead[t := Lookup(s.headToHead, t).Plus(x.Plus(y))]
  {
    var u2 := UpdateTeamStats(UpdateTeamStats(s, x.gf, x.ga, hp), y.gf, y.ga, ap);
    var u3 := UpdateHeadToHeadStats(u2, t, x.gf, x.ga, x.points);
    assert u3.headToHead == s.headToHead[t := Lookup(s.headToHead, t).Plus(x)];
  }

  /** Accruing a match of a team against itself. */
  lemma AccrueSelf(s: TeamStats, m: Match)
    requires m.matchPlayed && m.homeTeam == m.awayTeam
    ensures var p := CalculateMatchPoints(m.homeTeamScore, m.awayTeamScore);
      var t := m.homeTeam;
      Accrue(s, m, t)
      == UpdateHeadToHeadStats(
           UpdateHeadToHeadStats(
             UpdateTeamStats(UpdateTeamStats(s, m.homeTeamScore, m.awayTeamScore, p.homePoints),
                             m.awayTeamScore, m.homeTeamScore, p.awayPoints),
             t, m.homeTeamScore, m.awayTeamScore, p.homePoints),
           t, m.awayTeamScore, m.homeTeamScore, p.awayPoints)
  {
    var t := m.homeTeam;
    var p := CalculateMatchPoints(m.homeTeamScore, m.awayTeamScore);
    var x := HeadToHead(m.homeTeamScore, m.awayTeamScore, p.homePoints);
    var y := HeadToHead(m.awayTeamScore, m.homeTeamScore, p.awayPoints);
    assert MetIn(m, t) == {t};
    assert H2HContribution(m, t, t) == x.Plus(y);
    AccrueOneOpponent(s.headToHead, m, t, t);
    SelfRecord(s, t, x, y, p.homePoints, p.awayPoints);
  }

  lemma StepPlayedSelf(teams: Teams, m: Match)
    requires m.matchPlayed && m.homeTeam == m.awayTeam
    ensures Step(teams, m).stats[m.homeTeam] == Accrue(Get(teams.stats, m.homeTeam), m, m.homeTeam)
  {
    StepSelfShape(teams, m);
    AccrueSelf(Get(teams.stats, m.homeTeam), m);
  }

  lemma StepPlayedHome(teams: Teams, m: Match)
    requires m.matchPlayed && m.homeTeam != m.awayTeam
    ensures Step(teams, m).stats[m.homeTeam] == Accrue(Get(teams.stats, m.homeTeam), m, m.homeTeam)
  {
    StepHomeShape(teams, m);
    AccrueHome(Get(teams.stats, m.homeTeam), m);
  }

  lemma StepPlayedAway(teams: Teams, m: Match)
    requires m.matchPlayed && m.homeTeam != m.awayTeam
    ensures Step(teams, m).stats[m.awayTeam] == Accrue(Get(teams.stats, m.awayTeam), m, m.awayTeam)
  {
    StepAwayShape(teams, m);
    AccrueAway(Get(teams.stats, m.awayTeam), m);
  }

  lemma StepPlayedOther(teams: Teams, m: Match, t: string)
    requires m.matchPlayed && t in Step(teams, m).stats && t != m.homeTeam && t != m.awayTeam
    ensures Step(teams, m).stats[t] == Accrue(Get(teams.stats, t), m, t)
  {
    StepOtherShape(teams, m, t);
    OutsiderGetsNothing(m, t);
    AccrueNothing(Get(teams.stats, t), m, t);
  }

  /** A match adds nothing for a team that takes no part in it. */
  lemma OutsiderGetsNothing(m: Match, t: string)
    requires t != m.homeTeam && t != m.awayTeam
    ensures MetIn(m, t) == {} && Contribution(m, t) == Zero
  {
  }

  /** A played match accrues exactly its contribution to every team. */
  lemma StepPlayed(teams: Teams, m: Match, t: string)
    requires m.matchPlayed && t in Step(teams, m).stats
    ensures Step(teams, m).stats[t] == Accrue(Get(teams.stats, t), m, t)
  {
    if t == m.homeTeam && t == m.awayTeam {
      StepPlayedSelf(teams, m);
    } else if t == m.homeTeam {
      StepPlayedHome(teams, m);
    } else if t == m.awayTeam {
      StepPlayedAway(teams, m);
    } else {
      StepPlayedOther(teams, m, t);
    }
  }

  /** The loop's dictionary has the named teams as keys and the reference
      accumulator under each. */
  ghost predicate TallyAgrees(ms: seq<Match>) {
    && TallyOf(ms).stats.Keys == TeamNames(ms)
    && forall t :: t in TallyOf(ms).stats ==> TallyOf(ms).stats[t] == ReferenceStats(ms, t)
  }

  /** One more match keeps one team's accumulator equal to its reference. */
  lemma TallyStepTeam(ms: seq<Match>, t: string)
    requires ms != []
    requires t in TallyOf(ms).stats
    requires TallyAgrees(ms[..|ms| - 1])
    ensures TallyOf(ms).stats[t] == ReferenceStats(ms, t)
  {
    var front, m := ms[..|ms| - 1], ms[|ms| - 1];
    var before := TallyOf(front);
    assert TallyOf(ms) == Step(before, m);
    if m.matchPlayed { StepPlayed(before, m, t); } else { StepUnplayed(before, m, t); }
    if t !in before.stats {
      UnnamedTeamIsNew(front, t);
    }
    assert Get(before.stats, t) == ReferenceStats(front, t);
    ReferenceExtends(ms, t);
  }

  /** The loop's dictionary lists each of its keys once, and its keys are
      exactly the teams named by some match (their order: `TallyOrder`). */
  lemma {:induction false} TallyKeys(ms: seq<Match>)
    ensures WellFormed(TallyOf(ms))
    ensures TallyOf(ms).stats.Keys == TeamNames(ms)
    decreases |ms|
  {
    if ms != [] {
      var front, m := ms[..|ms| - 1], ms[|ms| - 1];
      TallyKeys(front);
      assert TallyOf(ms) == Step(TallyOf(front), m);
    }
  }

  /** The team names in the order the loop meets them (its sightings): home, then away,
      match by match. */
  function TeamSightings(ms: seq<Match>): (r: seq<string>)
    ensures |r| == 2 * |ms|
    decreases |ms|
  {
    if ms == [] then [] else TeamSightings(ms[..|ms| - 1]) + [ms[|ms| - 1].homeTeam, ms[|ms| - 1].awayTeam]
  }

  /** The position at which `x` first occurs in `s`. */
  function FirstIndex(s: seq<string>, x: string): (r: nat)
    requires x in s
    ensures r < |s| && s[r] == x
    ensures forall k :: 0 <= k < r ==> s[k] != x
  {
    if s[0] == x then 0 else 1 + FirstIndex(s[1..], x)
  }

  /** A position holding `x` with no `x` before it is the first one. */
  lemma FirstIndexAt(s: seq<string>, x: string, r: int)
    requires 0 <= r < |s| && s[r] == x
    requires forall k :: 0 <= k < r ==> s[k] != x
    ensures FirstIndex(s, x) == r
  {
  }

  /** A name is sighted exactly when some match names it. */
  lemma {:induction false} SightingsAreNames(ms: seq<Match>)
    ensures forall x :: x in TeamSightings(ms) <==> x in TeamNames(ms)
    decreases |ms|
  {
    if ms != [] {
      SightingsAreNames(ms[..|ms| - 1]);
    }
  }

  /** The first sighting of a name seen earlier does not move when more
      names are seen. */
  lemma FirstIndexKept(s: seq<string>, extra: seq<string>, x: string)
    requires x in s
    ensures FirstIndex(s + extra, x) == FirstIndex(s, x)
  {
    FirstIndexAt(s + extra, x, FirstIndex(s, x));
  }

  /** `order` lists exactly the names of `s`, in the order of their first
      occurrence in `s`. */
  ghost predicate InFirstSightingOrder(order: seq<string>, s: seq<string>) {
    && (forall k :: 0 <= k < |order| ==> order[k] in s)
    && (forall x :: x in s ==> x in order)
    && (forall i, j :: 0 <= i < j < |order| ==> FirstIndex(s, order[i]) < FirstIndex(s, order[j]))
  }

  /** Registering the next name seen keeps the keys in first-sighting order. */
  lemma InitializeTeamOrder(teams: Teams, s: seq<string>, x: string)
    requires WellFormed(teams) && InFirstSightingOrder(teams.order, s)
    ensures InFirstSightingOrder(InitializeTeam(teams, x).order, s + [x])
  {
    var o0, o := teams.order, InitializeTeam(teams, x).order;
    forall k | 0 <= k < |o0| ensures FirstIndex(s + [x], o0[k]) == FirstIndex(s, o0[k]) < |s| {
      FirstIndexKept(s, [x], o0[k]);
    }
    if x !in teams.stats {
      assert x !in s;
      FirstIndexAt(s + [x], x, |s|);
      assert o == o0 + [x];
    }
  }

  /** The keys are listed in the order in which their teams are first named
      by the schedule (home before away, match by match); together with
      `TallyKeys` this fixes the key order completely. */
  lemma TallyOrder(ms: seq<Match>)
    ensures forall k :: 0 <= k < |TallyOf(ms).order| ==> TallyOf(ms).order[k] in TeamSightings(ms)
    ensures forall i, j :: 0 <= i < j < |TallyOf(ms).order| ==>
      FirstIndex(TeamSightings(ms), TallyOf(ms).order[i]) < FirstIndex(TeamSightings(ms), TallyOf(ms).order[j])
  {
    TallyOrderSighted(ms);
  }

  /** The induction behind `TallyOrder`. */
  lemma {:induction false} TallyOrderSighted(ms: seq<Match>)
    ensures InFirstSightingOrder(TallyOf(ms).order, TeamSightings(ms))
    decreases |ms|
  {
    if ms != [] {
      var front, m := ms[..|ms| - 1], ms[|ms| - 1];
      TallyOrderSighted(front);
      TallyKeys(front);
      var s0 := TeamSightings(front);
      var t0 := TallyOf(front);
      var t1 := InitializeTeam(t0, m.homeTeam);
      InitializeTeamOrder(t0, s0, m.homeTeam);
      InitializeTeamOrder(t1, s0 + [m.homeTeam], m.awayTeam);
      assert s0 + [m.homeTeam] + [m.awayTeam] == TeamSightings(ms);
      assert TallyOf(ms).order == InitializeTeam(t1, m.awayTeam).order;
    }
  }

  /** The dictionary the loop builds has exactly the named teams as keys,
      and every team's accumulator equals the reference sums over the played
      matches. */
  lemma {:induction false} TallyMatchesReference(ms: seq<Match>)
    ensures TallyAgrees(ms)
    decreases |ms|
  {
    TallyKeys(ms);
    if ms != [] {
      TallyMatchesReference(ms[..|ms| - 1]);
      forall t | t in TallyOf(ms).stats
        ensures TallyOf(ms).stats[t] == ReferenceStats(ms, t)
      {
        TallyStepTeam(ms, t);
      }
    }
  }
}
