/** The example schedules of the league's own test suite, stated for any
    team names, and what every leaderboard for them must be. */
module Scenarios {
  import opened Fixtures
  import opened Tally
  import opened Ranking
  import opened Aggregates
  import opened League

  // ---------------------------------------------------------------------
  // Reading statistics off a schedule one match at a time

  /** Statistic `s` of team `t` over `ms`, summed match by match: the same
      sum as `TotalsOf` (`StatOfTotals`), one integer at a time, which keeps
      the scenario proofs small. */
  function StatOf(ms: seq<Match>, t: string, s: Stat): int
    decreases |ms|
  {
    if ms == [] then 0
    else
      var m := ms[|ms| - 1];
      StatOf(ms[..|ms| - 1], t, s) + (if m.homeTeam == t then HomeShare(m, s) else 0) + (if m.awayTeam == t then AwayShare(m, s) else 0)
  }

  /** Statistic `s` of `t`'s record against `o` over `ms`, summed match by
      match: the same sum as `H2HOf` (`AgainstOfRecord`). */
  function AgainstOf(ms: seq<Match>, t: string, o: string, s: Stat): int
    decreases |ms|
  {
    if ms == [] then 0
    else
      var m := ms[|ms| - 1];
      AgainstOf(ms[..|ms| - 1], t, o, s)
        + (if m.homeTeam == t && m.awayTeam == o then HomeShare(m, s) else 0)
        + (if m.awayTeam == t && m.homeTeam == o then AwayShare(m, s) else 0)
  }

  /** The integer fold equals the reference totals. */
  lemma {:induction false} StatOfTotals(ms: seq<Match>, t: string, s: Stat)
    ensures Of(TotalsOf(ms, t), s) == StatOf(ms, t, s)
    decreases |ms|
  {
    if ms != [] {
      StatOfTotals(ms[..|ms| - 1], t, s);
      ContributionShares(ms[|ms| - 1], t, s);
    }
  }

  /** The integer fold equals the reference head-to-head record. */
  lemma {:induction false} AgainstOfRecord(ms: seq<Match>, t: string, o: string, s: Stat)
    requires s != MatchesPlayed
    ensures OfRecord(H2HOf(ms, t, o), s) == AgainstOf(ms, t, o, s)
    decreases |ms|
  {
    if ms != [] {
      AgainstOfRecord(ms[..|ms| - 1], t, o, s);
      RecordShares(ms[|ms| - 1], t, o, s);
    }
  }

  /** The reference row of `t`, read off as integer folds. */
  lemma RowValues(ms: seq<Match>, t: string, o: string)
    ensures var r := ReferenceRow(ms, t);
      && r.mp == StatOf(ms, t, MatchesPlayed) && r.points == StatOf(ms, t, Points)
      && r.gf == StatOf(ms, t, GoalsFor) && r.ga == StatOf(ms, t, GoalsAgainst)
      && H2HPoints(r, o) == AgainstOf(ms, t, o, Points)
      && Lookup(r.headToHead, o).gf == AgainstOf(ms, t, o, GoalsFor)
      && Lookup(r.headToHead, o).ga == AgainstOf(ms, t, o, GoalsAgainst)
  {
    StatOfTotals(ms, t, MatchesPlayed);
    StatOfTotals(ms, t, Points);
    StatOfTotals(ms, t, GoalsFor);
    StatOfTotals(ms, t, GoalsAgainst);
    ReferenceLookup(ms, t, o);
    AgainstOfRecord(ms, t, o, Points);
    AgainstOfRecord(ms, t, o, GoalsFor);
    AgainstOfRecord(ms, t, o, GoalsAgainst);
  }

  /** A played fixture. */
  function Result(home: string, away: string, homeScore: int, awayScore: int): Match {
    Match(0, "", "Stadium", home, away, true, homeScore, awayScore)
  }

  // ---------------------------------------------------------------------
  // One fixture between two teams

  /** A schedule of one fixture between different teams has two rows: the
      side that ranks above the other first. */
  lemma OneFixture(m: Match, rows: seq<Row>)
    requires m.homeTeam != m.awayTeam
    requires IsLeaderboard([m], rows)
    ensures var h, a := ReferenceRow([m], m.homeTeam), ReferenceRow([m], m.awayTeam);
      rows == if RanksAbove(h, a) then [h, a] else [a, h]
  {
    var ms := [m];
    assert ms[..0] == [];
    assert TeamNames(ms) == {m.homeTeam, m.awayTeam};
    var h, a := ReferenceRow(ms, m.homeTeam), ReferenceRow(ms, m.awayTeam);
    CompareTotal(h, a);
    if RanksAbove(h, a) {
      StandingsDetermined(ms, rows, [m.homeTeam, m.awayTeam], [h, a]);
    } else {
      StandingsDetermined(ms, rows, [m.awayTeam, m.homeTeam], [a, h]);
    }
  }

  /** A win: the winner first, three points to none, its goals as scored. */
  lemma Win(a: string, b: string, x: int, y: int, rows: seq<Row>)
    requires a != b && x > y
    requires IsLeaderboard([Result(a, b, x, y)], rows)
    ensures |rows| == 2 && rows[0].name == a && rows[1].name == b
    ensures rows[0].mp == 1 && rows[0].gf == x && rows[0].ga == y && rows[0].gd == x - y && rows[0].points == 3
    ensures rows[1].mp == 1 && rows[1].gf == y && rows[1].ga == x && rows[1].gd == y - x && rows[1].points == 0
    ensures rows[0].flag == FlagCode(a) && rows[1].flag == FlagCode(b)
  {
    var ms := [Result(a, b, x, y)];
    assert ms[..0] == [];
    RowValues(ms, a, b);
    RowValues(ms, b, a);
    OneFixture(ms[0], rows);
  }

  /** A draw: one point each, the head-to-head level, so the name decides. */
  lemma Draw(a: string, b: string, x: int, rows: seq<Row>)
    requires a != b
    requires IsLeaderboard([Result(a, b, x, x)], rows)
    ensures |rows| == 2 && rows[0].points == 1 && rows[1].points == 1
    ensures NameBefore(a, b) ==> rows[0].name == a && rows[1].name == b
    ensures NameBefore(b, a) ==> rows[0].name == b && rows[1].name == a
  {
    var ms := [Result(a, b, x, x)];
    assert ms[..0] == [];
    RowValues(ms, a, b);
    RowValues(ms, b, a);
    OneFixture(ms[0], rows);
    NameCompareMeansBefore(a, b);
    NameCompareMeansBefore(b, a);
    NameCompareAntisymmetric(a, b);
  }

  /** An unplayed fixture: both teams listed, everything zero, the name decides. */
  lemma Unplayed(a: string, b: string, rows: seq<Row>)
    requires a != b
    requires IsLeaderboard([Match(0, "", "Stadium", a, b, false, 0, 0)], rows)
    ensures |rows| == 2
    ensures forall k :: 0 <= k < 2 ==>
      rows[k].mp == 0 && rows[k].points == 0 && rows[k].gf == 0 && rows[k].ga == 0 && rows[k].headToHead == map[]
    ensures NameBefore(a, b) ==> rows[0].name == a && rows[1].name == b
    ensures NameBefore(b, a) ==> rows[0].name == b && rows[1].name == a
  {
    var ms := [Match(0, "", "Stadium", a, b, false, 0, 0)];
    assert ms[..0] == [];
    OneFixture(ms[0], rows);
    assert Played(ms) == [] by {
      assert Played(ms) == Played(ms[..0]);
    }
    StandingsOnlyUnplayed(ms, rows, 0);
    StandingsOnlyUnplayed(ms, rows, 1);
    NameCompareMeansBefore(a, b);
    NameCompareMeansBefore(b, a);
    NameCompareAntisymmetric(a, b);
  }

  // ---------------------------------------------------------------------
  // Tie-breaks over several fixtures

  /** The goal-difference tie-break test: `a` and `b` draw and both beat `c`. */
  function GoalDifferenceSchedule(a: string, b: string, c: string): seq<Match> {
    [Result(a, b, 2, 2), Result(a, c, 3, 0), Result(b, c, 1, 0)]
  }

  lemma GoalDifferenceValues(a: string, b: string, c: string)
    requires a != b && a != c && b != c
    ensures var ms := GoalDifferenceSchedule(a, b, c);
      && StatOf(ms, a, Points) == 4 && StatOf(ms, a, GoalsFor) == 5 && StatOf(ms, a, GoalsAgainst) == 2
      && StatOf(ms, b, Points) == 4 && StatOf(ms, b, GoalsFor) == 3 && StatOf(ms, b, GoalsAgainst) == 2
      && StatOf(ms, c, Points) == 0
      && AgainstOf(ms, a, b, Points) == 1 && AgainstOf(ms, b, a, Points) == 1
      && TeamNames(ms) == {a, b, c}
  {
    var ms := GoalDifferenceSchedule(a, b, c);
    var m0, m1, m2 := ms[0], ms[1], ms[2];
    assert ms[..2] == [m0, m1] && ms[..2][..1] == [m0] && ms[..2][..1][..0] == [];
    assert m0.matchPlayed && m1.matchPlayed && m2.matchPlayed;
    assert StatOf([m0], a, Points) == 1 && StatOf([m0], b, Points) == 1 && StatOf([m0], c, Points) == 0;
    assert StatOf([m0], a, GoalsFor) == 2 && StatOf([m0], b, GoalsFor) == 2;
    assert StatOf([m0], a, GoalsAgainst) == 2 && StatOf([m0], b, GoalsAgainst) == 2;
    assert StatOf([m0, m1], a, Points) == 4 && StatOf([m0, m1], b, Points) == 1 && StatOf([m0, m1], c, Points) == 0;
    assert StatOf([m0, m1], a, GoalsFor) == 5 && StatOf([m0, m1], b, GoalsFor) == 2;
    assert StatOf([m0, m1], a, GoalsAgainst) == 2 && StatOf([m0, m1], b, GoalsAgainst) == 2;
    assert [m0][..0] == [] && [m0, m1][..1] == [m0];
    assert CalculateMatchPoints(2, 2) == MatchPoints(1, 1);
    assert HomeShare(m0, Points) == 1 && AwayShare(m0, Points) == 1;
    assert AgainstOf([m0], a, b, Points) == 1;
    assert AgainstOf([m0], b, a, Points) == 1;
    assert AgainstOf([m0, m1], a, b, Points) == 1 && AgainstOf([m0, m1], b, a, Points) == 1;
    assert TeamNames([m0]) == {a, b};
    assert TeamNames([m0, m1]) == {a, b, c};
  }

  /** Three rows, each ranked above the ones after it. */
  lemma ThreeRanked(ra: Row, rb: Row, rc: Row)
    requires RanksAbove(ra, rb) && RanksAbove(ra, rc) && RanksAbove(rb, rc)
    ensures var rank := [ra, rb, rc]; forall i, j :: 0 <= i < j < |rank| ==> RanksAbove(rank[i], rank[j])
  {
  }

  /** Four rows, each ranked above the ones after it. */
  lemma FourRanked(ra: Row, rb: Row, rc: Row, rd: Row)
    requires RanksAbove(ra, rb) && RanksAbove(ra, rc) && RanksAbove(ra, rd)
    requires RanksAbove(rb, rc) && RanksAbove(rb, rd) && RanksAbove(rc, rd)
    ensures var rank := [ra, rb, rc, rd]; forall i, j :: 0 <= i < j < |rank| ==> RanksAbove(rank[i], rank[j])
  {
  }

  /** Three different names make a list without repeats. */
  lemma ThreeDistinct(a: string, b: string, c: string)
    requires a != b && a != c && b != c
    ensures Distinct([a, b, c])
  {
    var names := [a, b, c];
    forall i, j | 0 <= i < j < |names| ensures names[i] != names[j] {
      if i == 0 {
        assert names[j] in {b, c};
      }
    }
  }

  /** A set of three names holds exactly what their list holds. */
  lemma ThreeCover(names: set<string>, a: string, b: string, c: string)
    requires names == {a, b, c}
    ensures forall t :: t in names <==> t in [a, b, c]
  {
    var list := [a, b, c];
    forall t ensures t in names <==> t in list {
      if t in names {
        if t == a { assert list[0] == t; }
        else if t == b { assert list[1] == t; }
        else { assert list[2] == t; }
      }
    }
  }

  /** Three teams, listed with their reference rows. */
  lemma ThreeRows(ms: seq<Match>, a: string, b: string, c: string)
    ensures var names, rank := [a, b, c], [ReferenceRow(ms, a), ReferenceRow(ms, b), ReferenceRow(ms, c)];
      |rank| == |names| && forall i :: 0 <= i < |names| ==> rank[i] == ReferenceRow(ms, names[i])
  {
  }

  /** Four different names make a list without repeats. */
  lemma FourDistinct(a: string, b: string, c: string, d: string)
    requires a != b && a != c && a != d && b != c && b != d && c != d
    ensures Distinct([a, b, c, d])
  {
    var names := [a, b, c, d];
    forall i, j | 0 <= i < j < |names| ensures names[i] != names[j] {
      if i == 0 {
        assert names[j] in {b, c, d};
      } else if i == 1 {
        assert names[j] in {c, d};
      }
    }
  }

  /** A set of four names holds exactly what their list holds. */
  lemma FourCover(names: set<string>, a: string, b: string, c: string, d: string)
    requires names == {a, b, c, d}
    ensures forall t :: t in names <==> t in [a, b, c, d]
  {
    var list := [a, b, c, d];
    forall t ensures t in names <==> t in list {
      if t in names {
        if t == a { assert list[0] == t; }
        else if t == b { assert list[1] == t; }
        else if t == c { assert list[2] == t; }
        else { assert list[3] == t; }
      }
    }
  }

  /** Four teams, listed with their reference rows. */
  lemma FourRows(ms: seq<Match>, a: string, b: string, c: string, d: string)
    ensures var names, rank := [a, b, c, d], [ReferenceRow(ms, a), ReferenceRow(ms, b), ReferenceRow(ms, c), ReferenceRow(ms, d)];
      |rank| == |names| && forall i :: 0 <= i < |names| ==> rank[i] == ReferenceRow(ms, names[i])
  {
  }

  /** Three teams whose reference rows rank `a` over `b` over `c` fill the
      leaderboard in that order. */
  lemma ThreeInOrder(ms: seq<Match>, rows: seq<Row>, a: string, b: string, c: string)
    requires a != b && a != c && b != c
    requires IsLeaderboard(ms, rows)
    requires TeamNames(ms) == {a, b, c}
    requires RanksAbove(ReferenceRow(ms, a), ReferenceRow(ms, b))
    requires RanksAbove(ReferenceRow(ms, a), ReferenceRow(ms, c))
    requires RanksAbove(ReferenceRow(ms, b), ReferenceRow(ms, c))
    ensures rows == [ReferenceRow(ms, a), ReferenceRow(ms, b), ReferenceRow(ms, c)]
  {
    var ra, rb, rc := ReferenceRow(ms, a), ReferenceRow(ms, b), ReferenceRow(ms, c);
    ThreeRanked(ra, rb, rc);
    ThreeDistinct(a, b, c);
    ThreeCover(TeamNames(ms), a, b, c);
    ThreeRows(ms, a, b, c);
    StandingsDetermined(ms, rows, [a, b, c], [ra, rb, rc]);
  }

  /** Four teams whose reference rows rank `a`, `b`, `c`, `d` in that order
      fill the leaderboard in that order. */
  lemma FourInOrder(ms: seq<Match>, rows: seq<Row>, a: string, b: string, c: string, d: string)
    requires a != b && a != c && a != d && b != c && b != d && c != d
    requires IsLeaderboard(ms, rows)
    requires TeamNames(ms) == {a, b, c, d}
    requires RanksAbove(ReferenceRow(ms, a), ReferenceRow(ms, b))
    requires RanksAbove(ReferenceRow(ms, a), ReferenceRow(ms, c))
    requires RanksAbove(ReferenceRow(ms, a), ReferenceRow(ms, d))
    requires RanksAbove(ReferenceRow(ms, b), ReferenceRow(ms, c))
    requires RanksAbove(ReferenceRow(ms, b), ReferenceRow(ms, d))
    requires RanksAbove(ReferenceRow(ms, c), ReferenceRow(ms, d))
    ensures rows == [ReferenceRow(ms, a), ReferenceRow(ms, b), ReferenceRow(ms, c), ReferenceRow(ms, d)]
  {
    var ra, rb, rc, rd := ReferenceRow(ms, a), ReferenceRow(ms, b), ReferenceRow(ms, c), ReferenceRow(ms, d);
    FourRanked(ra, rb, rc, rd);
    FourDistinct(a, b, c, d);
    FourCover(TeamNames(ms), a, b, c, d);
    FourRows(ms, a, b, c, d);
    StandingsDetermined(ms, rows, [a, b, c, d], [ra, rb, rc, rd]);
  }

  lemma TwoNames(rows: seq<Row>, a: string, b: string)
    requires |rows| == 2 && rows[0].name == a && rows[1].name == b
    ensures Names(rows) == [a, b]
  {
  }

  lemma ThreeNames(rows: seq<Row>, a: string, b: string, c: string)
    requires |rows| == 3 && rows[0].name == a && rows[1].name == b && rows[2].name == c
    ensures Names(rows) == [a, b, c]
  {
  }

  /** Any list of matches with the sums of the goal-difference schedule
      ranks `a`, `b`, `c` in that order. */
  lemma GoalDifferenceRanks(ms: seq<Match>, rows: seq<Row>, a: string, b: string, c: string)
    requires a != b && a != c && b != c
    requires IsLeaderboard(ms, rows) && TeamNames(ms) == {a, b, c}
    requires StatOf(ms, a, Points) == 4 && StatOf(ms, a, GoalsFor) == 5 && StatOf(ms, a, GoalsAgainst) == 2
    requires StatOf(ms, b, Points) == 4 && StatOf(ms, b, GoalsFor) == 3 && StatOf(ms, b, GoalsAgainst) == 2
    requires StatOf(ms, c, Points) == 0
    requires AgainstOf(ms, a, b, Points) == 1 && AgainstOf(ms, b, a, Points) == 1
    ensures Names(rows) == [a, b, c]
    ensures rows[0].points == rows[1].points == 4 && rows[0].gd == 3 && rows[1].gd == 1
  {
    RowValues(ms, a, b);
    RowValues(ms, b, a);
    RowValues(ms, c, a);
    ThreeInOrder(ms, rows, a, b, c);
    ThreeNames(rows, a, b, c);
  }

  /** Level on points and on their meeting, the better goal difference goes first. */
  lemma GoalDifferenceDecides(a: string, b: string, c: string, rows: seq<Row>)
    requires a != b && a != c && b != c
    requires IsLeaderboard(GoalDifferenceSchedule(a, b, c), rows)
    ensures Names(rows) == [a, b, c]
    ensures rows[0].points == rows[1].points == 4 && rows[0].gd == 3 && rows[1].gd == 1
  {
    GoalDifferenceValues(a, b, c);
    GoalDifferenceRanks(GoalDifferenceSchedule(a, b, c), rows, a, b, c);
  }

  /** The goals-scored tie-break test: `a` and `b` each beat `c` by two goals. */
  function GoalsScoredSchedule(a: string, b: string, c: string): seq<Match> {
    [Result(a, c, 3, 1), Result(b, c, 2, 0)]
  }

  lemma GoalsScoredValues(a: string, b: string, c: string)
    requires a != b && a != c && b != c
    ensures var ms := GoalsScoredSchedule(a, b, c);
      && StatOf(ms, a, Points) == 3 && StatOf(ms, a, GoalsFor) == 3 && StatOf(ms, a, GoalsAgainst) == 1
      && StatOf(ms, b, Points) == 3 && StatOf(ms, b, GoalsFor) == 2 && StatOf(ms, b, GoalsAgainst) == 0
      && StatOf(ms, c, Points) == 0
      && AgainstOf(ms, a, b, Points) == 0 && AgainstOf(ms, b, a, Points) == 0
      && TeamNames(ms) == {a, b, c}
  {
    var ms := GoalsScoredSchedule(a, b, c);
    var m0, m1 := ms[0], ms[1];
    assert ms[..1] == [m0] && [m0][..0] == [];
    assert HomeShare(m0, Points) == 3 && AwayShare(m0, Points) == 0;
    assert HomeShare(m1, Points) == 3 && AwayShare(m1, Points) == 0;
    assert StatOf([m0], a, Points) == 3 && StatOf([m0], b, Points) == 0 && StatOf([m0], c, Points) == 0;
    assert StatOf([m0], a, GoalsFor) == 3 && StatOf([m0], b, GoalsFor) == 0;
    assert StatOf([m0], a, GoalsAgainst) == 1;
    assert StatOf([m0], b, GoalsAgainst) == StatOf([], b, GoalsAgainst);
    assert AgainstOf([m0], a, b, Points) == 0 && AgainstOf([m0], b, a, Points) == 0;
    assert TeamNames([m0]) == {a, c};
  }

  /** Any list of matches with the sums of the goals-scored schedule ranks
      `a`, `b`, `c` in that order. */
  lemma GoalsScoredRanks(ms: seq<Match>, rows: seq<Row>, a: string, b: string, c: string)
    requires a != b && a != c && b != c
    requires IsLeaderboard(ms, rows) && TeamNames(ms) == {a, b, c}
    requires StatOf(ms, a, Points) == 3 && StatOf(ms, a, GoalsFor) == 3 && StatOf(ms, a, GoalsAgainst) == 1
    requires StatOf(ms, b, Points) == 3 && StatOf(ms, b, GoalsFor) == 2 && StatOf(ms, b, GoalsAgainst) == 0
    requires StatOf(ms, c, Points) == 0
    requires AgainstOf(ms, a, b, Points) == 0 && AgainstOf(ms, b, a, Points) == 0
    ensures Names(rows) == [a, b, c]
    ensures rows[0].points == rows[1].points == 3
    ensures rows[0].gd == rows[1].gd == 2 && rows[0].gf == 3 && rows[1].gf == 2
  {
    RowValues(ms, a, b);
    RowValues(ms, b, a);
    RowValues(ms, c, a);
    ThreeInOrder(ms, rows, a, b, c);
    ThreeNames(rows, a, b, c);
  }

  /** Level on points, on their meeting and on goal difference, the side
      that scored more goes first. */
  lemma GoalsScoredDecides(a: string, b: string, c: string, rows: seq<Row>)
    requires a != b && a != c && b != c
    requires IsLeaderboard(GoalsScoredSchedule(a, b, c), rows)
    ensures Names(rows) == [a, b, c]
    ensures rows[0].points == rows[1].points && rows[0].gd == rows[1].gd && rows[0].gf > rows[1].gf
  {
    GoalsScoredValues(a, b, c);
    GoalsScoredRanks(GoalsScoredSchedule(a, b, c), rows, a, b, c);
  }

  /** The two-team head-to-head test: `a` and `b` both end on six points,
      and `a` won their meeting. */
  function HeadToHeadPairSchedule(a: string, b: string, c: string, d: string): seq<Match> {
    [Result(a, b, 3, 0), Result(b, c, 2, 0), Result(a, c, 3, 0), Result(b, d, 1, 0), Result(c, d, 1, 0)]
  }

  lemma HeadToHeadPairPoints(a: string, b: string, c: string, d: string)
    requires a != b && a != c && a != d && b != c && b != d && c != d
    ensures var ms := HeadToHeadPairSchedule(a, b, c, d);
      && StatOf(ms, a, Points) == 6 && StatOf(ms, b, Points) == 6
      && StatOf(ms, c, Points) == 3 && StatOf(ms, d, Points) == 0
      && TeamNames(ms) == {a, b, c, d}
  {
    var ms := HeadToHeadPairSchedule(a, b, c, d);
    var m0, m1, m2, m3, m4 := ms[0], ms[1], ms[2], ms[3], ms[4];
    assert ms[..4] == [m0, m1, m2, m3];
    assert [m0, m1, m2, m3][..3] == [m0, m1, m2];
    assert [m0, m1, m2][..2] == [m0, m1];
    assert [m0, m1][..1] == [m0] && [m0][..0] == [];
    assert HomeShare(m0, Points) == 3 && AwayShare(m0, Points) == 0;
    assert HomeShare(m1, Points) == 3 && AwayShare(m1, Points) == 0;
    assert HomeShare(m2, Points) == 3 && AwayShare(m2, Points) == 0;
    assert HomeShare(m3, Points) == 3 && AwayShare(m3, Points) == 0;
    assert HomeShare(m4, Points) == 3 && AwayShare(m4, Points) == 0;
    assert StatOf([m0], a, Points) == 3 && StatOf([m0], b, Points) == 0;
    assert StatOf([m0], c, Points) == 0 && StatOf([m0], d, Points) == 0;
    assert StatOf([m0, m1], a, Points) == 3 && StatOf([m0, m1], b, Points) == 3;
    assert StatOf([m0, m1], c, Points) == 0 && StatOf([m0, m1], d, Points) == 0;
    assert StatOf([m0, m1, m2], a, Points) == 6 && StatOf([m0, m1, m2], b, Points) == 3;
    assert StatOf([m0, m1, m2], c, Points) == 0 && StatOf([m0, m1, m2], d, Points) == 0;
    assert StatOf([m0, m1, m2, m3], a, Points) == 6 && StatOf([m0, m1, m2, m3], b, Points) == 6;
    assert StatOf([m0, m1, m2, m3], c, Points) == 0 && StatOf([m0, m1, m2, m3], d, Points) == 0;
    assert TeamNames([m0]) == {a, b};
    assert TeamNames([m0, m1]) == {a, b, c};
    assert TeamNames([m0, m1, m2]) == {a, b, c};
    assert TeamNames([m0, m1, m2, m3]) == {a, b, c, d};
  }

  /** Only the first fixture is a meeting of `a` and `b`. */
  lemma HeadToHeadPairMeeting(a: string, b: string, c: string, d: string, s: Stat)
    requires a != b && a != c && a != d && b != c && b != d && c != d
    ensures var ms := HeadToHeadPairSchedule(a, b, c, d);
      && AgainstOf(ms, a, b, s) == HomeShare(ms[0], s)
      && AgainstOf(ms, b, a, s) == AwayShare(ms[0], s)
  {
    var ms := HeadToHeadPairSchedule(a, b, c, d);
    var m0, m1, m2, m3, m4 := ms[0], ms[1], ms[2], ms[3], ms[4];
    assert ms[..4] == [m0, m1, m2, m3];
    assert [m0, m1, m2, m3][..3] == [m0, m1, m2];
    assert [m0, m1, m2][..2] == [m0, m1];
    assert [m0, m1][..1] == [m0] && [m0][..0] == [];
    assert AgainstOf([m0], a, b, s) == AgainstOf([], a, b, s) + HomeShare(m0, s);
    assert AgainstOf([m0], b, a, s) == AgainstOf([], b, a, s) + AwayShare(m0, s);
    assert AgainstOf([m0, m1], a, b, s) == HomeShare(m0, s) && AgainstOf([m0, m1], b, a, s) == AwayShare(m0, s);
    assert AgainstOf([m0, m1, m2], a, b, s) == HomeShare(m0, s);
    assert AgainstOf([m0, m1, m2], b, a, s) == AwayShare(m0, s);
    assert AgainstOf([m0, m1, m2, m3], a, b, s) == HomeShare(m0, s);
    assert AgainstOf([m0, m1, m2, m3], b, a, s) == AwayShare(m0, s);
  }

  /** The record of that meeting, from each side. */
  lemma HeadToHeadPairRecords(a: string, b: string, c: string, d: string)
    requires a != b && a != c && a != d && b != c && b != d && c != d
    ensures var ms := HeadToHeadPairSchedule(a, b, c, d);
      && AgainstOf(ms, a, b, Points) == 3 && AgainstOf(ms, a, b, GoalsFor) == 3 && AgainstOf(ms, a, b, GoalsAgainst) == 0
      && AgainstOf(ms, b, a, Points) == 0 && AgainstOf(ms, b, a, GoalsFor) == 0 && AgainstOf(ms, b, a, GoalsAgainst) == 3
  {
    var m0 := HeadToHeadPairSchedule(a, b, c, d)[0];
    HeadToHeadPairMeeting(a, b, c, d, Points);
    HeadToHeadPairMeeting(a, b, c, d, GoalsFor);
    HeadToHeadPairMeeting(a, b, c, d, GoalsAgainst);
    assert HomeShare(m0, Points) == 3 && AwayShare(m0, Points) == 0;
  }

  /** Any list of matches with the sums of the two-team head-to-head
      schedule ranks `a`, `b`, `c`, `d` in that order, and the first two
      rows carry the record of their meeting. */
  lemma HeadToHeadPairRanks(ms: seq<Match>, rows: seq<Row>, a: string, b: string, c: string, d: string)
    requires a != b && a != c && a != d && b != c && b != d && c != d
    requires IsLeaderboard(ms, rows) && TeamNames(ms) == {a, b, c, d}
    requires StatOf(ms, a, Points) == 6 && StatOf(ms, b, Points) == 6
    requires StatOf(ms, c, Points) == 3 && StatOf(ms, d, Points) == 0
    requires AgainstOf(ms, a, b, Points) == 3 && AgainstOf(ms, a, b, GoalsFor) == 3 && AgainstOf(ms, a, b, GoalsAgainst) == 0
    requires AgainstOf(ms, b, a, Points) == 0 && AgainstOf(ms, b, a, GoalsFor) == 0 && AgainstOf(ms, b, a, GoalsAgainst) == 3
    ensures Names(rows) == [a, b, c, d]
    ensures rows[0].points == rows[1].points == 6
    ensures Lookup(rows[0].headToHead, b) == HeadToHead(3, 0, 3)
    ensures Lookup(rows[1].headToHead, a) == HeadToHead(0, 3, 0)
  {
    RowValues(ms, a, b);
    RowValues(ms, b, a);
    RowValues(ms, c, a);
    RowValues(ms, d, a);
    FourInOrder(ms, rows, a, b, c, d);
    assert Names(rows) == [rows[0].name, rows[1].name, rows[2].name, rows[3].name];
  }

  /** Level on points, the winner of the two sides' meeting goes first, and
      each row records that meeting. */
  lemma HeadToHeadPairDecides(a: string, b: string, c: string, d: string, rows: seq<Row>)
    requires a != b && a != c && a != d && b != c && b != d && c != d
    requires IsLeaderboard(HeadToHeadPairSchedule(a, b, c, d), rows)
    ensures Names(rows) == [a, b, c, d]
    ensures rows[0].points == rows[1].points == 6
    ensures Lookup(rows[0].headToHead, b) == HeadToHead(3, 0, 3)
    ensures Lookup(rows[1].headToHead, a) == HeadToHead(0, 3, 0)
  {
    HeadToHeadPairPoints(a, b, c, d);
    HeadToHeadPairRecords(a, b, c, d);
    HeadToHeadPairRanks(HeadToHeadPairSchedule(a, b, c, d), rows, a, b, c, d);
  }

  /** The three-team head-to-head test: `a`, `b` and `c` all end on six
      points, and `a` beat both others while `b` beat `c`. */
  function HeadToHeadTrioSchedule(a: string, b: string, c: string, d: string, e: string): seq<Match> {
    [Result(a, b, 1, 0), Result(a, c, 3, 0), Result(b, c, 2, 1), Result(b, d, 4, 0),
     Result(c, d, 2, 0), Result(c, e, 3, 1), Result(d, e, 3, 2)]
  }

  lemma HeadToHeadTrioPoints(a: string, b: string, c: string, d: string, e: string)
    requires a != b && a != c && a != d && a != e && b != c && b != d && b != e && c != d && c != e && d != e
    ensures var ms := HeadToHeadTrioSchedule(a, b, c, d, e);
      && StatOf(ms, a, Points) == 6 && StatOf(ms, b, Points) == 6 && StatOf(ms, c, Points) == 6
      && StatOf(ms, d, Points) == 3 && StatOf(ms, e, Points) == 0
      && TeamNames(ms) == {a, b, c, d, e}
  {
    var ms := HeadToHeadTrioSchedule(a, b, c, d, e);
    var m0, m1, m2, m3, m4, m5, m6 := ms[0], ms[1], ms[2], ms[3], ms[4], ms[5], ms[6];
    assert ms[..6] == [m0, m1, m2, m3, m4, m5];
    assert [m0, m1, m2, m3, m4, m5][..5] == [m0, m1, m2, m3, m4];
    assert [m0, m1, m2, m3, m4][..4] == [m0, m1, m2, m3];
    assert [m0, m1, m2, m3][..3] == [m0, m1, m2];
    assert [m0, m1, m2][..2] == [m0, m1];
    assert [m0, m1][..1] == [m0];
    assert [m0][..0] == [];
    assert HomeShare(m0, Points) == 3 && AwayShare(m0, Points) == 0;
    assert HomeShare(m1, Points) == 3 && AwayShare(m1, Points) == 0;
    assert HomeShare(m2, Points) == 3 && AwayShare(m2, Points) == 0;
    assert HomeShare(m3, Points) == 3 && AwayShare(m3, Points) == 0;
    assert HomeShare(m4, Points) == 3 && AwayShare(m4, Points) == 0;
    assert HomeShare(m5, Points) == 3 && AwayShare(m5, Points) == 0;
    assert HomeShare(m6, Points) == 3 && AwayShare(m6, Points) == 0;
    assert StatOf([m0], a, Points) == 3 && StatOf([m0], b, Points) == 0 && StatOf([m0], c, Points) == 0;
    assert StatOf([m0], d, Points) == 0 && StatOf([m0], e, Points) == 0;
    assert TeamNames([m0]) == {a, b};
    assert StatOf([m0, m1], a, Points) == 6 && StatOf([m0, m1], b, Points) == 0 && StatOf([m0, m1], c, Points) == 0;
    assert StatOf([m0, m1], d, Points) == 0 && StatOf([m0, m1], e, Points) == 0;
    assert TeamNames([m0, m1]) == {a, b, c};
    assert StatOf([m0, m1, m2], a, Points) == 6 && StatOf([m0, m1, m2], b, Points) == 3 && StatOf([m0, m1, m2], c, Points) == 0;
    assert StatOf([m0, m1, m2], d, Points) == 0 && StatOf([m0, m1, m2], e, Points) == 0;
    assert TeamNames([m0, m1, m2]) == {a, b, c};
    assert StatOf([m0, m1, m2, m3], a, Points) == 6 && StatOf([m0, m1, m2, m3], b, Points) == 6 && StatOf([m0, m1, m2, m3], c, Points) == 0;
    assert StatOf([m0, m1, m2, m3], d, Points) == 0 && StatOf([m0, m1, m2, m3], e, Points) == 0;
    assert TeamNames([m0, m1, m2, m3]) == {a, b, c, d};
    assert StatOf([m0, m1, m2, m3, m4], a, Points) == 6 && StatOf([m0, m1, m2, m3, m4], b, Points) == 6 && StatOf([m0, m1, m2, m3, m4], c, Points) == 3;
    assert StatOf([m0, m1, m2, m3, m4], d, Points) == 0 && StatOf([m0, m1, m2, m3, m4], e, Points) == 0;
    assert TeamNames([m0, m1, m2, m3, m4]) == {a, b, c, d};
    assert StatOf([m0, m1, m2, m3, m4, m5], a, Points) == 6 && StatOf([m0, m1, m2, m3, m4, m5], b, Points) == 6 && StatOf([m0, m1, m2, m3, m4, m5], c, Points) == 6;
    assert StatOf([m0, m1, m2, m3, m4, m5], d, Points) == 0 && StatOf([m0, m1, m2, m3, m4, m5], e, Points) == 0;
    assert TeamNames([m0, m1, m2, m3, m4, m5]) == {a, b, c, d, e};
  }

  /** What the three sides level on points took from each other. */
  lemma HeadToHeadTrioRecords(a: string, b: string, c: string, d: string, e: string)
    requires a != b && a != c && a != d && a != e && b != c && b != d && b != e && c != d && c != e && d != e
    ensures var ms := HeadToHeadTrioSchedule(a, b, c, d, e);
      && AgainstOf(ms, a, b, Points) == 3 && AgainstOf(ms, b, a, Points) == 0
      && AgainstOf(ms, a, c, Points) == 3 && AgainstOf(ms, c, a, Points) == 0
      && AgainstOf(ms, b, c, Points) == 3 && AgainstOf(ms, c, b, Points) == 0
  {
    var ms := HeadToHeadTrioSchedule(a, b, c, d, e);
    var m0, m1, m2, m3, m4, m5, m6 := ms[0], ms[1], ms[2], ms[3], ms[4], ms[5], ms[6];
    assert ms[..6] == [m0, m1, m2, m3, m4, m5];
    assert [m0, m1, m2, m3, m4, m5][..5] == [m0, m1, m2, m3, m4];
    assert [m0, m1, m2, m3, m4][..4] == [m0, m1, m2, m3];
    assert [m0, m1, m2, m3][..3] == [m0, m1, m2];
    assert [m0, m1, m2][..2] == [m0, m1];
    assert [m0, m1][..1] == [m0];
    assert [m0][..0] == [];
    assert HomeShare(m0, Points) == 3 && AwayShare(m0, Points) == 0;
    assert HomeShare(m1, Points) == 3 && AwayShare(m1, Points) == 0;
    assert HomeShare(m2, Points) == 3 && AwayShare(m2, Points) == 0;
    assert AgainstOf([], a, b, Points) == 0 && AgainstOf([], b, a, Points) == 0;
    assert AgainstOf([], a, c, Points) == 0 && AgainstOf([], c, a, Points) == 0;
    assert AgainstOf([], b, c, Points) == 0 && AgainstOf([], c, b, Points) == 0;
    assert AgainstOf([m0], a, b, Points) == 3;
    assert AgainstOf([m0], b, a, Points) == 0;
    assert AgainstOf([m0], a, c, Points) == 0;
    assert AgainstOf([m0], c, a, Points) == 0;
    assert AgainstOf([m0], b, c, Points) == 0;
    assert AgainstOf([m0], c, b, Points) == 0;
    assert AgainstOf([m0, m1], a, b, Points) == 3;
    assert AgainstOf([m0, m1], b, a, Points) == 0;
    assert AgainstOf([m0, m1], a, c, Points) == 3;
    assert AgainstOf([m0, m1], c, a, Points) == 0;
    assert AgainstOf([m0, m1], b, c, Points) == 0;
    assert AgainstOf([m0, m1], c, b, Points) == 0;
    assert AgainstOf([m0, m1, m2], a, b, Points) == 3;
    assert AgainstOf([m0, m1, m2], b, a, Points) == 0;
    assert AgainstOf([m0, m1, m2], a, c, Points) == 3;
    assert AgainstOf([m0, m1, m2], c, a, Points) == 0;
    assert AgainstOf([m0, m1, m2], b, c, Points) == 3;
    assert AgainstOf([m0, m1, m2], c, b, Points) == 0;
    assert AgainstOf([m0, m1, m2, m3], a, b, Points) == 3;
    assert AgainstOf([m0, m1, m2, m3], b, a, Points) == 0;
    assert AgainstOf([m0, m1, m2, m3], a, c, Points) == 3;
    assert AgainstOf([m0, m1, m2, m3], c, a, Points) == 0;
    assert AgainstOf([m0, m1, m2, m3], b, c, Points) == 3;
    assert AgainstOf([m0, m1, m2, m3], c, b, Points) == 0;
    assert AgainstOf([m0, m1, m2, m3, m4], a, b, Points) == 3;
    assert AgainstOf([m0, m1, m2, m3, m4], b, a, Points) == 0;
    assert AgainstOf([m0, m1, m2, m3, m4], a, c, Points) == 3;
    assert AgainstOf([m0, m1, m2, m3, m4], c, a, Points) == 0;
    assert AgainstOf([m0, m1, m2, m3, m4], b, c, Points) == 3;
    assert AgainstOf([m0, m1, m2, m3, m4], c, b, Points) == 0;
    assert AgainstOf([m0, m1, m2, m3, m4, m5], a, b, Points) == 3;
    assert AgainstOf([m0, m1, m2, m3, m4, m5], b, a, Points) == 0;
    assert AgainstOf([m0, m1, m2, m3, m4, m5], a, c, Points) == 3;
    assert AgainstOf([m0, m1, m2, m3, m4, m5], c, a, Points) == 0;
    assert AgainstOf([m0, m1, m2, m3, m4, m5], b, c, Points) == 3;
    assert AgainstOf([m0, m1, m2, m3, m4, m5], c, b, Points) == 0;
  }

  /** Five rows, each ranked above the ones after it. */
  lemma FiveRanked(ra: Row, rb: Row, rc: Row, rd: Row, re: Row)
    requires RanksAbove(ra, rb)
    requires RanksAbove(ra, rc)
    requires RanksAbove(ra, rd)
    requires RanksAbove(ra, re)
    requires RanksAbove(rb, rc)
    requires RanksAbove(rb, rd)
    requires RanksAbove(rb, re)
    requires RanksAbove(rc, rd)
    requires RanksAbove(rc, re)
    requires RanksAbove(rd, re)
    ensures var rank := [ra, rb, rc, rd, re]; forall i, j :: 0 <= i < j < |rank| ==> RanksAbove(rank[i], rank[j])
  {
  }

  /** Five different names make a list without repeats. */
  lemma FiveDistinct(a: string, b: string, c: string, d: string, e: string)
    requires a != b && a != c && a != d && a != e && b != c && b != d && b != e && c != d && c != e && d != e
    ensures Distinct([a, b, c, d, e])
  {
    var names := [a, b, c, d, e];
    forall i, j | 0 <= i < j < |names| ensures names[i] != names[j] {
      if i == 0 {
        assert names[j] in {b, c, d, e};
      } else if i == 1 {
        assert names[j] in {c, d, e};
      } else if i == 2 {
        assert names[j] in {d, e};
      }
    }
  }

  /** A set of five names holds exactly what their list holds. */
  lemma FiveCover(names: set<string>, a: string, b: string, c: string, d: string, e: string)
    requires names == {a, b, c, d, e}
    ensures forall t :: t in names <==> t in [a, b, c, d, e]
  {
    var list := [a, b, c, d, e];
    forall t ensures t in names <==> t in list {
      if t in names {
        if t == a { assert list[0] == t; }
        else if t == b { assert list[1] == t; }
        else if t == c { assert list[2] == t; }
        else if t == d { assert list[3] == t; }
        else { assert list[4] == t; }
      }
    }
  }

  /** Five teams, listed with their reference rows. */
  lemma FiveRows(ms: seq<Match>, a: string, b: string, c: string, d: string, e: string)
    ensures var names, rank := [a, b, c, d, e], [ReferenceRow(ms, a), ReferenceRow(ms, b), ReferenceRow(ms, c), ReferenceRow(ms, d), ReferenceRow(ms, e)];
      |rank| == |names| && forall i :: 0 <= i < |names| ==> rank[i] == ReferenceRow(ms, names[i])
  {
  }

  /** Five teams whose reference rows rank `a` to `e` in that order fill
      the leaderboard in that order. */
  lemma FiveInOrder(ms: seq<Match>, rows: seq<Row>, a: string, b: string, c: string, d: string, e: string)
    requires a != b && a != c && a != d && a != e && b != c && b != d && b != e && c != d && c != e && d != e
    requires IsLeaderboard(ms, rows)
    requires TeamNames(ms) == {a, b, c, d, e}
    requires RanksAbove(ReferenceRow(ms, a), ReferenceRow(ms, b))
    requires RanksAbove(ReferenceRow(ms, a), ReferenceRow(ms, c))
    requires RanksAbove(ReferenceRow(ms, a), ReferenceRow(ms, d))
    requires RanksAbove(ReferenceRow(ms, a), ReferenceRow(ms, e))
    requires RanksAbove(ReferenceRow(ms, b), ReferenceRow(ms, c))
    requires RanksAbove(ReferenceRow(ms, b), ReferenceRow(ms, d))
    requires RanksAbove(ReferenceRow(ms, b), ReferenceRow(ms, e))
    requires RanksAbove(ReferenceRow(ms, c), ReferenceRow(ms, d))
    requires RanksAbove(ReferenceRow(ms, c), ReferenceRow(ms, e))
    requires RanksAbove(ReferenceRow(ms, d), ReferenceRow(ms, e))
    ensures rows == [ReferenceRow(ms, a), ReferenceRow(ms, b), ReferenceRow(ms, c), ReferenceRow(ms, d), ReferenceRow(ms, e)]
  {
    var ra, rb, rc, rd, re := ReferenceRow(ms, a), ReferenceRow(ms, b), ReferenceRow(ms, c), ReferenceRow(ms, d), ReferenceRow(ms, e);
    FiveRanked(ra, rb, rc, rd, re);
    FiveDistinct(a, b, c, d, e);
    FiveCover(TeamNames(ms), a, b, c, d, e);
    FiveRows(ms, a, b, c, d, e);
    StandingsDetermined(ms, rows, [a, b, c, d, e], [ra, rb, rc, rd, re]);
  }

  /** Rows with the totals of the three-team head-to-head schedule rank
      pairwise in the order given. */
  lemma TrioRowsRanked(ra: Row, rb: Row, rc: Row, rd: Row, re: Row)
    requires ra.points == rb.points == rc.points == 6 && rd.points == 3 && re.points == 0
    requires H2HPoints(ra, rb.name) == 3 && H2HPoints(rb, ra.name) == 0
    requires H2HPoints(ra, rc.name) == 3 && H2HPoints(rc, ra.name) == 0
    requires H2HPoints(rb, rc.name) == 3 && H2HPoints(rc, rb.name) == 0
    ensures RanksAbove(ra, rb) && RanksAbove(ra, rc) && RanksAbove(ra, rd) && RanksAbove(ra, re)
    ensures RanksAbove(rb, rc) && RanksAbove(rb, rd) && RanksAbove(rb, re)
    ensures RanksAbove(rc, rd) && RanksAbove(rc, re) && RanksAbove(rd, re)
  {
  }

  /** Any list of matches with the sums of the three-team head-to-head
      schedule ranks `a` to `e` in that order: the three sides level on
      points are split by what they took from each other. */
  lemma HeadToHeadTrioRanks(ms: seq<Match>, rows: seq<Row>, a: string, b: string, c: string, d: string, e: string)
    requires a != b && a != c && a != d && a != e && b != c && b != d && b != e && c != d && c != e && d != e
    requires IsLeaderboard(ms, rows) && TeamNames(ms) == {a, b, c, d, e}
    requires StatOf(ms, a, Points) == 6 && StatOf(ms, b, Points) == 6 && StatOf(ms, c, Points) == 6
    requires StatOf(ms, d, Points) == 3 && StatOf(ms, e, Points) == 0
    requires AgainstOf(ms, a, b, Points) == 3 && AgainstOf(ms, b, a, Points) == 0
    requires AgainstOf(ms, a, c, Points) == 3 && AgainstOf(ms, c, a, Points) == 0
    requires AgainstOf(ms, b, c, Points) == 3 && AgainstOf(ms, c, b, Points) == 0
    ensures Names(rows) == [a, b, c, d, e]
    ensures rows[0].points == rows[1].points == rows[2].points == 6
    ensures rows[3].points == 3 && rows[4].points == 0
    ensures H2HPoints(rows[0], b) == 3 && H2HPoints(rows[0], c) == 3
    ensures H2HPoints(rows[1], a) == 0 && H2HPoints(rows[1], c) == 3
    ensures H2HPoints(rows[2], a) == 0 && H2HPoints(rows[2], b) == 0
  {
    RowValues(ms, a, b);
    RowValues(ms, a, c);
    RowValues(ms, b, a);
    RowValues(ms, b, c);
    RowValues(ms, c, a);
    RowValues(ms, c, b);
    RowValues(ms, d, a);
    RowValues(ms, e, a);
    TrioRowsRanked(ReferenceRow(ms, a), ReferenceRow(ms, b), ReferenceRow(ms, c), ReferenceRow(ms, d), ReferenceRow(ms, e));
    FiveInOrder(ms, rows, a, b, c, d, e);
    assert Names(rows) == [rows[0].name, rows[1].name, rows[2].name, rows[3].name, rows[4].name];
  }

  /** Three sides level on points: the one that beat both others first,
      then the one that beat the third. */
  lemma HeadToHeadTrioDecides(a: string, b: string, c: string, d: string, e: string, rows: seq<Row>)
    requires a != b && a != c && a != d && a != e && b != c && b != d && b != e && c != d && c != e && d != e
    requires IsLeaderboard(HeadToHeadTrioSchedule(a, b, c, d, e), rows)
    ensures Names(rows) == [a, b, c, d, e]
    ensures rows[0].points == rows[1].points == rows[2].points == 6
    ensures rows[3].points == 3 && rows[4].points == 0
    ensures H2HPoints(rows[0], b) == 3 && H2HPoints(rows[0], c) == 3
    ensures H2HPoints(rows[1], a) == 0 && H2HPoints(rows[1], c) == 3
    ensures H2HPoints(rows[2], a) == 0 && H2HPoints(rows[2], b) == 0
  {
    HeadToHeadTrioPoints(a, b, c, d, e);
    HeadToHeadTrioRecords(a, b, c, d, e);
    HeadToHeadTrioRanks(HeadToHeadTrioSchedule(a, b, c, d, e), rows, a, b, c, d, e);
  }

  // ---------------------------------------------------------------------
  // A cycle of results: the comparator is not a strict order

  /** `a` beats `b`, `b` beats `c`, `c` beats `a`, each by one goal. */
  function CycleSchedule(a: string, b: string, c: string): seq<Match> {
    [Result(a, b, 1, 0), Result(b, c, 1, 0), Result(c, a, 1, 0)]
  }

  lemma CycleValues(a: string, b: string, c: string)
    requires a != b && a != c && b != c
    ensures var ms := CycleSchedule(a, b, c);
      && StatOf(ms, a, Points) == 3 && StatOf(ms, b, Points) == 3 && StatOf(ms, c, Points) == 3
      && StatOf(ms, a, GoalsFor) == 1 && StatOf(ms, b, GoalsFor) == 1 && StatOf(ms, c, GoalsFor) == 1
      && StatOf(ms, a, GoalsAgainst) == 1 && StatOf(ms, b, GoalsAgainst) == 1 && StatOf(ms, c, GoalsAgainst) == 1
      && AgainstOf(ms, a, b, Points) == 3 && AgainstOf(ms, b, a, Points) == 0
      && AgainstOf(ms, b, c, Points) == 3 && AgainstOf(ms, c, b, Points) == 0
      && AgainstOf(ms, c, a, Points) == 3 && AgainstOf(ms, a, c, Points) == 0
      && TeamNames(ms) == {a, b, c}
  {
    var ms := CycleSchedule(a, b, c);
    var m0, m1, m2 := ms[0], ms[1], ms[2];
    assert ms[..2] == [m0, m1] && [m0, m1][..1] == [m0] && [m0][..0] == [];
    assert HomeShare(m0, Points) == 3 && AwayShare(m0, Points) == 0;
    assert HomeShare(m1, Points) == 3 && AwayShare(m1, Points) == 0;
    assert HomeShare(m2, Points) == 3 && AwayShare(m2, Points) == 0;
    assert StatOf([m0], a, Points) == StatOf([], a, Points) + 3;
    assert StatOf([m0], b, Points) == StatOf([], b, Points);
    assert StatOf([m0], c, Points) == StatOf([], c, Points);
    assert StatOf([m0], a, GoalsFor) == StatOf([], a, GoalsFor) + 1;
    assert StatOf([m0], b, GoalsFor) == StatOf([], b, GoalsFor);
    assert StatOf([m0], c, GoalsFor) == StatOf([], c, GoalsFor);
    assert StatOf([m0], a, GoalsAgainst) == StatOf([], a, GoalsAgainst);
    assert StatOf([m0], b, GoalsAgainst) == StatOf([], b, GoalsAgainst) + 1;
    assert StatOf([m0], c, GoalsAgainst) == StatOf([], c, GoalsAgainst);
    assert StatOf([m0, m1], a, Points) == 3 && StatOf([m0, m1], b, Points) == 3 && StatOf([m0, m1], c, Points) == 0;
    assert StatOf([m0, m1], a, GoalsFor) == 1 && StatOf([m0, m1], b, GoalsFor) == 1 && StatOf([m0, m1], c, GoalsFor) == 0;
    assert StatOf([m0, m1], a, GoalsAgainst) == 0 && StatOf([m0, m1], b, GoalsAgainst) == 1;
    assert StatOf([m0, m1], c, GoalsAgainst) == 1;
    assert AgainstOf([m0], a, b, Points) == AgainstOf([], a, b, Points) + 3;
    assert AgainstOf([m0], b, a, Points) == AgainstOf([], b, a, Points);
    assert AgainstOf([m0], b, c, Points) == AgainstOf([], b, c, Points);
    assert AgainstOf([m0], c, b, Points) == AgainstOf([], c, b, Points);
    assert AgainstOf([m0], c, a, Points) == AgainstOf([], c, a, Points);
    assert AgainstOf([m0], a, c, Points) == AgainstOf([], a, c, Points);
    assert AgainstOf([m0, m1], a, b, Points) == 3 && AgainstOf([m0, m1], b, a, Points) == 0;
    assert AgainstOf([m0, m1], b, c, Points) == 3 && AgainstOf([m0, m1], c, b, Points) == 0;
    assert AgainstOf([m0, m1], c, a, Points) == 0 && AgainstOf([m0, m1], a, c, Points) == 0;
    assert TeamNames([m0]) == {a, b};
    assert TeamNames([m0, m1]) == {a, b, c};
  }

  /** Rows level on points, goal difference and goals, each having beaten
      the next round the cycle, each rank above the next round the cycle. */
  lemma CycleRowsRanked(ra: Row, rb: Row, rc: Row)
    requires ra.points == rb.points == rc.points
    requires ra.gd == rb.gd == rc.gd && ra.gf == rb.gf == rc.gf
    requires H2HPoints(ra, rb.name) == 3 && H2HPoints(rb, ra.name) == 0
    requires H2HPoints(rb, rc.name) == 3 && H2HPoints(rc, rb.name) == 0
    requires H2HPoints(rc, ra.name) == 3 && H2HPoints(ra, rc.name) == 0
    ensures RanksAbove(ra, rb) && RanksAbove(rb, rc) && RanksAbove(rc, ra)
    ensures Compare(ra, rb) < 0 && Compare(rb, rc) < 0 && Compare(rc, ra) < 0
  {
    CompareMeaning(ra, rb);
    CompareMeaning(rb, rc);
    CompareMeaning(rc, ra);
  }

  /** The reference rows of three different teams, in any order, are
      standings for a schedule naming just those teams. */
  lemma ThreeStandings(ms: seq<Match>, a: string, b: string, c: string)
    requires a != b && a != c && b != c
    requires TeamNames(ms) == {a, b, c}
    ensures IsStandings(ms, [ReferenceRow(ms, a), ReferenceRow(ms, b), ReferenceRow(ms, c)])
  {
    var rows := [ReferenceRow(ms, a), ReferenceRow(ms, b), ReferenceRow(ms, c)];
    ThreeNames(rows, a, b, c);
  }

  /** Three rows each ranked above the next are ranked adjacent pair by adjacent pair. */
  lemma ThreeAdjacent(ra: Row, rb: Row, rc: Row)
    requires RanksAbove(ra, rb) && RanksAbove(rb, rc)
    ensures var rows := [ra, rb, rc]; forall k :: 0 <= k < |rows| - 1 ==> RanksAbove(rows[k], rows[k + 1])
  {
  }

  /** Any list of matches with the sums of the cycle ranks each side above
      the next round the cycle. */
  lemma CycleRanks(ms: seq<Match>, a: string, b: string, c: string)
    requires StatOf(ms, a, Points) == 3 && StatOf(ms, b, Points) == 3 && StatOf(ms, c, Points) == 3
    requires StatOf(ms, a, GoalsFor) == 1 && StatOf(ms, b, GoalsFor) == 1 && StatOf(ms, c, GoalsFor) == 1
    requires StatOf(ms, a, GoalsAgainst) == 1 && StatOf(ms, b, GoalsAgainst) == 1 && StatOf(ms, c, GoalsAgainst) == 1
    requires AgainstOf(ms, a, b, Points) == 3 && AgainstOf(ms, b, a, Points) == 0
    requires AgainstOf(ms, b, c, Points) == 3 && AgainstOf(ms, c, b, Points) == 0
    requires AgainstOf(ms, c, a, Points) == 3 && AgainstOf(ms, a, c, Points) == 0
    ensures RanksAbove(ReferenceRow(ms, a), ReferenceRow(ms, b))
    ensures RanksAbove(ReferenceRow(ms, b), ReferenceRow(ms, c))
    ensures RanksAbove(ReferenceRow(ms, c), ReferenceRow(ms, a))
  {
    RowValues(ms, a, b);
    RowValues(ms, b, c);
    RowValues(ms, c, a);
    RowValues(ms, a, c);
    RowValues(ms, b, a);
    RowValues(ms, c, b);
    CycleRowsRanked(ReferenceRow(ms, a), ReferenceRow(ms, b), ReferenceRow(ms, c));
  }

  /** Three teams whose reference rows rank each above the next one: those
      rows in that order are a leaderboard. */
  lemma ThreeLeaderboard(ms: seq<Match>, a: string, b: string, c: string)
    requires a != b && a != c && b != c
    requires TeamNames(ms) == {a, b, c}
    requires RanksAbove(ReferenceRow(ms, a), ReferenceRow(ms, b))
    requires RanksAbove(ReferenceRow(ms, b), ReferenceRow(ms, c))
    ensures IsLeaderboard(ms, [ReferenceRow(ms, a), ReferenceRow(ms, b), ReferenceRow(ms, c)])
  {
    ThreeStandings(ms, a, b, c);
    ThreeAdjacent(ReferenceRow(ms, a), ReferenceRow(ms, b), ReferenceRow(ms, c));
  }

  /** When three teams rank each above the next round a cycle, two
      rotations of their rows are both leaderboards: which one the service
      returns depends on how the sort visits the rows. */
  lemma RotationsAreLeaderboards(ms: seq<Match>, a: string, b: string, c: string)
    requires a != b && a != c && b != c
    requires TeamNames(ms) == {a, b, c}
    requires RanksAbove(ReferenceRow(ms, a), ReferenceRow(ms, b))
    requires RanksAbove(ReferenceRow(ms, b), ReferenceRow(ms, c))
    requires RanksAbove(ReferenceRow(ms, c), ReferenceRow(ms, a))
    ensures var ra, rb, rc := ReferenceRow(ms, a), ReferenceRow(ms, b), ReferenceRow(ms, c);
      && IsLeaderboard(ms, [ra, rb, rc]) && IsLeaderboard(ms, [rb, rc, ra])
      && [ra, rb, rc] != [rb, rc, ra]
  {
    var ra, rb, rc := ReferenceRow(ms, a), ReferenceRow(ms, b), ReferenceRow(ms, c);
    ThreeLeaderboard(ms, a, b, c);
    ThreeLeaderboard(ms, b, c, a);
    assert [ra, rb, rc][0].name != [rb, rc, ra][0].name;
  }

  /** A cycle of one-goal wins: every side ranks above the next one round
      the cycle, and the schedule has more than one leaderboard. */
  lemma CycleNotDetermined(a: string, b: string, c: string)
    requires a != b && a != c && b != c
    ensures var ms := CycleSchedule(a, b, c);
      var ra, rb, rc := ReferenceRow(ms, a), ReferenceRow(ms, b), ReferenceRow(ms, c);
      && RanksAbove(ra, rb) && RanksAbove(rb, rc) && RanksAbove(rc, ra)
      && IsLeaderboard(ms, [ra, rb, rc]) && IsLeaderboard(ms, [rb, rc, ra])
      && [ra, rb, rc] != [rb, rc, ra]
  {
    CycleValues(a, b, c);
    CycleRanks(CycleSchedule(a, b, c), a, b, c);
    RotationsAreLeaderboards(CycleSchedule(a, b, c), a, b, c);
  }

  // ---------------------------------------------------------------------
  // The suite's single-fixture cases, with its own team names

  /** The order of the names the suite's cases compare. */
  lemma SuiteNames()
    ensures NameBefore("Argentina", "Brazil") && !NameBefore("Brazil", "Argentina")
    ensures NameBefore("TeamA", "TeamB") && !NameBefore("TeamB", "TeamA")
  {
    NameCompareMeansBefore("Argentina", "Brazil");
    NameCompareMeansBefore("Brazil", "Argentina");
    NameCompareMeansBefore("TeamA", "TeamB");
    NameCompareMeansBefore("TeamB", "TeamA");
  }

  /** Brazil has a flag code and France has none. */
  lemma SuiteFlags()
    ensures FlagCode("Brazil") == Some("BR") && FlagCode("France") == None
  {
  }

  /** Brazil 2-1 France: Brazil first on three points with its flag code,
      France second without one. */
  lemma BrazilBeatsFrance(rows: seq<Row>)
    requires IsLeaderboard([Result("Brazil", "France", 2, 1)], rows)
    ensures Names(rows) == ["Brazil", "France"]
    ensures rows[0].mp == 1 && rows[0].gf == 2 && rows[0].ga == 1 && rows[0].gd == 1 && rows[0].points == 3
    ensures rows[0].flag == Some("BR") && rows[1].flag == None
  {
    Win("Brazil", "France", 2, 1, rows);
    TwoNames(rows, "Brazil", "France");
    SuiteFlags();
  }

  /** Ten goals to nine: the winner's row carries both totals and the difference of one. */
  lemma HighScoring(rows: seq<Row>)
    requires IsLeaderboard([Result("TeamA", "TeamB", 10, 9)], rows)
    ensures |rows| == 2 && rows[0].name == "TeamA" && rows[0].gf == 10 && rows[0].ga == 9 && rows[0].gd == 1
  {
    Win("TeamA", "TeamB", 10, 9, rows);
  }

  /** Brazil 1-1 Argentina: level on everything, Argentina goes first by name. */
  lemma Alphabetical(rows: seq<Row>)
    requires IsLeaderboard([Result("Brazil", "Argentina", 1, 1)], rows)
    ensures Names(rows) == ["Argentina", "Brazil"]
    ensures rows[0].points == rows[1].points == 1
  {
    SuiteNames();
    Draw("Brazil", "Argentina", 1, rows);
    TwoNames(rows, "Argentina", "Brazil");
  }

  /** An unplayed TeamA v TeamB: two rows of zeros, TeamA first by name. */
  lemma NotYetPlayed(rows: seq<Row>)
    requires IsLeaderboard([Match(0, "", "Stadium", "TeamA", "TeamB", false, 0, 0)], rows)
    ensures Names(rows) == ["TeamA", "TeamB"]
    ensures forall k :: 0 <= k < 2 ==> rows[k].mp == 0 && rows[k].points == 0 && rows[k].gf == 0 && rows[k].ga == 0
  {
    SuiteNames();
    Unplayed("TeamA", "TeamB", rows);
    TwoNames(rows, "TeamA", "TeamB");
  }

  /** An empty schedule gives an empty leaderboard. */
  lemma NoMatches(rows: seq<Row>)
    requires IsLeaderboard([], rows)
    ensures rows == []
  {
    StandingsEmpty(rows);
  }

  // ---------------------------------------------------------------------
  // Driving the service

  /** A fresh service given one fixture hands it back with the flag fields added. */
  method SetAndGet() returns (retrieved: seq<AnnotatedMatch>)
    ensures |retrieved| == 1
    ensures retrieved[0].fixture.homeTeam == "Brazil" && retrieved[0].fixture.awayTeam == "France"
    ensures retrieved[0].homeTeamFlag == Some("BR") && retrieved[0].awayTeamFlag == None
  {
    var service := new LeagueService();
    service.SetMatches([Result("Brazil", "France", 2, 1)]);
    retrieved := service.GetMatches();
  }

  /** A fresh service given a 2-1 home win ranks the home side first,
      each row with its team's flag code. */
  method BasicStats(home: string, away: string) returns (leaderboard: seq<Row>)
    requires home != away
    ensures Names(leaderboard) == [home, away]
    ensures leaderboard[0].mp == 1 && leaderboard[0].gf == 2 && leaderboard[0].ga == 1
    ensures leaderboard[0].points == 3 && leaderboard[0].gd == 1 && leaderboard[1].points == 0
    ensures leaderboard[0].flag == FlagCode(home) && leaderboard[1].flag == FlagCode(away)
  {
    var service := new LeagueService();
    service.SetMatches([Result(home, away, 2, 1)]);
    leaderboard := service.GetLeaderboard();
    Win(home, away, 2, 1, leaderboard);
    TwoNames(leaderboard, home, away);
  }

  /** Setting a new schedule replaces the old one: the leaderboard is that of the last schedule. */
  method Replace() returns (leaderboard: seq<Row>)
    ensures leaderboard == []
  {
    var service := new LeagueService();
    service.SetMatches([Result("Brazil", "France", 2, 1)]);
    service.SetMatches([]);
    leaderboard := service.GetLeaderboard();
    NoMatches(leaderboard);
  }
}
