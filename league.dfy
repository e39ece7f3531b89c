/** The `LeagueService` object: the stored match list, `getMatches`, and
    `getLeaderboard`, which runs the accumulation loop, builds one row per
    team and sorts the rows in place. */
module League {
  import opened Fixtures
  import opened Tally
  import opened Ranking
  import opened Aggregates

  /** The row the leaderboard should hold for team `t` after the matches `ms`. */
  function ReferenceRow(ms: seq<Match>, t: string): (r: Row)
    ensures r.name == t && r.gd == r.gf - r.ga
  {
    ToRow(t, ReferenceStats(ms, t))
  }

  /** The team names of some rows, in row order. */
  function Names(rows: seq<Row>): (names: seq<string>)
    ensures |names| == |rows| && forall i :: 0 <= i < |rows| ==> names[i] == rows[i].name
  {
    seq(|rows|, i requires 0 <= i < |rows| => rows[i].name)
  }

  /** What a leaderboard for `ms` is: one row for every team some match
      names, played or not, and for no other; no team twice; every row the
      reference statistics of its team. */
  ghost predicate IsStandings(ms: seq<Match>, rows: seq<Row>) {
    && DistinctNames(rows)
    && (forall t :: t in TeamNames(ms) <==> t in Names(rows))
    && (forall i :: 0 <= i < |rows| ==> rows[i] == ReferenceRow(ms, rows[i].name))
  }

  class LeagueService {
    /** The stored schedule. */
    var matches: seq<Match>

    constructor ()
      ensures matches == []
    {
      matches := [];
    }

    /** `setMatches`: replaces the stored schedule. */
    method SetMatches(ms: seq<Match>)
      modifies this
      ensures matches == ms
    {
      matches := ms;
    }

    /** `getMatches`: the stored schedule, each match with the flags of
      its two teams; stripping the flags gives the schedule back. */
    method GetMatches() returns (r: seq<AnnotatedMatch>)
      ensures |r| == |matches|
      ensures forall i :: 0 <= i < |r| ==>
        r[i].fixture == matches[i] &&
        r[i].homeTeamFlag == FlagCode(matches[i].homeTeam) && r[i].awayTeamFlag == FlagCode(matches[i].awayTeam)
      ensures StripFlags(r) == matches
    {
      r := Annotate(matches);
      AnnotateRoundTrip(matches);
    }

    /** `getLeaderboard`: the standings for the stored schedule, every row
      ranked strictly above the next by the tie-break chain. */
    method GetLeaderboard() returns (leaderboard: seq<Row>)
      ensures IsLeaderboard(matches, leaderboard)
      ensures forall k :: 0 <= k < |leaderboard| - 1 ==> Compare(leaderboard[k], leaderboard[k + 1]) < 0
    {
      var ms := matches;
      var teams := NoTeams;
      var i := 0;
      while i < |ms|
        invariant 0 <= i <= |ms|
        invariant teams == TallyOf(ms[..i])
      {
        var m := ms[i];
        TallyPrefix(ms, i);
        teams := InitializeTeam(teams, m.homeTeam);
        teams := InitializeTeam(teams, m.awayTeam);
        if m.matchPlayed {
          var p := CalculateMatchPoints(m.homeTeamScore, m.awayTeamScore);
          var s := teams.stats;
          s := s[m.homeTeam := UpdateTeamStats(s[m.homeTeam], m.homeTeamScore, m.awayTeamScore, p.homePoints)];
          s := s[m.awayTeam := UpdateTeamStats(s[m.awayTeam], m.awayTeamScore, m.homeTeamScore, p.awayPoints)];
          s := s[m.homeTeam := UpdateHeadToHeadStats(s[m.homeTeam], m.awayTeam, m.homeTeamScore, m.awayTeamScore, p.homePoints)];
          s := s[m.awayTeam := UpdateHeadToHeadStats(s[m.awayTeam], m.homeTeam, m.awayTeamScore, m.homeTeamScore, p.awayPoints)];
          teams := Teams(teams.order, s);
        }
        i := i + 1;
      }
      assert ms[..i] == ms;
      TallyRows(ms);
      var rows := BuildRows(teams);
      leaderboard := Rank(rows);
      StandingsReordered(ms, rows, leaderboard);
      OrderedIsStrict(leaderboard);
    }
  }

  /** `sortLeaderboard` on a fresh array holding the rows. */
  method Rank(rows: seq<Row>) returns (sorted: seq<Row>)
    ensures multiset(sorted) == multiset(rows)
    ensures Ordered(sorted)
  {
    var a := new Row[|rows|](k requires 0 <= k < |rows| => rows[k]);
    assert a[..] == rows;
    SortLeaderboard(a);
    sorted := a[..];
  }

  /** One more match is one more step of the loop. */
  lemma TallyPrefix(ms: seq<Match>, i: int)
    requires 0 <= i < |ms|
    ensures TallyOf(ms[..i + 1]) == Step(TallyOf(ms[..i]), ms[i])
  {
    assert ms[..i + 1][..i] == ms[..i];
  }

  /** Rows built from a dictionary that lists each key once name each team once. */
  lemma RowsDistinct(teams: Teams)
    requires WellFormed(teams)
    ensures DistinctNames(BuildRows(teams))
  {
    var rows := BuildRows(teams);
    forall i, j | 0 <= i < j < |rows| ensures rows[i].name != rows[j].name {
      assert rows[i].name == teams.order[i] && rows[j].name == teams.order[j];
    }
  }

  /** Every row in dictionary key order is the reference row of a named team. */
  lemma RowsAreReference(ms: seq<Match>)
    requires WellFormed(TallyOf(ms))
    ensures forall i :: 0 <= i < |BuildRows(TallyOf(ms))| ==>
      var x := BuildRows(TallyOf(ms))[i];
      x.name in TeamNames(ms) && x == ReferenceRow(ms, x.name)
  {
    TallyMatchesReference(ms);
    var teams := TallyOf(ms);
    var rows := BuildRows(teams);
    forall i | 0 <= i < |rows| ensures rows[i].name in TeamNames(ms) && rows[i] == ReferenceRow(ms, rows[i].name) {
      var t := teams.order[i];
      assert t in teams.stats && teams.stats[t] == ReferenceStats(ms, t);
    }
  }

  /** Every named team has a row in dictionary key order. */
  lemma RowsCover(ms: seq<Match>)
    requires WellFormed(TallyOf(ms))
    ensures forall t :: t in TeamNames(ms) ==> t in Names(BuildRows(TallyOf(ms)))
  {
    TallyKeys(ms);
    var teams := TallyOf(ms);
    var names := Names(BuildRows(teams));
    forall t | t in TeamNames(ms) ensures t in names {
      var k :| 0 <= k < |teams.order| && teams.order[k] == t;
      assert names[k] == t;
    }
  }

  /** The rows in dictionary key order are the standings. */
  lemma TallyRows(ms: seq<Match>)
    ensures WellFormed(TallyOf(ms)) && IsStandings(ms, BuildRows(TallyOf(ms)))
  {
    TallyKeys(ms);
    RowsDistinct(TallyOf(ms));
    RowsAreReference(ms);
    RowsCover(ms);
  }

  /** Standings stay standings under any reordering of the rows. */
  lemma StandingsReordered(ms: seq<Match>, rows: seq<Row>, leaderboard: seq<Row>)
    requires IsStandings(ms, rows)
    requires multiset(leaderboard) == multiset(rows)
    ensures IsStandings(ms, leaderboard)
  {
    forall i | 0 <= i < |leaderboard|
      ensures leaderboard[i] in rows
    {
      assert leaderboard[i] in multiset(leaderboard);
    }
    forall t ensures t in TeamNames(ms) <==> t in Names(leaderboard) {
      if t in TeamNames(ms) {
        var k :| 0 <= k < |rows| && Names(rows)[k] == t;
        assert rows[k] in multiset(leaderboard);
        var k' :| 0 <= k' < |leaderboard| && leaderboard[k'] == rows[k];
        assert Names(leaderboard)[k'] == t;
      }
      if t in Names(leaderboard) {
        var k :| 0 <= k < |leaderboard| && Names(leaderboard)[k] == t;
        var k' :| 0 <= k' < |rows| && rows[k'] == leaderboard[k];
        assert Names(rows)[k'] == t;
      }
    }
    forall i, j | 0 <= i < j < |leaderboard| ensures leaderboard[i].name != leaderboard[j].name {
      if leaderboard[i].name == leaderboard[j].name {
        TwoCopies(leaderboard, i, j);
        DistinctOnce(rows, leaderboard[i]);
      }
    }
  }

  /** Two equal entries at different positions count twice. */
  lemma TwoCopies(s: seq<Row>, i: int, j: int)
    requires 0 <= i < j < |s| && s[i] == s[j]
    ensures multiset(s)[s[i]] >= 2
  {
    assert s == s[..j] + [s[j]] + s[j + 1..];
    assert s[i] in s[..j];
  }

  /** In rows of different teams no row occurs twice. */
  lemma {:induction false} DistinctOnce(s: seq<Row>, x: Row)
    requires DistinctNames(s)
    ensures multiset(s)[x] <= 1
  {
    if s != [] {
      var rest := s[1..];
      assert DistinctNames(rest) by {
        forall i, j | 0 <= i < j < |rest| ensures rest[i].name != rest[j].name {
          assert rest[i] == s[i + 1] && rest[j] == s[j + 1];
        }
      }
      DistinctOnce(rest, x);
      assert s == [s[0]] + rest;
    }
  }

  // ---------------------------------------------------------------------
  // What every leaderboard satisfies

  /** A leaderboard as `getLeaderboard` returns it: the standings, each row
      ranked above the next. */
  ghost predicate IsLeaderboard(ms: seq<Match>, rows: seq<Row>) {
    && IsStandings(ms, rows)
    && (forall k :: 0 <= k < |rows| - 1 ==> RanksAbove(rows[k], rows[k + 1]))
  }

  /** The names of rows with distinct names, as a set, are as many as the rows. */
  lemma {:induction false} NameCount(rows: seq<Row>)
    requires DistinctNames(rows)
    ensures |set t | t in Names(rows)| == |rows|
  {
    if rows != [] {
      var rest := rows[1..];
      assert DistinctNames(rest) by {
        forall i, j | 0 <= i < j < |rest| ensures rest[i].name != rest[j].name {
          assert rest[i] == rows[i + 1] && rest[j] == rows[j + 1];
        }
      }
      NameCount(rest);
      var all, tail := set t | t in Names(rows), set t | t in Names(rest);
      assert all == {rows[0].name} + tail by {
        forall t | t in all ensures t in {rows[0].name} + tail {
          var k :| 0 <= k < |rows| && Names(rows)[k] == t;
          if k > 0 { assert Names(rest)[k - 1] == t; }
        }
        forall t | t in tail ensures t in all {
          var k :| 0 <= k < |rest| && Names(rest)[k] == t;
          assert Names(rows)[k + 1] == t;
        }
      }
      assert rows[0].name !in tail;
    }
  }

  /** There are exactly as many rows as teams named in the schedule. */
  lemma StandingsSize(ms: seq<Match>, rows: seq<Row>)
    requires IsStandings(ms, rows)
    ensures |rows| == |TeamNames(ms)|
  {
    NameCount(rows);
    assert (set t | t in Names(rows)) == TeamNames(ms);
  }

  /** No matches, no rows. */
  lemma StandingsEmpty(rows: seq<Row>)
    requires IsStandings([], rows)
    ensures rows == []
  {
    StandingsSize([], rows);
  }

  /** Row `x`'s statistic `s`. */
  function RowStat(x: Row, s: Stat): int {
    match s
    case MatchesPlayed => x.mp
    case GoalsFor => x.gf
    case GoalsAgainst => x.ga
    case Points => x.points
  }

  /** One statistic of every row, in row order. */
  function Column(rows: seq<Row>, s: Stat): (r: seq<int>)
    ensures |r| == |rows| && forall i :: 0 <= i < |rows| ==> r[i] == RowStat(rows[i], s)
  {
    seq(|rows|, i requires 0 <= i < |rows| => RowStat(rows[i], s))
  }

  /** The row names list each named team once and no other. */
  lemma StandingsNames(ms: seq<Match>, rows: seq<Row>)
    requires IsStandings(ms, rows)
    ensures Distinct(Names(rows)) && Covers(Names(rows), ms)
  {
    var names := Names(rows);
    forall i, j | 0 <= i < j < |names| ensures names[i] != names[j] {
      assert names[i] == rows[i].name && names[j] == rows[j].name;
    }
  }

  /** Each row's statistic is the reference total of its team. */
  lemma StandingsColumn(ms: seq<Match>, rows: seq<Row>, s: Stat)
    requires IsStandings(ms, rows)
    ensures Column(rows, s) == TotalsColumn(ms, Names(rows), s)
  {
    var lhs, rhs := Column(rows, s), TotalsColumn(ms, Names(rows), s);
    forall i | 0 <= i < |rows| ensures lhs[i] == rhs[i] {
      assert rows[i] == ReferenceRow(ms, rows[i].name);
    }
  }

  /** Goals are conserved over the leaderboard: the goals scored by all
      teams equal the goals conceded by all teams; every played match
      counts two appearances and hands out two points, or three when it
      is decided. */
  lemma StandingsBalance(ms: seq<Match>, rows: seq<Row>)
    requires IsStandings(ms, rows)
    ensures Sum(Column(rows, GoalsFor)) == Sum(Column(rows, GoalsAgainst))
    ensures Sum(Column(rows, MatchesPlayed)) == 2 * |Played(ms)|
    ensures Sum(Column(rows, Points)) == 2 * |Played(ms)| + Decided(ms)
  {
    StandingsNames(ms, rows);
    StandingsColumn(ms, rows, GoalsFor);
    StandingsColumn(ms, rows, GoalsAgainst);
    StandingsColumn(ms, rows, MatchesPlayed);
    StandingsColumn(ms, rows, Points);
    GoalsConserved(ms, Names(rows));
  }

  /** Row `x`'s head-to-head statistic `s` against each row's team, a
      missing record counting as zero. */
  function RecordsAgainst(x: Row, rows: seq<Row>, s: Stat): (r: seq<int>)
    ensures |r| == |rows| && forall j :: 0 <= j < |rows| ==> r[j] == OfRecord(Lookup(x.headToHead, rows[j].name), s)
  {
    seq(|rows|, j requires 0 <= j < |rows| => OfRecord(Lookup(x.headToHead, rows[j].name), s))
  }

  /** A team's goals for, goals against and points are the sums of its
      head-to-head records against all the teams on the leaderboard. */
  lemma StandingsHeadToHead(ms: seq<Match>, rows: seq<Row>, i: int, s: Stat)
    requires IsStandings(ms, rows) && 0 <= i < |rows| && s != MatchesPlayed
    ensures Sum(RecordsAgainst(rows[i], rows, s)) == RowStat(rows[i], s)
  {
    var t := rows[i].name;
    assert rows[i] == ReferenceRow(ms, t);
    var lhs, rhs := RecordsAgainst(rows[i], rows, s), RecordColumn(ms, t, Names(rows), s);
    forall j | 0 <= j < |rows| ensures lhs[j] == rhs[j] {
      ReferenceLookup(ms, t, rows[j].name);
    }
    assert lhs == rhs;
    StandingsNames(ms, rows);
    HeadToHeadSums(ms, t, Names(rows), s);
    assert RowStat(rows[i], s) == Of(TotalsOf(ms, t), s);
  }

  /** Two teams' records against each other mirror: what one scored the
      other conceded. */
  lemma StandingsMirror(ms: seq<Match>, rows: seq<Row>, i: int, j: int)
    requires IsStandings(ms, rows) && 0 <= i < |rows| && 0 <= j < |rows|
    ensures Lookup(rows[i].headToHead, rows[j].name).gf == Lookup(rows[j].headToHead, rows[i].name).ga
    ensures Lookup(rows[i].headToHead, rows[j].name).ga == Lookup(rows[j].headToHead, rows[i].name).gf
  {
    var t, o := rows[i].name, rows[j].name;
    assert rows[i] == ReferenceRow(ms, t) && rows[j] == ReferenceRow(ms, o);
    ReferenceLookup(ms, t, o);
    ReferenceLookup(ms, o, t);
    HeadToHeadMirror(ms, t, o);
  }

  /** A team that has only unplayed fixtures has an all-zero row and no
      head-to-head records. */
  lemma StandingsOnlyUnplayed(ms: seq<Match>, rows: seq<Row>, i: int)
    requires IsStandings(ms, rows) && 0 <= i < |rows| && rows[i].name !in TeamNames(Played(ms))
    ensures rows[i].mp == 0 && rows[i].gf == 0 && rows[i].ga == 0 && rows[i].points == 0 && rows[i].gd == 0
    ensures rows[i].headToHead == map[]
  {
    assert rows[i] == ReferenceRow(ms, rows[i].name);
    OnlyUnplayedIsNew(ms, rows[i].name);
  }

  /** Without a team drawn against itself, `mp` counts the played fixtures
      the team appears in. */
  lemma StandingsMatchesPlayed(ms: seq<Match>, rows: seq<Row>, i: int)
    requires IsStandings(ms, rows) && 0 <= i < |rows|
    requires forall k :: 0 <= k < |ms| ==> ms[k].homeTeam != ms[k].awayTeam
    ensures rows[i].mp == Appearances(ms, rows[i].name)
  {
    assert rows[i] == ReferenceRow(ms, rows[i].name);
    MatchesPlayedCount(ms, rows[i].name);
  }

  // ---------------------------------------------------------------------
  // When the ranking is a strict order, the leaderboard is determined

  /** Where `x` stands in `e`. */
  function IndexOf<T(==)>(e: seq<T>, x: T): (p: nat)
    requires x in e
    ensures p < |e| && e[p] == x
  {
    if e[0] == x then 0 else 1 + IndexOf(e[1..], x)
  }

  /** Strictly increasing positions that hit every slot of `0..n` are `0, 1, ..., n-1`. */
  lemma {:induction false} PositionsAreIdentity(ps: seq<int>, n: nat)
    requires forall k :: 0 <= k < |ps| ==> 0 <= ps[k] < n
    requires forall k :: 0 <= k < |ps| - 1 ==> ps[k] < ps[k + 1]
    requires forall v :: 0 <= v < n ==> v in ps
    ensures |ps| == n && forall k :: 0 <= k < |ps| ==> ps[k] == k
  {
    assert forall i, j :: 0 <= i <= j < |ps| ==> ps[i] + (j - i) <= ps[j] by {
      forall i, j | 0 <= i <= j < |ps| ensures ps[i] + (j - i) <= ps[j] {
        var k := i;
        while k < j
          invariant i <= k <= j && ps[i] + (k - i) <= ps[k]
        {
          k := k + 1;
        }
      }
    }
    var k := 0;
    while k < |ps|
      invariant 0 <= k <= |ps|
      invariant forall j :: 0 <= j < k ==> ps[j] == j
    {
      assert ps[0] + k <= ps[k] < n;
      assert k in ps;
      var k' :| 0 <= k' < |ps| && ps[k'] == k;
      assert k <= k';
      k := k + 1;
    }
    assert |ps| < n ==> |ps| in ps;
    if |ps| > 0 {
      assert 0 <= ps[0] && ps[0] + (|ps| - 1) <= ps[|ps| - 1] < n;
    }
  }

  /** Of two rows of a strict ranking `rank`, the one ranked above the
      other comes first in it. */
  lemma PlaceInRanking(rank: seq<Row>, p: int, q: int)
    requires 0 <= p < |rank| && 0 <= q < |rank| && rank[p].name != rank[q].name
    requires forall i, j :: 0 <= i < j < |rank| ==> RanksAbove(rank[i], rank[j])
    requires RanksAbove(rank[p], rank[q])
    ensures p < q
  {
    CompareTotal(rank[p], rank[q]);
  }

  /** Rows of different teams, each ranked above the next, holding
      exactly the rows of a strict ranking, are that ranking. */
  lemma RankingDetermined(rows: seq<Row>, rank: seq<Row>)
    requires DistinctNames(rows) && forall k :: 0 <= k < |rows| - 1 ==> RanksAbove(rows[k], rows[k + 1])
    requires forall i, j :: 0 <= i < j < |rank| ==> RanksAbove(rank[i], rank[j]) && rank[i].name != rank[j].name
    requires forall x :: x in rows <==> x in rank
    ensures rows == rank
  {
    var ps := seq(|rows|, k requires 0 <= k < |rows| => IndexOf(rank, rows[k]));
    forall k | 0 <= k < |rows| - 1 ensures ps[k] < ps[k + 1] {
      PlaceInRanking(rank, ps[k], ps[k + 1]);
    }
    forall v | 0 <= v < |rank| ensures v in ps {
      var k := IndexOf(rows, rank[v]);
      assert ps[k] == v;
    }
    PositionsAreIdentity(ps, |rank|);
    forall k | 0 <= k < |rows| ensures rows[k] == rank[k] {
      assert rows[k] == rank[ps[k]];
    }
  }

  /** If the reference rows of the teams listed in `e`, written out as
      `rank`, rank strictly one above the other in that order, every
      leaderboard lists them in that order: the sort then has only one
      possible outcome. */
  lemma StandingsDetermined(ms: seq<Match>, rows: seq<Row>, e: seq<string>, rank: seq<Row>)
    requires IsLeaderboard(ms, rows)
    requires Distinct(e) && forall t :: t in TeamNames(ms) <==> t in e
    requires |rank| == |e| && forall i :: 0 <= i < |e| ==> rank[i] == ReferenceRow(ms, e[i])
    requires forall i, j :: 0 <= i < j < |rank| ==> RanksAbove(rank[i], rank[j])
    ensures rows == rank
  {
    forall x ensures x in rows <==> x in rank {
      if x in rows {
        var k := IndexOf(rows, x);
        assert Names(rows)[k] == x.name;
        var p := IndexOf(e, x.name);
        assert rank[p] == x;
      }
      if x in rank {
        var p := IndexOf(rank, x);
        assert e[p] in Names(rows);
        var k := IndexOf(Names(rows), e[p]);
        assert rows[k] == x;
      }
    }
    RankingDetermined(rows, rank);
  }

  // ---------------------------------------------------------------------
  // Independence from the order of the schedule

  /** Reordering the schedule changes no team's reference row. */
  lemma ReorderedRows(ms: seq<Match>, ms': seq<Match>)
    requires multiset(ms) == multiset(ms')
    ensures TeamNames(ms) == TeamNames(ms')
    ensures forall t :: ReferenceRow(ms, t) == ReferenceRow(ms', t)
  {
    forall t ensures ReferenceRow(ms, t) == ReferenceRow(ms', t) {
      ReorderedReference(ms, ms', t);
    }
    ReorderedReference(ms, ms', "");
  }

  /** The schedule in any other order has exactly the same leaderboards. */
  lemma LeaderboardReordered(ms: seq<Match>, ms': seq<Match>, rows: seq<Row>)
    requires multiset(ms) == multiset(ms')
    ensures IsStandings(ms, rows) <==> IsStandings(ms', rows)
    ensures IsLeaderboard(ms, rows) <==> IsLeaderboard(ms', rows)
  {
    ReorderedRows(ms, ms');
  }

  /** When a leaderboard ranks every row strictly above all the rows after
      it, the same schedule in any other order has that leaderboard and no
      other: the result of `getLeaderboard` does not depend on match order. */
  lemma ReorderedDetermined(ms: seq<Match>, ms': seq<Match>, rows: seq<Row>, rows': seq<Row>)
    requires multiset(ms) == multiset(ms')
    requires IsLeaderboard(ms, rows) && IsLeaderboard(ms', rows')
    requires forall i, j :: 0 <= i < j < |rows| ==> RanksAbove(rows[i], rows[j])
    ensures rows' == rows
  {
    LeaderboardReordered(ms, ms', rows');
    var e := Names(rows);
    assert Distinct(e) by {
      forall i, j | 0 <= i < j < |e| ensures e[i] != e[j] {
        assert e[i] == rows[i].name && e[j] == rows[j].name;
      }
    }
    StandingsDetermined(ms, rows', e, rows);
  }
}

