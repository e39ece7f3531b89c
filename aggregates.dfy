/** Whole-league facts about the accumulators `getLeaderboard` builds: what
    sums over all teams come to, how the head-to-head records mirror each
    other and add up to the totals, and what unplayed fixtures contribute.
    Sums are taken one statistic at a time. */
module Aggregates {
  import opened Fixtures
  import opened Tally

  /** Each name occurs at most once. */
  ghost predicate Distinct(names: seq<string>) {
    forall i, j :: 0 <= i < j < |names| ==> names[i] != names[j]
  }

  /** Every team some match names is in `names`. */
  ghost predicate Covers(names: seq<string>, ms: seq<Match>) {
    forall t :: t in TeamNames(ms) ==> t in names
  }

  lemma DistinctTail(names: seq<string>)
    requires Distinct(names) && names != []
    ensures Distinct(names[1..]) && names[0] !in names[1..]
  {
  }

  /** The four counted statistics. */
  datatype Stat = MatchesPlayed | GoalsFor | GoalsAgainst | Points

  /** One statistic of some totals. */
  function Of(x: Totals, s: Stat): int {
    match s
    case MatchesPlayed => x.mp
    case GoalsFor => x.gf
    case GoalsAgainst => x.ga
    case Points => x.points
  }

  /** One statistic of a head-to-head record, which counts no matches. */
  function OfRecord(h: HeadToHead, s: Stat): int {
    match s
    case MatchesPlayed => 0
    case GoalsFor => h.gf
    case GoalsAgainst => h.ga
    case Points => h.points
  }

  // ---------------------------------------------------------------------
  // What one match hands out

  /** What a match adds to its home side (nothing if unplayed). */
  function HomeShare(m: Match, s: Stat): int {
    if !m.matchPlayed then 0
    else
      match s
      case MatchesPlayed => 1
      case GoalsFor => m.homeTeamScore
      case GoalsAgainst => m.awayTeamScore
      case Points => CalculateMatchPoints(m.homeTeamScore, m.awayTeamScore).homePoints
  }

  /** What a match adds to its away side (nothing if unplayed). */
  function AwayShare(m: Match, s: Stat): int {
    if !m.matchPlayed then 0
    else
      match s
      case MatchesPlayed => 1
      case GoalsFor => m.awayTeamScore
      case GoalsAgainst => m.homeTeamScore
      case Points => CalculateMatchPoints(m.homeTeamScore, m.awayTeamScore).awayPoints
  }

  /** A team's contribution from one match is the home share if it is the
      home side plus the away share if it is the away side. */
  lemma ContributionShares(m: Match, t: string, s: Stat)
    ensures Of(Contribution(m, t), s) ==
      (if m.homeTeam == t then HomeShare(m, s) else 0) + (if m.awayTeam == t then AwayShare(m, s) else 0)
  {
  }

  /** The record a team gets against one opponent from one match is the
      share of each side it plays on against that opponent. */
  lemma RecordShares(m: Match, t: string, o: string, s: Stat)
    requires s != MatchesPlayed
    ensures OfRecord(H2HContribution(m, t, o), s) ==
      (if m.homeTeam == t && m.awayTeam == o then HomeShare(m, s) else 0) +
      (if m.awayTeam == t && m.homeTeam == o then AwayShare(m, s) else 0)
  {
  }

  // ---------------------------------------------------------------------
  // Sums over a list of teams

  function Sum(xs: seq<int>): int
    decreases |xs|
  {
    if xs == [] then 0 else xs[0] + Sum(xs[1..])
  }

  /** Two columns added row by row. */
  function Add(xs: seq<int>, ys: seq<int>): (r: seq<int>)
    requires |xs| == |ys|
    ensures |r| == |xs| && forall i :: 0 <= i < |r| ==> r[i] == xs[i] + ys[i]
  {
    seq(|xs|, i requires 0 <= i < |xs| => xs[i] + ys[i])
  }

  /** The sum of two columns added row by row is the sum of their sums. */
  lemma {:induction false} SumAdd(xs: seq<int>, ys: seq<int>)
    requires |xs| == |ys|
    ensures Sum(Add(xs, ys)) == Sum(xs) + Sum(ys)
    decreases |xs|
  {
    if xs != [] {
      SumAdd(xs[1..], ys[1..]);
      assert Add(xs, ys)[1..] == Add(xs[1..], ys[1..]);
    }
  }

  /** `v` in the row of team `x`, nothing elsewhere. */
  function Indicator(names: seq<string>, x: string, v: int): (r: seq<int>)
    ensures |r| == |names| && forall i :: 0 <= i < |r| ==> r[i] == if names[i] == x then v else 0
  {
    seq(|names|, i requires 0 <= i < |names| => if names[i] == x then v else 0)
  }

  /** Over distinct names, a value entered in one team's row sums to that
      value if the team is listed, and to nothing otherwise. */
  lemma {:induction false} SumIndicator(names: seq<string>, x: string, v: int)
    requires Distinct(names)
    ensures Sum(Indicator(names, x, v)) == if x in names then v else 0
    decreases |names|
  {
    if names != [] {
      DistinctTail(names);
      SumIndicator(names[1..], x, v);
      assert Indicator(names, x, v)[1..] == Indicator(names[1..], x, v);
    }
  }

  /** A column of zeros sums to zero. */
  lemma {:induction false} SumZeros(xs: seq<int>)
    requires forall i :: 0 <= i < |xs| ==> xs[i] == 0
    ensures Sum(xs) == 0
    decreases |xs|
  {
    if xs != [] {
      SumZeros(xs[1..]);
    }
  }

  // ---------------------------------------------------------------------
  // Totals over all teams

  /** The played matches, in order. */
  function Played(ms: seq<Match>): seq<Match>
    decreases |ms|
  {
    if ms == [] then []
    else Played(ms[..|ms| - 1]) + (if ms[|ms| - 1].matchPlayed then [ms[|ms| - 1]] else [])
  }

  /** How many played matches ended with a winner. */
  function Decided(ms: seq<Match>): nat
    decreases |ms|
  {
    if ms == [] then 0
    else
      var m := ms[|ms| - 1];
      Decided(ms[..|ms| - 1]) + (if m.matchPlayed && m.homeTeamScore != m.awayTeamScore then 1 else 0)
  }

  /** Both shares of every match, added up. */
  function MatchTotal(ms: seq<Match>, s: Stat): int
    decreases |ms|
  {
    if ms == [] then 0
    else var m := ms[|ms| - 1]; MatchTotal(ms[..|ms| - 1], s) + HomeShare(m, s) + AwayShare(m, s)
  }

  /** Over the whole league, two appearances per played match, as many goals
      conceded as scored, and three points per decided match and two per draw. */
  lemma {:induction false} MatchTotalBalance(ms: seq<Match>)
    ensures MatchTotal(ms, MatchesPlayed) == 2 * |Played(ms)|
    ensures MatchTotal(ms, GoalsFor) == MatchTotal(ms, GoalsAgainst)
    ensures MatchTotal(ms, Points) == 2 * |Played(ms)| + Decided(ms)
    decreases |ms|
  {
    if ms != [] {
      MatchTotalBalance(ms[..|ms| - 1]);
    }
  }

  /** One statistic of the teams `names`, one row each. */
  function TotalsColumn(ms: seq<Match>, names: seq<string>, s: Stat): (r: seq<int>)
    ensures |r| == |names| && forall i :: 0 <= i < |r| ==> r[i] == Of(TotalsOf(ms, names[i]), s)
  {
    seq(|names|, i requires 0 <= i < |names| => Of(TotalsOf(ms, names[i]), s))
  }

  /** One statistic, added up over the teams `names`. */
  function SumTotals(ms: seq<Match>, names: seq<string>, s: Stat): int {
    Sum(TotalsColumn(ms, names, s))
  }

  /** One more match adds, row by row, its home share to the home side and
      its away share to the away side. */
  lemma TotalsColumnStep(ms: seq<Match>, names: seq<string>, s: Stat)
    requires ms != []
    ensures var m := ms[|ms| - 1];
      TotalsColumn(ms, names, s) ==
        Add(TotalsColumn(ms[..|ms| - 1], names, s),
            Add(Indicator(names, m.homeTeam, HomeShare(m, s)), Indicator(names, m.awayTeam, AwayShare(m, s))))
  {
    var front, m := ms[..|ms| - 1], ms[|ms| - 1];
    var lhs := TotalsColumn(ms, names, s);
    var rhs := Add(TotalsColumn(front, names, s),
      Add(Indicator(names, m.homeTeam, HomeShare(m, s)), Indicator(names, m.awayTeam, AwayShare(m, s))));
    forall i | 0 <= i < |names| ensures lhs[i] == rhs[i] {
      TotalsRowStep(ms, names[i], s);
    }
  }

  /** One more match adds to one team's statistic its share of that match. */
  lemma TotalsRowStep(ms: seq<Match>, t: string, s: Stat)
    requires ms != []
    ensures var m := ms[|ms| - 1];
      Of(TotalsOf(ms, t), s) ==
        Of(TotalsOf(ms[..|ms| - 1], t), s) +
        ((if t == m.homeTeam then HomeShare(m, s) else 0) + (if t == m.awayTeam then AwayShare(m, s) else 0))
  {
    var m := ms[|ms| - 1];
    assert TotalsOf(ms, t) == TotalsOf(ms[..|ms| - 1], t).Plus(Contribution(m, t));
    ContributionShares(m, t, s);
  }

  /** Adding up one statistic of all teams, each once, gives the match total. */
  lemma {:induction false} SumTotalsIsMatchTotal(ms: seq<Match>, names: seq<string>, s: Stat)
    requires Distinct(names) && Covers(names, ms)
    ensures SumTotals(ms, names, s) == MatchTotal(ms, s)
    decreases |ms|
  {
    if ms == [] {
      SumZeros(TotalsColumn(ms, names, s));
    } else {
      var front, m := ms[..|ms| - 1], ms[|ms| - 1];
      assert Covers(names, front);
      SumTotalsIsMatchTotal(front, names, s);
      TotalsColumnStep(ms, names, s);
      var home, away := Indicator(names, m.homeTeam, HomeShare(m, s)), Indicator(names, m.awayTeam, AwayShare(m, s));
      SumAdd(TotalsColumn(front, names, s), Add(home, away));
      SumAdd(home, away);
      assert m.homeTeam in TeamNames(ms) && m.awayTeam in TeamNames(ms);
      SumIndicator(names, m.homeTeam, HomeShare(m, s));
      SumIndicator(names, m.awayTeam, AwayShare(m, s));
    }
  }

  /** Goals are conserved: over all teams, goals scored equal goals conceded;
      appearances and points add up as the matches hand them out. */
  lemma GoalsConserved(ms: seq<Match>, names: seq<string>)
    requires Distinct(names) && Covers(names, ms)
    ensures SumTotals(ms, names, GoalsFor) == SumTotals(ms, names, GoalsAgainst)
    ensures SumTotals(ms, names, MatchesPlayed) == 2 * |Played(ms)|
    ensures SumTotals(ms, names, Points) == 2 * |Played(ms)| + Decided(ms)
  {
    SumTotalsIsMatchTotal(ms, names, GoalsFor);
    SumTotalsIsMatchTotal(ms, names, GoalsAgainst);
    SumTotalsIsMatchTotal(ms, names, MatchesPlayed);
    SumTotalsIsMatchTotal(ms, names, Points);
    MatchTotalBalance(ms);
  }

  // ---------------------------------------------------------------------
  // Head-to-head records

  /** A record and its mirror image: what `t` scored against `o` is what
      `o` conceded against `t`, and the other way round. */
  lemma {:induction false} HeadToHeadMirror(ms: seq<Match>, t: string, o: string)
    ensures H2HOf(ms, t, o).gf == H2HOf(ms, o, t).ga
    ensures H2HOf(ms, t, o).ga == H2HOf(ms, o, t).gf
    decreases |ms|
  {
    if ms != [] {
      var m := ms[|ms| - 1];
      HeadToHeadMirror(ms[..|ms| - 1], t, o);
      RecordShares(m, t, o, GoalsFor);
      RecordShares(m, o, t, GoalsAgainst);
      RecordShares(m, t, o, GoalsAgainst);
      RecordShares(m, o, t, GoalsFor);
    }
  }

  /** `t` has met `o` exactly when `o` has met `t`. */
  lemma {:induction false} OpponentsSymmetric(ms: seq<Match>, t: string, o: string)
    ensures o in Opponents(ms, t) <==> t in Opponents(ms, o)
    decreases |ms|
  {
    if ms != [] {
      OpponentsSymmetric(ms[..|ms| - 1], t, o);
    }
  }

  /** One statistic of the records of `t` against the teams `names`, one row each. */
  function RecordColumn(ms: seq<Match>, t: string, names: seq<string>, s: Stat): (r: seq<int>)
    ensures |r| == |names| && forall i :: 0 <= i < |r| ==> r[i] == OfRecord(H2HOf(ms, t, names[i]), s)
  {
    seq(|names|, i requires 0 <= i < |names| => OfRecord(H2HOf(ms, t, names[i]), s))
  }

  /** One statistic of the records of `t`, added up over the teams `names`. */
  function SumRecords(ms: seq<Match>, t: string, names: seq<string>, s: Stat): int {
    Sum(RecordColumn(ms, t, names, s))
  }

  lemma RecordColumnStep(ms: seq<Match>, t: string, names: seq<string>, s: Stat)
    requires ms != [] && s != MatchesPlayed
    ensures var m := ms[|ms| - 1];
      RecordColumn(ms, t, names, s) ==
        Add(RecordColumn(ms[..|ms| - 1], t, names, s),
            Add(Indicator(names, m.awayTeam, if m.homeTeam == t then HomeShare(m, s) else 0),
                Indicator(names, m.homeTeam, if m.awayTeam == t then AwayShare(m, s) else 0)))
  {
    var front, m := ms[..|ms| - 1], ms[|ms| - 1];
    var lhs := RecordColumn(ms, t, names, s);
    var rhs := Add(RecordColumn(front, t, names, s),
      Add(Indicator(names, m.awayTeam, if m.homeTeam == t then HomeShare(m, s) else 0),
          Indicator(names, m.homeTeam, if m.awayTeam == t then AwayShare(m, s) else 0)));
    forall i | 0 <= i < |names| ensures lhs[i] == rhs[i] {
      RecordRowStep(ms, t, names[i], s);
    }
  }

  /** One more match adds to one record its share of that match. */
  lemma RecordRowStep(ms: seq<Match>, t: string, o: string, s: Stat)
    requires ms != [] && s != MatchesPlayed
    ensures var m := ms[|ms| - 1];
      OfRecord(H2HOf(ms, t, o), s) ==
        OfRecord(H2HOf(ms[..|ms| - 1], t, o), s) +
        ((if o == m.awayTeam then (if m.homeTeam == t then HomeShare(m, s) else 0) else 0) +
         (if o == m.homeTeam then (if m.awayTeam == t then AwayShare(m, s) else 0) else 0))
  {
    var m := ms[|ms| - 1];
    assert H2HOf(ms, t, o) == H2HOf(ms[..|ms| - 1], t, o).Plus(H2HContribution(m, t, o));
    RecordShares(m, t, o, s);
  }

  /** A team's points, goals for and goals against are the sums of its
      head-to-head records over all teams. */
  lemma {:induction false} HeadToHeadSums(ms: seq<Match>, t: string, names: seq<string>, s: Stat)
    requires Distinct(names) && Covers(names, ms) && s != MatchesPlayed
    ensures SumRecords(ms, t, names, s) == Of(TotalsOf(ms, t), s)
    decreases |ms|
  {
    if ms == [] {
      SumZeros(RecordColumn(ms, t, names, s));
    } else {
      var front, m := ms[..|ms| - 1], ms[|ms| - 1];
      assert Covers(names, front);
      HeadToHeadSums(front, t, names, s);
      RecordColumnStep(ms, t, names, s);
      var hv := if m.homeTeam == t then HomeShare(m, s) else 0;
      var av := if m.awayTeam == t then AwayShare(m, s) else 0;
      var home, away := Indicator(names, m.awayTeam, hv), Indicator(names, m.homeTeam, av);
      SumAdd(RecordColumn(front, t, names, s), Add(home, away));
      SumAdd(home, away);
      assert m.homeTeam in TeamNames(ms) && m.awayTeam in TeamNames(ms);
      SumIndicator(names, m.awayTeam, hv);
      SumIndicator(names, m.homeTeam, av);
      ContributionShares(m, t, s);
    }
  }

  // ---------------------------------------------------------------------
  // Unplayed fixtures

  lemma PlayedStep(ms: seq<Match>)
    requires ms != []
    ensures ms[|ms| - 1].matchPlayed ==>
      Played(ms) != [] && Played(ms)[..|Played(ms)| - 1] == Played(ms[..|ms| - 1]) &&
      Played(ms)[|Played(ms)| - 1] == ms[|ms| - 1]
    ensures !ms[|ms| - 1].matchPlayed ==> Played(ms) == Played(ms[..|ms| - 1])
  {
  }

  lemma {:induction false} TotalsIgnoreUnplayed(ms: seq<Match>, t: string)
    ensures TotalsOf(ms, t) == TotalsOf(Played(ms), t)
    decreases |ms|
  {
    if ms != [] {
      var front, m := ms[..|ms| - 1], ms[|ms| - 1];
      TotalsIgnoreUnplayed(front, t);
      PlayedStep(ms);
      if m.matchPlayed {
        var p := Played(ms);
        assert TotalsOf(p, t) == TotalsOf(p[..|p| - 1], t).Plus(Contribution(p[|p| - 1], t));
      } else {
        assert Contribution(m, t) == Zero;
      }
    }
  }

  lemma {:induction false} OpponentsIgnoreUnplayed(ms: seq<Match>, t: string)
    ensures Opponents(ms, t) == Opponents(Played(ms), t)
    decreases |ms|
  {
    if ms != [] {
      OpponentsIgnoreUnplayed(ms[..|ms| - 1], t);
      PlayedStep(ms);
    }
  }

  lemma {:induction false} RecordsIgnoreUnplayed(ms: seq<Match>, t: string, o: string, s: Stat)
    ensures OfRecord(H2HOf(ms, t, o), s) == OfRecord(H2HOf(Played(ms), t, o), s)
    decreases |ms|
  {
    if ms != [] {
      var front, m := ms[..|ms| - 1], ms[|ms| - 1];
      RecordsIgnoreUnplayed(front, t, o, s);
      PlayedStep(ms);
      assert H2HOf(ms, t, o) == H2HOf(front, t, o).Plus(H2HContribution(m, t, o));
      if m.matchPlayed {
        var p := Played(ms);
        assert H2HOf(p, t, o) == H2HOf(p[..|p| - 1], t, o).Plus(H2HContribution(p[|p| - 1], t, o));
      } else {
        assert H2HContribution(m, t, o) == NoMeeting;
      }
    }
  }

  /** Unplayed fixtures contribute nothing: dropping them leaves every
      team's accumulator as it is. */
  lemma UnplayedIgnored(ms: seq<Match>, t: string)
    ensures ReferenceStats(ms, t) == ReferenceStats(Played(ms), t)
  {
    TotalsIgnoreUnplayed(ms, t);
    OpponentsIgnoreUnplayed(ms, t);
    forall o | o in Opponents(ms, t)
      ensures H2HOf(ms, t, o) == H2HOf(Played(ms), t, o)
    {
      RecordsIgnoreUnplayed(ms, t, o, GoalsFor);
      RecordsIgnoreUnplayed(ms, t, o, GoalsAgainst);
      RecordsIgnoreUnplayed(ms, t, o, Points);
    }
  }

  /** A team whose fixtures are all unplayed has an all-zero accumulator. */
  lemma OnlyUnplayedIsNew(ms: seq<Match>, t: string)
    requires t !in TeamNames(Played(ms))
    ensures ReferenceStats(ms, t) == NewTeam
  {
    UnplayedIgnored(ms, t);
    UnnamedTeamIsNew(Played(ms), t);
  }

  /** The played matches team `t` took part in. */
  function Appearances(ms: seq<Match>, t: string): nat
    decreases |ms|
  {
    if ms == [] then 0
    else
      var m := ms[|ms| - 1];
      Appearances(ms[..|ms| - 1], t) + (if m.matchPlayed && (m.homeTeam == t || m.awayTeam == t) then 1 else 0)
  }

  /** With no team drawn against itself, a team's matches-played count is
      the number of played matches it took part in. */
  lemma {:induction false} MatchesPlayedCount(ms: seq<Match>, t: string)
    requires forall i :: 0 <= i < |ms| ==> ms[i].homeTeam != ms[i].awayTeam
    ensures TotalsOf(ms, t).mp == Appearances(ms, t)
    decreases |ms|
  {
    if ms != [] {
      MatchesPlayedCount(ms[..|ms| - 1], t);
      assert ms[|ms| - 1].homeTeam != ms[|ms| - 1].awayTeam;
      ContributionShares(ms[|ms| - 1], t, MatchesPlayed);
    }
  }

  // ---------------------------------------------------------------------
  // Independence from the order of the schedule

  /** The schedule without its `i`-th match. */
  function Without(ms: seq<Match>, i: int): (r: seq<Match>)
    requires 0 <= i < |ms|
    ensures |r| == |ms| - 1
  {
    ms[..i] + ms[i + 1..]
  }

  /** Taking out a match other than the last keeps the last at the end. */
  lemma WithoutShape(ms: seq<Match>, i: int)
    requires 0 <= i < |ms| - 1
    ensures var rest := Without(ms, i);
      rest[..|rest| - 1] == Without(ms[..|ms| - 1], i) && rest[|rest| - 1] == ms[|ms| - 1]
  {
    var rest := Without(ms, i);
    assert rest == Without(ms[..|ms| - 1], i) + [ms[|ms| - 1]];
  }

  /** Taking any one match out of the schedule takes out exactly its
      contribution to a team's totals. */
  lemma {:induction false} RemoveTotals(ms: seq<Match>, i: int, t: string)
    requires 0 <= i < |ms|
    ensures TotalsOf(ms, t) == TotalsOf(Without(ms, i), t).Plus(Contribution(ms[i], t))
    decreases |ms|
  {
    if i == |ms| - 1 {
      assert Without(ms, i) == ms[..|ms| - 1];
    } else {
      RemoveTotals(ms[..|ms| - 1], i, t);
      WithoutShape(ms, i);
    }
  }

  /** ... its contribution to one head-to-head record ... */
  lemma {:induction false} RemoveRecord(ms: seq<Match>, i: int, t: string, o: string)
    requires 0 <= i < |ms|
    ensures H2HOf(ms, t, o) == H2HOf(Without(ms, i), t, o).Plus(H2HContribution(ms[i], t, o))
    decreases |ms|
  {
    if i == |ms| - 1 {
      assert Without(ms, i) == ms[..|ms| - 1];
    } else {
      RemoveRecord(ms[..|ms| - 1], i, t, o);
      WithoutShape(ms, i);
    }
  }

  /** ... the opponent it pairs a team with ... */
  lemma {:induction false} RemoveOpponents(ms: seq<Match>, i: int, t: string)
    requires 0 <= i < |ms|
    ensures Opponents(ms, t) == Opponents(Without(ms, i), t) + MetIn(ms[i], t)
    decreases |ms|
  {
    if i == |ms| - 1 {
      assert Without(ms, i) == ms[..|ms| - 1];
    } else {
      RemoveOpponents(ms[..|ms| - 1], i, t);
      WithoutShape(ms, i);
    }
  }

  /** ... and the names it registers. */
  lemma {:induction false} RemoveNames(ms: seq<Match>, i: int)
    requires 0 <= i < |ms|
    ensures TeamNames(ms) == TeamNames(Without(ms, i)) + {ms[i].homeTeam, ms[i].awayTeam}
    decreases |ms|
  {
    if i == |ms| - 1 {
      assert Without(ms, i) == ms[..|ms| - 1];
    } else {
      RemoveNames(ms[..|ms| - 1], i);
      WithoutShape(ms, i);
    }
  }

  /** The last match of `ms` sits somewhere in a reordering `ms'`; without
      it, the two schedules still hold the same matches. */
  lemma FindLast(ms: seq<Match>, ms': seq<Match>) returns (i: int)
    requires ms != [] && multiset(ms) == multiset(ms')
    ensures 0 <= i < |ms'| && ms'[i] == ms[|ms| - 1]
    ensures multiset(ms[..|ms| - 1]) == multiset(Without(ms', i))
  {
    var front, m := ms[..|ms| - 1], ms[|ms| - 1];
    assert ms == front + [m];
    assert m in multiset(ms');
    i :| 0 <= i < |ms'| && ms'[i] == m;
    assert ms' == ms'[..i] + [m] + ms'[i + 1..];
    assert multiset(ms') == multiset(Without(ms', i)) + multiset{m};
    assert multiset(ms) == multiset(front) + multiset{m};
    forall x ensures multiset(front)[x] == multiset(Without(ms', i))[x] {
      assert multiset(ms)[x] == multiset(ms')[x];
    }
  }

  /** Two schedules holding the same matches, in any order, give every team
      the same totals, the same records and the same opponents, and name the
      same teams. */
  lemma {:induction false} ReorderedSums(ms: seq<Match>, ms': seq<Match>, t: string, o: string)
    requires multiset(ms) == multiset(ms')
    ensures TotalsOf(ms, t) == TotalsOf(ms', t)
    ensures H2HOf(ms, t, o) == H2HOf(ms', t, o)
    ensures Opponents(ms, t) == Opponents(ms', t)
    ensures TeamNames(ms) == TeamNames(ms')
    decreases |ms|
  {
    if ms == [] {
      assert |ms'| == |multiset(ms')| == 0;
    } else {
      var i := FindLast(ms, ms');
      ReorderedSums(ms[..|ms| - 1], Without(ms', i), t, o);
      RemoveTotals(ms', i, t);
      RemoveRecord(ms', i, t, o);
      RemoveOpponents(ms', i, t);
      RemoveNames(ms', i);
    }
  }

  /** Reordering the schedule leaves every team's reference accumulator
      and the set of named teams as they are. */
  lemma ReorderedReference(ms: seq<Match>, ms': seq<Match>, t: string)
    requires multiset(ms) == multiset(ms')
    ensures ReferenceStats(ms, t) == ReferenceStats(ms', t)
    ensures TeamNames(ms) == TeamNames(ms')
  {
    ReorderedSums(ms, ms', t, t);
    var h, h' := ReferenceStats(ms, t).headToHead, ReferenceStats(ms', t).headToHead;
    forall o | o in h ensures o in h' && h[o] == h'[o] {
      ReorderedSums(ms, ms', t, o);
    }
    assert h.Keys == h'.Keys;
  }
}
