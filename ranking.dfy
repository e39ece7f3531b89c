/** The leaderboard rows, the tie-break comparator of `sortLeaderboard`,
    and the in-place sort that orders the rows by it. */
module Ranking {
  import opened Fixtures
  import opened Tally

  /** One leaderboard row: the team's accumulator spread out, its flag code,
      and its goal difference. */
  datatype Row = Row(
    name: string,
    flag: Option<string>,
    mp: int,
    gf: int,
    ga: int,
    points: int,
    headToHead: map<string, HeadToHead>,
    gd: int)

  /** The row `Object.keys(teams).map(...)` makes for one team. */
  function ToRow(name: string, s: TeamStats): (r: Row)
    ensures r.gd == r.gf - r.ga
    ensures r.name == name && r.flag == FlagCode(name)
    ensures r.mp == s.mp && r.gf == s.gf && r.ga == s.ga && r.points == s.points && r.headToHead == s.headToHead
  {
    Row(name, FlagCode(name), s.mp, s.gf, s.ga, s.points, s.headToHead, s.gf - s.ga)
  }

  /** One row per key of the dictionary, in key order. */
  function BuildRows(teams: Teams): (rows: seq<Row>)
    requires forall k :: k in teams.order ==> k in teams.stats
    ensures |rows| == |teams.order|
    ensures forall i :: 0 <= i < |rows| ==> rows[i] == ToRow(teams.order[i], teams.stats[teams.order[i]])
  {
    seq(|teams.order|, i requires 0 <= i < |teams.order| => ToRow(teams.order[i], teams.stats[teams.order[i]]))
  }

  // ---------------------------------------------------------------------
  // Names

  /** Three-way comparison of names, character by character (negative:
      `a` first, zero: equal, positive: `b` first). */
  function NameCompare(a: string, b: string): (r: int)
    ensures -1 <= r <= 1
  {
    if a == [] && b == [] then 0
    else if a == [] then -1
    else if b == [] then 1
    else if a[0] < b[0] then -1
    else if b[0] < a[0] then 1
    else NameCompare(a[1..], b[1..])
  }

  /** Lexicographic order stated directly: a proper prefix comes first,
      otherwise the first differing character decides. */
  ghost predicate NameBefore(a: string, b: string) {
    || (|a| < |b| && a == b[..|a|])
    || exists k :: 0 <= k < |a| && k < |b| && a[..k] == b[..k] && a[k] < b[k]
  }

  lemma {:induction false} NameCompareAntisymmetric(a: string, b: string)
    ensures NameCompare(a, b) == -NameCompare(b, a)
  {
    if a != [] && b != [] && a[0] == b[0] {
      NameCompareAntisymmetric(a[1..], b[1..]);
    }
  }

  lemma {:induction false} NameCompareZero(a: string, b: string)
    ensures NameCompare(a, b) == 0 <==> a == b
  {
    if a != [] && b != [] && a[0] == b[0] {
      NameCompareZero(a[1..], b[1..]);
      assert a == [a[0]] + a[1..] && b == [b[0]] + b[1..];
    }
  }

  /** The character-by-character comparison is the lexicographic order. */
  lemma {:induction false} NameCompareMeansBefore(a: string, b: string)
    ensures NameCompare(a, b) < 0 <==> NameBefore(a, b)
  {
    if a == [] || b == [] {
    } else if a[0] < b[0] {
      assert a[..0] == b[..0];
    } else if b[0] < a[0] {
      if NameBefore(a, b) {
        if |a| < |b| && a == b[..|a|] {
          assert a[0] == b[0];
        } else {
          var k :| 0 <= k < |a| && k < |b| && a[..k] == b[..k] && a[k] < b[k];
          if k > 0 { assert a[0] == a[..k][0]; }
        }
      }
    } else {
      var a', b' := a[1..], b[1..];
      NameCompareMeansBefore(a', b');
      if NameBefore(a', b') {
        if |a'| < |b'| && a' == b'[..|a'|] {
          assert a == b[..|a|] by {
            assert a == [a[0]] + a' && b[..|a|] == [b[0]] + b'[..|a'|];
          }
        } else {
          var k :| 0 <= k < |a'| && k < |b'| && a'[..k] == b'[..k] && a'[k] < b'[k];
          assert a[..k + 1] == b[..k + 1] by {
            assert a[..k + 1] == [a[0]] + a'[..k] && b[..k + 1] == [b[0]] + b'[..k];
          }
          assert a[k + 1] < b[k + 1];
        }
      }
      if NameBefore(a, b) {
        if |a| < |b| && a == b[..|a|] {
          assert a' == b'[..|a'|];
        } else {
          var k :| 0 <= k < |a| && k < |b| && a[..k] == b[..k] && a[k] < b[k];
          assert k > 0;
          assert a'[..k - 1] == a[..k][1..] == b[..k][1..] == b'[..k - 1];
          assert a'[k - 1] < b'[k - 1];
        }
      }
    }
  }

  // ---------------------------------------------------------------------
  // The comparator

  /** `teams[a.name].headToHead[b.name]?.points || 0`: the points `row`'s
      team took from `opponent`, zero if they never met. */
  function H2HPoints(row: Row, opponent: string): int {
    Lookup(row.headToHead, opponent).points
  }

  /** The comparator passed to `sort`: negative puts `a` first. Points,
      then the points each took from the other, then goal difference, then
      goals for, all higher first; then the name, ascending. */
  function Compare(a: Row, b: Row): int {
    if b.points != a.points then b.points - a.points
    else
      var headToHeadA, headToHeadB := H2HPoints(a, b.name), H2HPoints(b, a.name);
      if headToHeadA != headToHeadB then headToHeadB - headToHeadA
      else if b.gd != a.gd then b.gd - a.gd
      else if b.gf != a.gf then b.gf - a.gf
      else NameCompare(a.name, b.name)
  }

  /** The tie-break chain stated as a ranking rule: `a` ranks above `b`
      when the first criterion on which they differ favours `a`. */
  ghost predicate RanksAbove(a: Row, b: Row) {
    var hA, hB := H2HPoints(a, b.name), H2HPoints(b, a.name);
    || a.points > b.points
    || (a.points == b.points && hA > hB)
    || (a.points == b.points && hA == hB && a.gd > b.gd)
    || (a.points == b.points && hA == hB && a.gd == b.gd && a.gf > b.gf)
    || (a.points == b.points && hA == hB && a.gd == b.gd && a.gf == b.gf && NameBefore(a.name, b.name))
  }

  /** The comparator puts `a` first exactly when `a` ranks above `b`, and
      it calls two rows level only when they agree on every criterion,
      the name included. */
  lemma CompareMeaning(a: Row, b: Row)
    ensures Compare(a, b) < 0 <==> RanksAbove(a, b)
    ensures Compare(a, b) == 0 <==>
      && a.points == b.points && H2HPoints(a, b.name) == H2HPoints(b, a.name)
      && a.gd == b.gd && a.gf == b.gf && a.name == b.name
  {
    NameCompareMeansBefore(a.name, b.name);
    NameCompareZero(a.name, b.name);
  }

  /** Swapping the arguments negates the result. */
  lemma CompareAntisymmetric(a: Row, b: Row)
    ensures Compare(a, b) == -Compare(b, a)
  {
    NameCompareAntisymmetric(a.name, b.name);
  }

  /** Rows of different teams never compare level, so of two such rows
      exactly one ranks above the other. */
  lemma CompareTotal(a: Row, b: Row)
    requires a.name != b.name
    ensures Compare(a, b) != 0
    ensures RanksAbove(a, b) != RanksAbove(b, a)
  {
    CompareMeaning(a, b);
    CompareMeaning(b, a);
    CompareAntisymmetric(a, b);
  }

  // ---------------------------------------------------------------------
  // Sorting

  /** Every row is at least as high as the next one. */
  ghost predicate Ordered(s: seq<Row>) {
    forall k :: 0 <= k < |s| - 1 ==> Compare(s[k], s[k + 1]) <= 0
  }

  ghost predicate DistinctNames(s: seq<Row>) {
    forall i, j :: 0 <= i < j < |s| ==> s[i].name != s[j].name
  }

  /** Ordered rows of different teams: every row ranks strictly above the next. */
  lemma OrderedIsStrict(s: seq<Row>)
    requires Ordered(s) && DistinctNames(s)
    ensures forall k :: 0 <= k < |s| - 1 ==> Compare(s[k], s[k + 1]) < 0 && RanksAbove(s[k], s[k + 1])
  {
    forall k | 0 <= k < |s| - 1
      ensures Compare(s[k], s[k + 1]) < 0 && RanksAbove(s[k], s[k + 1])
    {
      CompareTotal(s[k], s[k + 1]);
      CompareMeaning(s[k], s[k + 1]);
    }
  }

  /** Where the comparator happens to be transitive on the rows (no
      head-to-head cycle), adjacent order is the full order. */
  lemma {:induction false} OrderedEverywhere(s: seq<Row>)
    requires Ordered(s)
    requires forall i, j, k ::
      0 <= i < |s| && 0 <= j < |s| && 0 <= k < |s| && Compare(s[i], s[j]) <= 0 && Compare(s[j], s[k]) <= 0
      ==> Compare(s[i], s[k]) <= 0
    ensures forall i, j :: 0 <= i < j < |s| ==> Compare(s[i], s[j]) <= 0
  {
    forall i, j | 0 <= i < j < |s|
      ensures Compare(s[i], s[j]) <= 0
    {
      var k := i + 1;
      while k < j
        invariant i < k <= j
        invariant Compare(s[i], s[k]) <= 0
      {
        assert Compare(s[k], s[k + 1]) <= 0;
        k := k + 1;
      }
    }
  }

  /** `sortLeaderboard`: sorts the rows in place with the comparator, by
      insertion (each new row is swapped leftwards past every row that
      should come after it). Only the comparator's antisymmetry is used. */
  method SortLeaderboard(a: array<Row>)
    modifies a
    ensures multiset(a[..]) == old(multiset(a[..]))
    ensures Ordered(a[..])
  {
    var i := 0;
    while i < a.Length
      invariant 0 <= i <= a.Length
      invariant forall k :: 0 <= k < i - 1 ==> Compare(a[k], a[k + 1]) <= 0
      invariant multiset(a[..]) == old(multiset(a[..]))
    {
      InsertRow(a, i);
      i := i + 1;
    }
  }

  /** Where the insertion of row `i` stands with the row at `j`: the rows
      before `j` and those after it up to `i` are each in order, the row at
      `j` ranks above the one after it, and the rows around it are in order. */
  ghost predicate Inserting(s: seq<Row>, j: int, i: int) {
    && 0 <= j <= i < |s|
    && (forall k :: 0 <= k < j - 1 ==> Compare(s[k], s[k + 1]) <= 0)
    && (forall k :: j < k < i ==> Compare(s[k], s[k + 1]) <= 0)
    && (j < i ==> Compare(s[j], s[j + 1]) < 0)
    && (0 < j < i ==> Compare(s[j - 1], s[j + 1]) <= 0)
  }

  /** The sequence with the neighbours at `j` and `j + 1` exchanged. */
  function Swapped(s: seq<Row>, j: int): (t: seq<Row>)
    requires 0 <= j < |s| - 1
    ensures |t| == |s| && t[j] == s[j + 1] && t[j + 1] == s[j]
    ensures forall k :: 0 <= k < |s| && k != j && k != j + 1 ==> t[k] == s[k]
    ensures multiset(t) == multiset(s)
  {
    s[j := s[j + 1]][j + 1 := s[j]]
  }

  lemma InsertingStart(s: seq<Row>, i: int)
    requires 0 <= i < |s|
    requires forall k :: 0 <= k < i - 1 ==> Compare(s[k], s[k + 1]) <= 0
    ensures Inserting(s, i, i)
  {
  }

  /** Swapping a row leftwards past one that ranks below it keeps the
      insertion invariant, one place further left. */
  lemma InsertingStep(s: seq<Row>, j: int, i: int)
    requires Inserting(s, j, i) && 0 < j && Compare(s[j - 1], s[j]) > 0
    ensures Inserting(Swapped(s, j - 1), j - 1, i)
  {
    CompareAntisymmetric(s[j - 1], s[j]);
  }

  /** Once the row at `j` no longer ranks above its left neighbour, the
      first `i + 1` rows are in order. */
  lemma InsertingDone(s: seq<Row>, j: int, i: int)
    requires Inserting(s, j, i) && (j == 0 || Compare(s[j - 1], s[j]) <= 0)
    ensures forall k :: 0 <= k < i ==> Compare(s[k], s[k + 1]) <= 0
  {
  }

  /** One insertion step: with the first `i` rows in order, moves row `i`
      leftwards until the first `i + 1` rows are in order. */
  method InsertRow(a: array<Row>, i: int)
    requires 0 <= i < a.Length
    requires forall k :: 0 <= k < i - 1 ==> Compare(a[k], a[k + 1]) <= 0
    modifies a
    ensures forall k :: 0 <= k < i ==> Compare(a[k], a[k + 1]) <= 0
    ensures multiset(a[..]) == old(multiset(a[..]))
    ensures a[i + 1..] == old(a[i + 1..])
  {
    InsertingStart(a[..], i);
    var j := i;
    while 0 < j && Compare(a[j - 1], a[j]) > 0
      invariant Inserting(a[..], j, i)
      invariant multiset(a[..]) == old(multiset(a[..]))
      invariant a[i + 1..] == old(a[i + 1..])
    {
      ghost var before := a[..];
      InsertingStep(before, j, i);
      a[j - 1], a[j] := a[j], a[j - 1];
      assert a[..] == Swapped(before, j - 1);
      j := j - 1;
    }
    InsertingDone(a[..], j, i);
  }
}
