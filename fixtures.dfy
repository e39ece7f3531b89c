/** Match records as the league service stores them, the team-name to
    country-code table, and the flag annotation that `getMatches` adds. */
module Fixtures {

  datatype Option<T> = None | Some(value: T)

  /** One fixture. The scores are only read when `matchPlayed` holds; for an
      unplayed fixture they are whatever the feed carried (null in practice). */
  datatype Match = Match(
    id: int,
    matchDate: string,
    stadium: string,
    homeTeam: string,
    awayTeam: string,
    matchPlayed: bool,
    homeTeamScore: int,
    awayTeamScore: int)

  /** The service's private `countryCodes` table. */
  const CountryCodes: map<string, string> :=
    map["Brazil" := "BR", "Cameroon" := "CM", "Switzerland" := "CH", "Serbia" := "RS"]

  /** The country code that `getFlagUrl` interpolates into the flag address;
      `None` stands for the `undefined` an unmapped name yields. */
  function FlagCode(teamName: string): (r: Option<string>)
    ensures r.Some? <==> teamName in CountryCodes
    ensures r.Some? ==> r.value == CountryCodes[teamName]
  {
    if teamName in CountryCodes then Some(CountryCodes[teamName]) else None
  }

  /** Exactly the four listed teams have a flag, and no two share a code. */
  lemma FlagCodeTable(t: string, u: string)
    ensures FlagCode(t).Some? <==> t in {"Brazil", "Cameroon", "Switzerland", "Serbia"}
    ensures FlagCode(t).Some? && FlagCode(u) == FlagCode(t) ==> t == u
  {
  }

  /** A fixture together with the two flag fields `getMatches` spreads onto it. */
  datatype AnnotatedMatch = AnnotatedMatch(
    fixture: Match,
    homeTeamFlag: Option<string>,
    awayTeamFlag: Option<string>)

  /** The `map` in `getMatches`: same length, same order, every original
      field kept, the flags of both teams added. */
  function Annotate(ms: seq<Match>): (r: seq<AnnotatedMatch>)
    ensures |r| == |ms|
    ensures forall i :: 0 <= i < |ms| ==>
      && r[i].fixture == ms[i]
      && r[i].homeTeamFlag == FlagCode(ms[i].homeTeam)
      && r[i].awayTeamFlag == FlagCode(ms[i].awayTeam)
  {
    seq(|ms|, i requires 0 <= i < |ms| =>
      AnnotatedMatch(ms[i], FlagCode(ms[i].homeTeam), FlagCode(ms[i].awayTeam)))
  }

  /** Drops the flag fields again. */
  function StripFlags(r: seq<AnnotatedMatch>): (ms: seq<Match>)
    ensures |ms| == |r|
  {
    if r == [] then [] else [r[0].fixture] + StripFlags(r[1..])
  }

  /** Annotation loses nothing: stripping the flags gives back the stored list. */
  lemma {:induction false} AnnotateRoundTrip(ms: seq<Match>)
    ensures StripFlags(Annotate(ms)) == ms
  {
    if ms != [] {
      AnnotateRoundTrip(ms[1..]);
      assert Annotate(ms)[1..] == Annotate(ms[1..]);
    }
  }
}
