// The scoring, sorting and ranking of apps/frontend/lib/team-route-insights.ts. Geocoding and trigonometry are
// replaced by the distances they give; distances are exact.
module TeamRanking {
  import opened Wrappers

  const ROAD_FACTOR := 1.18

  /** The customer's site: without address, not found, or found, with the distance as the crow flies to each
      agency that was found too. */
  datatype Site = NoAddress | Unlocated | Located(birdKm: map<string, real>)
  {
    predicate Valid() {
      Located? ==> forall agency <- birdKm :: birdKm[agency] >= 0.0
    }
  }

  datatype Team = Team(id: string, agency: Option<string>)

  /** `km` is None for a team that was not found (an infinite distance). */
  datatype Raw = Raw(teamId: string, km: Option<real>)

  /** `score` is None when it is not a number. */
  datatype Scored = Scored(raw: Raw, score: Option<int>)

  datatype Insight = Insight(scored: Scored, rank: nat, isTopPick: bool)

  function RoundToTenth(x: real): real {
    (x * 10.0 + 0.5).Floor as real / 10.0
  }

  function RoadKm(site: Site, team: Team): Option<real> {
    if site.Located? && team.agency.Some? && team.agency.value != "" && team.agency.value in site.birdKm
    then Some(RoundToTenth(site.birdKm[team.agency.value] * ROAD_FACTOR))
    else None
  }

  function RawOf(site: Site, teams: seq<Team>): (raw: seq<Raw>)
    ensures |raw| == |teams|
  {
    seq(|teams|, i requires 0 <= i < |teams| => Raw(teams[i].id, RoadKm(site, teams[i])))
  }

  lemma TenthIsNear(x: real)
    ensures -0.05 < RoundToTenth(x) - x <= 0.05
    ensures (RoundToTenth(x) * 10.0).Floor as real == RoundToTenth(x) * 10.0
  {
  }

  lemma TenthIsMonotone(x: real, y: real)
    requires x <= y
    ensures RoundToTenth(x) <= RoundToTenth(y)
  {
    assert (x * 10.0 + 0.5).Floor <= (y * 10.0 + 0.5).Floor;
  }

  /** The distance by road is 1.18 times the distance as the crow flies, to the tenth of a kilometre with ties
      upwards; so a team that is farther as the crow flies is never nearer by road. */
  lemma RoadKmFollowsBirdKm(birdKm: map<string, real>, team: Team, other: Team)
    requires team.agency.Some? && team.agency.value != "" && other.agency.Some? && other.agency.value != ""
    requires team.agency.value in birdKm && other.agency.value in birdKm
    ensures var (km, bird) := (RoadKm(Located(birdKm), team), birdKm[team.agency.value]);
            && km.Some? && -0.05 < km.value - 1.18 * bird <= 0.05
            && (km.value * 10.0).Floor as real == km.value * 10.0
            && (bird <= birdKm[other.agency.value] ==>
                  RoadKm(Located(birdKm), other).Some? && km.value <= RoadKm(Located(birdKm), other).value)
  {
    var bird, farther := birdKm[team.agency.value], birdKm[other.agency.value];
    TenthIsNear(bird * ROAD_FACTOR);
    hide RoundToTenth;
    if bird <= farther {
      TenthIsMonotone(bird * ROAD_FACTOR, farther * ROAD_FACTOR);
    }
  }

  // ---------------------------------------------------------------------------------------------------
  // Scores
  // ---------------------------------------------------------------------------------------------------

  predicate AnyGeocoded(raw: seq<Raw>) {
    exists r <- raw :: r.km.Some?
  }

  function Farthest(raw: seq<Raw>, least: real): real {
    if raw == [] then least
    else Farthest(raw[1..], if raw[0].km.Some? && raw[0].km.value > least then raw[0].km.value else least)
  }

  function MaxKm(raw: seq<Raw>): real {
    if AnyGeocoded(raw) then Farthest(raw, 0.0) else 1.0
  }

  function ClampScore(score: int): int {
    var atMost := if score < 100 then score else 100;
    if atMost > 15 then atMost else 15
  }

  /** The score at a share of the largest distance. */
  function ScoreAt(share: real): int {
    ClampScore((100.0 - share * 55.0 + 0.5).Floor)
  }

  /** 0 / 0 is not a number. */
  function ScoreOf(km: Option<real>, maxKm: real): Option<int> {
    if km.None? then Some(50)
    else if maxKm == 0.0 then None
    else Some(ScoreAt(km.value / maxKm))
  }

  function ScoredOf(raw: seq<Raw>): (scored: seq<Scored>)
    ensures |scored| == |raw|
  {
    seq(|raw|, i requires 0 <= i < |raw| => Scored(raw[i], ScoreOf(raw[i].km, MaxKm(raw))))
  }

  // ---------------------------------------------------------------------------------------------------
  // The order
  // ---------------------------------------------------------------------------------------------------

  /** The sign of the comparison: what is not a number counts as equal. */
  function Compare(a: Scored, b: Scored): int {
    if a.score.None? || b.score.None? then 0
    else if a.score != b.score then b.score.value - a.score.value
    else
      match (a.raw.km, b.raw.km)
      case (Some(x), Some(y)) => if x < y then -1 else if x > y then 1 else 0
      case (Some(_), None) => -1
      case (None, Some(_)) => 1
      case (None, None) => 0
  }

  function Insert(x: Scored, sorted: seq<Scored>): seq<Scored> {
    if sorted == [] || Compare(x, sorted[0]) <= 0 then [x] + sorted
    else [sorted[0]] + Insert(x, sorted[1..])
  }

  /** Array.prototype.sort: stable. */
  function Sort(scored: seq<Scored>): seq<Scored> {
    if scored == [] then [] else Insert(scored[0], Sort(scored[1..]))
  }

  function Ranked(sorted: seq<Scored>): (insights: seq<Insight>)
    ensures |insights| == |sorted|
  {
    seq(|sorted|, i requires 0 <= i < |sorted| =>
      Insight(sorted[i], i + 1, i == 0 && sorted[i].raw.km.Some?))
  }

  function RankTeams(site: Site, teams: seq<Team>): seq<Insight> {
    if teams == [] || site.NoAddress? then [] else Ranked(Sort(ScoredOf(RawOf(site, teams))))
  }

  method RankTeamsForCustomerSite(site: Site, teams: seq<Team>) returns (insights: seq<Insight>)
    ensures insights == RankTeams(site, teams)
  {
    if teams == [] || site.NoAddress? {
      return [];
    }
    var raw: seq<Raw> := [];
    var i := 0;
    while i < |teams|
      invariant 0 <= i <= |teams|
      invariant raw == RawOf(site, teams[..i])
    {
      raw := raw + [Raw(teams[i].id, RoadKm(site, teams[i]))];
      i := i + 1;
    }
    assert teams[..i] == teams;
    insights := Ranked(Sort(ScoredOf(raw)));
  }

  // ---------------------------------------------------------------------------------------------------
  // Sorting
  // ---------------------------------------------------------------------------------------------------

  ghost predicate Ordered(s: seq<Scored>) {
    forall i, j | 0 <= i < j < |s| :: Compare(s[i], s[j]) <= 0
  }

  ghost predicate AllNumbers(s: seq<Scored>) {
    forall x <- s :: x.score.Some?
  }

  ghost predicate AllEqual(s: seq<Scored>) {
    forall x <- s, y <- s :: Compare(x, y) == 0
  }

  lemma {:induction false} InsertIsPermutation(x: Scored, sorted: seq<Scored>)
    ensures multiset(Insert(x, sorted)) == multiset([x] + sorted)
  {
    if sorted != [] && Compare(x, sorted[0]) > 0 {
      InsertIsPermutation(x, sorted[1..]);
      assert sorted == [sorted[0]] + sorted[1..];
    }
  }

  lemma {:induction false} SortIsPermutation(scored: seq<Scored>)
    ensures multiset(Sort(scored)) == multiset(scored)
  {
    if scored != [] {
      SortIsPermutation(scored[1..]);
      InsertIsPermutation(scored[0], Sort(scored[1..]));
      assert scored == [scored[0]] + scored[1..];
    }
  }

  lemma SameElements(a: seq<Scored>, b: seq<Scored>)
    requires multiset(a) == multiset(b)
    ensures |a| == |b|
    ensures forall x :: x in a <==> x in b
  {
    assert |multiset(a)| == |multiset(b)|;
    forall x ensures x in a <==> x in b {
      assert x in multiset(a) <==> x in multiset(b);
    }
  }

  lemma CompareIsAnOrder(a: Scored, b: Scored, c: Scored)
    requires a.score.Some? && b.score.Some? && c.score.Some?
    ensures Compare(a, b) <= 0 || Compare(b, a) <= 0
    ensures Compare(a, b) <= 0 && Compare(b, c) <= 0 ==> Compare(a, c) <= 0
  {
  }

  lemma PrependKeepsOrder(first: Scored, rest: seq<Scored>)
    requires Ordered(rest) && forall y <- rest :: Compare(first, y) <= 0
    ensures Ordered([first] + rest)
  {
  }

  lemma {:induction false} InsertKeepsOrder(x: Scored, sorted: seq<Scored>)
    requires Ordered(sorted) && x.score.Some? && AllNumbers(sorted)
    ensures Ordered(Insert(x, sorted))
  {
    hide Compare;
    if sorted == [] {
    } else if Compare(x, sorted[0]) <= 0 {
      forall y <- sorted ensures Compare(x, y) <= 0 {
        CompareIsAnOrder(x, sorted[0], y);
      }
      PrependKeepsOrder(x, sorted);
    } else {
      InsertKeepsOrder(x, sorted[1..]);
      InsertIsPermutation(x, sorted[1..]);
      var rest := Insert(x, sorted[1..]);
      SameElements(rest, [x] + sorted[1..]);
      hide Insert;
      CompareIsAnOrder(x, sorted[0], x);
      assert forall y <- sorted[1..] :: Compare(sorted[0], y) <= 0;
      forall y <- rest ensures Compare(sorted[0], y) <= 0 {
        assert y in [x] + sorted[1..];
      }
      PrependKeepsOrder(sorted[0], rest);
    }
  }

  lemma {:induction false} SortIsOrdered(scored: seq<Scored>)
    requires AllNumbers(scored)
    ensures Ordered(Sort(scored))
  {
    if scored != [] {
      assert forall y <- scored[1..] :: y in scored;
      SortIsOrdered(scored[1..]);
      SortIsPermutation(scored[1..]);
      SameElements(Sort(scored[1..]), scored[1..]);
      InsertKeepsOrder(scored[0], Sort(scored[1..]));
    }
  }

  /** Sorting what compares equal leaves it as it was. */
  lemma {:induction false} SortOfEqualsIsStable(scored: seq<Scored>)
    requires AllEqual(scored)
    ensures Sort(scored) == scored
  {
    if scored != [] {
      assert forall y <- scored[1..] :: y in scored;
      SortOfEqualsIsStable(scored[1..]);
      assert |scored| > 1 ==> scored[1..][0] in scored;
      assert scored == [scored[0]] + scored[1..];
    }
  }

  // ---------------------------------------------------------------------------------------------------
  // What the scores mean
  // ---------------------------------------------------------------------------------------------------

  predicate HasKm(raw: seq<Raw>, km: real) {
    exists r <- raw :: r.km == Some(km)
  }

  lemma {:induction false} FarthestIsMaximal(raw: seq<Raw>, least: real)
    ensures Farthest(raw, least) >= least
    ensures forall r <- raw :: r.km.Some? ==> r.km.value <= Farthest(raw, least)
    ensures Farthest(raw, least) == least || HasKm(raw, Farthest(raw, least))
  {
    if raw != [] {
      var next := if raw[0].km.Some? && raw[0].km.value > least then raw[0].km.value else least;
      FarthestIsMaximal(raw[1..], next);
      assert raw[0] in raw && forall r <- raw[1..] :: r in raw;
    }
  }

  lemma RoadKmIsNonNegative(site: Site, teams: seq<Team>)
    requires site.Valid()
    ensures forall r <- RawOf(site, teams) :: r.km.Some? ==> r.km.value >= 0.0
  {
  }

  ghost predicate Distances(raw: seq<Raw>) {
    forall r <- raw :: r.km.Some? ==> r.km.value >= 0.0
  }

  /** The largest distance is that of a team, and no team is farther. */
  lemma MaxKmIsMaximal(raw: seq<Raw>)
    requires Distances(raw) && AnyGeocoded(raw)
    ensures HasKm(raw, MaxKm(raw))
    ensures forall r <- raw :: r.km.Some? ==> 0.0 <= r.km.value <= MaxKm(raw)
  {
    FarthestIsMaximal(raw, 0.0);
    var r :| r in raw && r.km.Some?;
    assert MaxKm(raw) == 0.0 ==> r.km == Some(0.0);
  }

  lemma RatioMonotone(a: real, b: real, max: real)
    requires 0.0 <= a <= b <= max && max > 0.0
    ensures 0.0 <= a / max <= b / max <= 1.0
  {
    assert a / max * max == a && b / max * max == b;
  }

  lemma ScoreAtShare(share: real)
    requires 0.0 <= share <= 1.0
    ensures 45 <= ScoreAt(share) <= 100
    ensures share == 1.0 ==> ScoreAt(share) == 45
    ensures share == 0.0 ==> ScoreAt(share) == 100
    ensures ScoreAt(share) >= 50 <==> 55.0 * share <= 50.5
    ensures -0.5 < ScoreAt(share) as real - (100.0 - 55.0 * share) <= 0.5
  {
  }

  lemma ShareOf(km: real, maxKm: real)
    requires 0.0 <= km <= maxKm && maxKm > 0.0
    ensures 0.0 <= km / maxKm <= 1.0
    ensures km == maxKm ==> km / maxKm == 1.0
    ensures km == 0.0 ==> km / maxKm == 0.0
    ensures 55.0 * (km / maxKm) <= 50.5 <==> 55.0 * km <= 50.5 * maxKm
  {
    RatioMonotone(km, km, maxKm);
    var share := km / maxKm;
    assert share * maxKm == km;
    ScaleUp(55.0 * share, 50.5, maxKm);
    assert 55.0 * share * maxKm == 55.0 * km;
  }

  lemma ScaleUp(a: real, b: real, scale: real)
    requires scale > 0.0
    ensures a <= b <==> a * scale <= b * scale
  {
    if a > b {
      assert (a - b) * scale > 0.0;
    }
  }

  /** A score falls from 100, on the spot, to 45, for the farthest team, in proportion to the distance and to the
      nearest whole number; beyond 50.5/55 of the largest distance it falls below that of a team not found. */
  lemma ScoreMeaning(km: real, maxKm: real)
    requires 0.0 <= km <= maxKm && maxKm > 0.0
    ensures var score := ScoreOf(Some(km), maxKm);
            && score.Some? && 45 <= score.value <= 100
            && (km == maxKm ==> score.value == 45) && (km == 0.0 ==> score.value == 100)
            && -0.5 < score.value as real - (100.0 - 55.0 * (km / maxKm)) <= 0.5
            && ScoreOf(None, maxKm).Some?
            && (score.value >= ScoreOf(None, maxKm).value <==> 55.0 * km <= 50.5 * maxKm)
  {
    hide ScoreAt;
    ShareOf(km, maxKm);
    ScoreAtShare(km / maxKm);
  }

  lemma CloserScoresHigher(a: real, b: real, maxKm: real)
    requires 0.0 <= a <= b <= maxKm && maxKm > 0.0
    ensures ScoreOf(Some(a), maxKm).value >= ScoreOf(Some(b), maxKm).value
  {
    RatioMonotone(a, b, maxKm);
  }

  // ---------------------------------------------------------------------------------------------------
  // The ranking
  // ---------------------------------------------------------------------------------------------------

  predicate Geocoded(s: Scored) {
    s.raw.km.Some?
  }

  function KmOf(s: Scored): real {
    if s.raw.km.Some? then s.raw.km.value else 0.0
  }

  /** Two scored teams of one ranking, in order: if both are found, the first is no farther. */
  lemma OrderIsByDistance(raw: seq<Raw>, a: Scored, b: Scored)
    requires Distances(raw)
    requires a in ScoredOf(raw) && b in ScoredOf(raw) && Geocoded(a) && Geocoded(b)
    requires MaxKm(raw) != 0.0 ==> Compare(a, b) <= 0
    ensures KmOf(a) <= KmOf(b)
  {
    assert a.raw in raw && b.raw in raw;
    MaxKmIsMaximal(raw);
    if MaxKm(raw) > 0.0 {
      ScoreMeaning(KmOf(a), MaxKm(raw));
      ScoreMeaning(KmOf(b), MaxKm(raw));
      if KmOf(b) < KmOf(a) {
        CloserScoresHigher(KmOf(b), KmOf(a), MaxKm(raw));
      }
    }
  }

  lemma Comparable(raw: seq<Raw>)
    ensures MaxKm(raw) != 0.0 ==> AllNumbers(ScoredOf(raw))
    ensures MaxKm(raw) == 0.0 ==> AllEqual(ScoredOf(raw))
  {
  }

  /** The ranking holds exactly the teams, each with its own score, ranked 1 to n. */
  lemma RankingIsPermutation(site: Site, teams: seq<Team>)
    requires !site.NoAddress?
    ensures var out := RankTeams(site, teams);
            && |out| == |teams|
            && (forall i | 0 <= i < |out| :: out[i].rank == i + 1)
            && multiset(ScoredIn(out)) == multiset(ScoredOf(RawOf(site, teams)))
  {
    var scored := ScoredOf(RawOf(site, teams));
    SortIsPermutation(scored);
    SameElements(Sort(scored), scored);
    assert ScoredIn(RankTeams(site, teams)) == Sort(scored);
  }

  function ScoredIn(insights: seq<Insight>): (scored: seq<Scored>)
    ensures |scored| == |insights|
  {
    seq(|insights|, i requires 0 <= i < |insights| => insights[i].scored)
  }

  ghost predicate InOrderOfDistance(scored: seq<Scored>) {
    forall i, j | 0 <= i < j < |scored| ::
      Geocoded(scored[i]) && Geocoded(scored[j]) ==> KmOf(scored[i]) <= KmOf(scored[j])
  }

  lemma SortIsByDistance(raw: seq<Raw>)
    requires Distances(raw)
    ensures InOrderOfDistance(Sort(ScoredOf(raw)))
  {
    var scored := ScoredOf(raw);
    var sorted := Sort(scored);
    SortIsPermutation(scored);
    SameElements(sorted, scored);
    Comparable(raw);
    if MaxKm(raw) != 0.0 {
      SortIsOrdered(scored);
    }
    hide Compare, Sort, MaxKm, ScoredOf;
    forall i, j | 0 <= i < j < |sorted| && Geocoded(sorted[i]) && Geocoded(sorted[j])
      ensures KmOf(sorted[i]) <= KmOf(sorted[j])
    {
      assert sorted[i] in sorted && sorted[j] in sorted;
      OrderIsByDistance(raw, sorted[i], sorted[j]);
    }
  }

  /** The teams that were found come in order of distance, and so a top pick is a nearest one. */
  lemma RankingIsByDistance(site: Site, teams: seq<Team>)
    requires site.Valid()
    ensures var out := RankTeams(site, teams);
            && InOrderOfDistance(ScoredIn(out))
            && (forall pick <- out, other <- out :: pick.isTopPick && Geocoded(other.scored) ==>
                  pick.rank == 1 && Geocoded(pick.scored) && KmOf(pick.scored) <= KmOf(other.scored))
  {
    if teams != [] && !site.NoAddress? {
      var sorted := Sort(ScoredOf(RawOf(site, teams)));
      RoadKmIsNonNegative(site, teams);
      SortIsByDistance(RawOf(site, teams));
      hide Sort, ScoredOf, RawOf;
      assert ScoredIn(RankTeams(site, teams)) == sorted;
    }
  }

  /** The scores of the teams that were found lie between 45, for the farthest, and 100, unless every one of them
      is at distance 0, where a score is not a number. */
  lemma ScoresInRange(site: Site, teams: seq<Team>, x: Scored)
    requires site.Valid() && x in ScoredOf(RawOf(site, teams)) && Geocoded(x)
    ensures x.score.None? <==> MaxKm(RawOf(site, teams)) == 0.0
    ensures x.score.Some? ==> 45 <= x.score.value <= 100
    ensures x.score.Some? && x.raw.km.value == MaxKm(RawOf(site, teams)) ==> x.score == Some(45)
  {
    var raw := RawOf(site, teams);
    RoadKmIsNonNegative(site, teams);
    assert x.raw in raw;
    MaxKmIsMaximal(raw);
    if MaxKm(raw) != 0.0 {
      ScoreMeaning(x.raw.km.value, MaxKm(raw));
    }
  }

  /** Some team was found and, beside teams that were not, one of the found ones is near enough to outscore them;
      when every distance is 0 the listing decides. */
  predicate DeservesTopPick(raw: seq<Raw>) {
    && AnyGeocoded(raw)
    && if MaxKm(raw) == 0.0 then raw[0].km.Some?
       else
         || (forall r <- raw :: r.km.Some?)
         || (exists r <- raw :: r.km.Some? && 55.0 * r.km.value <= 50.5 * MaxKm(raw))
  }

  /** There is a top pick exactly when some team was found and, beside teams that were not found, one of the found
      ones is within 50.5/55 of the largest distance (or, all at distance 0, the first listed was found). */
  lemma TopPickExistsExactly(site: Site, teams: seq<Team>)
    requires site.Valid() && !site.NoAddress?
    ensures (exists insight <- RankTeams(site, teams) :: insight.isTopPick) <==> DeservesTopPick(RawOf(site, teams))
  {
    var raw := RawOf(site, teams);
    var scored := ScoredOf(raw);
    var sorted := Sort(scored);
    var out := RankTeams(site, teams);
    RoadKmIsNonNegative(site, teams);
    SortIsPermutation(scored);
    SameElements(sorted, scored);
    Comparable(raw);
    if teams != [] {
      assert out[0].isTopPick ==> out[0] in out;
      assert (exists insight <- out :: insight.isTopPick) <==> Geocoded(sorted[0]);
      FirstIsGeocodedExactly(raw);
    }
  }

  lemma FirstIsGeocodedExactly(raw: seq<Raw>)
    requires Distances(raw) && raw != []
    ensures Sort(ScoredOf(raw)) != []
    ensures Geocoded(Sort(ScoredOf(raw))[0]) <==> DeservesTopPick(raw)
  {
    var scored := ScoredOf(raw);
    var sorted := Sort(scored);
    SortIsPermutation(scored);
    SameElements(sorted, scored);
    Comparable(raw);
    var first := sorted[0];
    assert first in scored && first.raw in raw;
    if MaxKm(raw) == 0.0 {
      SortOfEqualsIsStable(scored);
      assert scored[0].raw == raw[0];
    } else {
      SortIsOrdered(scored);
      if Geocoded(first) {
        MaxKmIsMaximal(raw);
        ScoreMeaning(first.raw.km.value, MaxKm(raw));
        if r :| r in raw && r.km.None? {
          MissingIsNotBetter(raw, sorted, r);
        }
      } else if AnyGeocoded(raw) {
        MaxKmIsMaximal(raw);
        forall r | r in raw && r.km.Some? ensures 55.0 * r.km.value > 50.5 * MaxKm(raw) {
          ScoreMeaning(r.km.value, MaxKm(raw));
          FirstBeats(raw, sorted, r);
        }
      }
    }
  }

  lemma FirstBeats(raw: seq<Raw>, sorted: seq<Scored>, r: Raw)
    requires r in raw && sorted == Sort(ScoredOf(raw)) && Ordered(sorted) && sorted != []
    ensures Compare(sorted[0], Scored(r, ScoreOf(r.km, MaxKm(raw)))) <= 0
  {
    var scored := ScoredOf(raw);
    SortIsPermutation(scored);
    SameElements(sorted, scored);
    var i :| 0 <= i < |raw| && raw[i] == r;
    assert scored[i] in sorted;
    assert Compare(sorted[0], sorted[0]) == 0;
  }

  lemma MissingIsNotBetter(raw: seq<Raw>, sorted: seq<Scored>, r: Raw)
    requires r in raw && r.km.None? && sorted == Sort(ScoredOf(raw)) && Ordered(sorted) && sorted != []
    requires sorted[0].score.Some?
    ensures sorted[0].score.value >= 50
  {
    FirstBeats(raw, sorted, r);
  }
}
