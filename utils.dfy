/** The helper calculations and table queries of the utilities module: per-row
    scores, the player summary with defaults, the filter-option domains and
    their validation, top and bottom performers, team efficiency, position
    rankings, the archetype rules, percentile ranks and the player rating. */
module Utils {
  import opened Wrappers
  import opened Strings
  import opened Seqs
  import opened DataProcessing

  // ---------------------------------------------------------------------
  // Per-row calculations
  // ---------------------------------------------------------------------

  /** The utilities' scoring: rebounds at 1.2, unlike the loader's 1.25. */
  const SummaryWeights := Weights(1.0, 1.2, 1.5, 2.0, 2.0, -1.0)

  /** `calculate_fantasy_points`. */
  function CalculateFantasyPoints(r: PlayerRow): (fp: real)
    ensures fp == FantasyPoints(r, SummaryWeights)
  {
    r.pts * 1.0 + r.trb * 1.2 + r.ast * 1.5 + r.stl * 2.0 + r.blk * 2.0 + r.tov * -1.0
  }

  /** The two default scorings differ by a twentieth of a point per rebound:
      the utilities' score is below the loader's exactly when the player has
      positive rebounds. */
  lemma FantasyPointsScoringsDiffer(r: PlayerRow)
    ensures CalculateFantasyPoints(r) == FantasyPointsWithWeights(r, None) - 0.05 * r.trb
    ensures CalculateFantasyPoints(r) < FantasyPointsWithWeights(r, None) <==> r.trb > 0.0
  {
    FantasyPointsLinear(r, SummaryWeights, DefaultWeights);
  }

  /** `calculate_per`: the unit-weight score. */
  function CalculatePer(r: PlayerRow): (per: real)
    ensures per == FantasyPoints(r, UnitWeights)
  {
    r.pts + r.trb + r.ast + r.stl + r.blk - r.tov
  }

  /** The utilities' PER is the loader's PER column. */
  lemma PerAgreesWithLoader(r: PlayerRow)
    requires r.mp != 0.0
    ensures CalculatePer(r) == DeriveMetrics(r).per
  {
  }

  /** `calculate_usage_rate`: guarded against zero minutes. */
  function CalculateUsageRate(r: PlayerRow): (u: real)
    ensures r.mp == 0.0 ==> u == 0.0
    ensures r.mp != 0.0 ==> u * r.mp == (r.fga + 0.44 * r.fta + r.ast) * 100.0
  {
    if r.mp == 0.0 then 0.0 else (r.fga + r.fta * 0.44 + r.ast) / r.mp * 100.0
  }

  /** Where the loader's unguarded usage rate is defined, the two agree. */
  lemma UsageRateAgreesWithLoader(r: PlayerRow)
    requires r.mp != 0.0
    ensures CalculateUsageRate(r) == DeriveMetrics(r).usageRate
  {
    var u := CalculateUsageRate(r);
    var d := DeriveMetrics(r).usageRate;
    assert u * r.mp == d * r.mp;
    DivideOut(u, d, r.mp);
  }

  lemma DivideOut(x: real, y: real, z: real)
    requires z != 0.0 && x * z == y * z
    ensures x == y
  {
    assert (x - y) * z == 0.0;
  }

  // ---------------------------------------------------------------------
  // Player summary
  // ---------------------------------------------------------------------

  /** A cell of a row looked up by column name. */
  datatype Value = Text(text: string) | Int(whole: int) | Real(number: real)

  /** One entry of the summary: its key, the column it reads, and the value
      used when the row has no such column. */
  datatype SummaryField = SummaryField(key: string, column: string, fallback: Value)

  const SummaryFields: seq<SummaryField> := [
    SummaryField("name", "Player", Text("Unknown")),
    SummaryField("team", "Team", Text("Unknown")),
    SummaryField("position", "Pos", Text("Unknown")),
    SummaryField("age", "Age", Int(0)),
    SummaryField("games", "G", Int(0)),
    SummaryField("fantasy_points", "Fantasy_Points", Real(0.0)),
    SummaryField("points", "PTS", Real(0.0)),
    SummaryField("rebounds", "TRB", Real(0.0)),
    SummaryField("assists", "AST", Real(0.0)),
    SummaryField("steals", "STL", Real(0.0)),
    SummaryField("blocks", "BLK", Real(0.0)),
    SummaryField("fg_percentage", "FG%", Real(0.0)),
    SummaryField("three_p_percentage", "3P%", Real(0.0)),
    SummaryField("ft_percentage", "FT%", Real(0.0)),
    SummaryField("turnovers", "TOV", Real(0.0)),
    SummaryField("efg_percentage", "eFG%", Real(0.0)),
    SummaryField("ts_percentage", "TS%", Real(0.0)),
    SummaryField("ftr", "FTR", Real(0.0)),
    SummaryField("ast_tov_ratio", "AST_TOV_Ratio", Real(0.0)),
    SummaryField("hast_percentage", "hAST%", Real(0.0)),
    SummaryField("tov_percentage", "TOV%", Real(0.0)),
    SummaryField("player_type", "Player_Type", Text("Other")),
    SummaryField("minutes", "MP", Real(0.0)),
    SummaryField("game_score", "Game_Score", Real(0.0)),
    SummaryField("bpm", "BPM", Real(0.0))
  ]

  /** `safe_get`: the row's value, or the fallback when the column is absent. */
  function SafeGet(data: map<string, Value>, column: string, fallback: Value): Value {
    if column in data then data[column] else fallback
  }

  /** The summary entries of the first fields, later keys overriding earlier. */
  function Summarize(data: map<string, Value>, fields: seq<SummaryField>): (summary: map<string, Value>)
    ensures summary.Keys == set i | 0 <= i < |fields| :: fields[i].key
    decreases |fields|
  {
    if fields == [] then map[]
    else
      var f := fields[|fields| - 1];
      Summarize(data, fields[..|fields| - 1])[f.key := SafeGet(data, f.column, f.fallback)]
  }

  lemma {:induction false} SummarizeEntry(data: map<string, Value>, fields: seq<SummaryField>, i: int)
    requires 0 <= i < |fields|
    requires forall j, k :: 0 <= j < k < |fields| ==> fields[j].key != fields[k].key
    ensures Summarize(data, fields)[fields[i].key] == SafeGet(data, fields[i].column, fields[i].fallback)
    decreases |fields|
  {
    if i < |fields| - 1 {
      SummarizeEntry(data, fields[..|fields| - 1], i);
    }
  }

  /** `get_player_summary`: one entry per summary key; each is the row's value
      of its column when the row has that column, and the field's fallback
      otherwise. */
  function GetPlayerSummary(data: map<string, Value>): (summary: map<string, Value>)
    ensures summary.Keys == set i | 0 <= i < |SummaryFields| :: SummaryFields[i].key
    ensures forall i :: 0 <= i < |SummaryFields| ==>
      summary[SummaryFields[i].key] == SafeGet(data, SummaryFields[i].column, SummaryFields[i].fallback)
  {
    forall i | 0 <= i < |SummaryFields|
      ensures Summarize(data, SummaryFields)[SummaryFields[i].key]
              == SafeGet(data, SummaryFields[i].column, SummaryFields[i].fallback)
    {
      SummaryKeysDistinct();
      SummarizeEntry(data, SummaryFields, i);
    }
    Summarize(data, SummaryFields)
  }

  lemma SummaryKeysDistinct()
    ensures forall j, k :: 0 <= j < k < |SummaryFields| ==> SummaryFields[j].key != SummaryFields[k].key
  {
    SummaryKeysDistinctFrom(0, 9);
    SummaryKeysDistinctFrom(9, 17);
    SummaryKeysDistinctFrom(17, 25);
  }

  lemma SummaryKeysDistinctFrom(lo: int, hi: int)
    requires 0 <= lo <= hi <= |SummaryFields|
    ensures forall j, k :: lo <= j < hi && j < k < |SummaryFields| ==> SummaryFields[j].key != SummaryFields[k].key
  {
    forall j, k | lo <= j < hi && j < k < |SummaryFields| ensures SummaryFields[j].key != SummaryFields[k].key {
      var a, b := SummaryFields[j].key, SummaryFields[k].key;
      assert |a| != |b| || a[0] != b[0] || a[1] != b[1];
    }
  }

  /** A column the row lacks contributes its field's fallback, e.g. "Other"
      for the player type and "Unknown" for the name. */
  lemma MissingColumnGivesFallback(data: map<string, Value>, i: int)
    requires 0 <= i < |SummaryFields| && SummaryFields[i].column !in data
    ensures GetPlayerSummary(data)[SummaryFields[i].key] == SummaryFields[i].fallback
  {
  }

  // ---------------------------------------------------------------------
  // Filter options and validation
  // ---------------------------------------------------------------------

  /** The domains the dashboard's filter widgets offer. */
  datatype FilterOptions = FilterOptions(positions: seq<string>, teams: seq<string>,
                                         ageRange: (int, int), gamesRange: (int, int), ppgRange: (real, real))

  /** The options used when the table gives none (its extrema are undefined). */
  const FallbackOptions := FilterOptions(["All"], ["All"], (19, 40), (1, 82), (0.0, 50.0))

  function MinAge(t: seq<PlayerRow>): (m: int)
    requires |t| > 0
    ensures (exists i :: 0 <= i < |t| && t[i].age == m) && forall i :: 0 <= i < |t| ==> m <= t[i].age
    decreases |t|
  {
    if |t| == 1 then t[0].age
    else var m := MinAge(t[..|t| - 1]); if t[|t| - 1].age < m then t[|t| - 1].age else m
  }

  function MaxAge(t: seq<PlayerRow>): (m: int)
    requires |t| > 0
    ensures (exists i :: 0 <= i < |t| && t[i].age == m) && forall i :: 0 <= i < |t| ==> t[i].age <= m
    decreases |t|
  {
    if |t| == 1 then t[0].age
    else var m := MaxAge(t[..|t| - 1]); if t[|t| - 1].age > m then t[|t| - 1].age else m
  }

  function MaxGames(t: seq<PlayerRow>): (m: int)
    requires |t| > 0
    ensures (exists i :: 0 <= i < |t| && t[i].games == m) && forall i :: 0 <= i < |t| ==> t[i].games <= m
    decreases |t|
  {
    if |t| == 1 then t[0].games
    else var m := MaxGames(t[..|t| - 1]); if t[|t| - 1].games > m then t[|t| - 1].games else m
  }

  function MaxPoints(t: seq<PlayerRow>): (m: real)
    requires |t| > 0
    ensures (exists i :: 0 <= i < |t| && t[i].pts == m) && forall i :: 0 <= i < |t| ==> t[i].pts <= m
    decreases |t|
  {
    if |t| == 1 then t[0].pts
    else var m := MaxPoints(t[..|t| - 1]); if t[|t| - 1].pts > m then t[|t| - 1].pts else m
  }

  /** `get_filter_options`: "All" followed by the sorted distinct positions and
      teams, the age extremes, games from 1 to the most played, points from 0
      to the highest; for an empty table, the fallback. */
  function GetFilterOptions(df: seq<PlayerRow>): (o: FilterOptions)
    ensures |df| == 0 ==> o == FallbackOptions
    ensures |df| > 0 ==> o.positions == ["All"] + SortedDistinct(Positions(df))
    ensures |df| > 0 ==> o.teams == ["All"] + SortedDistinct(Teams(df))
    ensures |df| > 0 ==> o.gamesRange.0 == 1 && o.ppgRange.0 == 0.0
    ensures |df| > 0 ==> forall i :: 0 <= i < |df| ==>
      && o.ageRange.0 <= df[i].age <= o.ageRange.1
      && df[i].games <= o.gamesRange.1
      && df[i].pts <= o.ppgRange.1
    ensures |df| > 0 ==>
      && (exists i :: 0 <= i < |df| && df[i].age == o.ageRange.0)
      && (exists i :: 0 <= i < |df| && df[i].age == o.ageRange.1)
      && (exists i :: 0 <= i < |df| && df[i].games == o.gamesRange.1)
      && (exists i :: 0 <= i < |df| && df[i].pts == o.ppgRange.1)
  {
    if |df| == 0 then FallbackOptions
    else
      FilterOptions(["All"] + SortedDistinct(Positions(df)), ["All"] + SortedDistinct(Teams(df)),
                    (MinAge(df), MaxAge(df)), (1, MaxGames(df)), (0.0, MaxPoints(df)))
  }

  /** `validate_filters`: both ranges ordered, the games bound and both points
      bounds non-negative. */
  function ValidateFilters(position: string, team: string, ageRange: (int, int), minGames: int,
                           ppgRange: (real, real)): (ok: bool)
    ensures ok <==> ageRange.0 <= ageRange.1 && minGames >= 0 && ppgRange.0 <= ppgRange.1
                    && ppgRange.0 >= 0.0 && ppgRange.1 >= 0.0
  {
    if ageRange.0 > ageRange.1 then false
    else if minGames < 0 then false
    else if ppgRange.0 > ppgRange.1 then false
    else if ppgRange.0 < 0.0 || ppgRange.1 < 0.0 then false
    else true
  }

  /** The widest filters the options offer are valid, and for a table without
      negative points they select every row that has played a game. */
  lemma FilterOptionsAreValid(df: seq<PlayerRow>)
    requires forall i :: 0 <= i < |df| ==> df[i].pts >= 0.0
    ensures var o := GetFilterOptions(df);
      ValidateFilters("All", "All", o.ageRange, o.gamesRange.0, o.ppgRange)
    ensures forall i :: 0 <= i < |df| && df[i].games >= 1 ==>
      MatchesFilters("All", "All", GetFilterOptions(df).ageRange, GetFilterOptions(df).gamesRange.0,
                     GetFilterOptions(df).ppgRange)(df[i])
  {
    if |df| > 0 {
      var o := GetFilterOptions(df);
      assert df[0].pts >= 0.0 && df[0].pts <= o.ppgRange.1;
      assert o.ageRange.0 <= df[0].age <= o.ageRange.1;
    }
  }

  // ---------------------------------------------------------------------
  // Table queries
  // ---------------------------------------------------------------------

  /** `get_top_performers`: the `topN` rows with the largest `metric`, largest
      first, none left out above a returned one. */
  function GetTopPerformers(df: seq<PlayerRow>, metric: PlayerRow -> real, topN: nat := 10): (r: seq<PlayerRow>)
    ensures |r| == if topN < |df| then topN else |df|
    ensures multiset(r) <= multiset(df)
    ensures forall i, j :: 0 <= i < j < |r| ==> metric(r[i]) >= metric(r[j])
    ensures forall x, y :: x in multiset(df) - multiset(r) && y in r ==> metric(x) <= metric(y)
  {
    NLargest(df, topN, metric)
  }

  /** `get_bottom_performers`: the `bottomN` rows with the smallest `metric`,
      smallest first, none left out below a returned one. */
  function GetBottomPerformers(df: seq<PlayerRow>, metric: PlayerRow -> real, bottomN: nat := 10): (r: seq<PlayerRow>)
    ensures |r| == if bottomN < |df| then bottomN else |df|
    ensures multiset(r) <= multiset(df)
    ensures forall i, j :: 0 <= i < j < |r| ==> metric(r[i]) <= metric(r[j])
    ensures forall x, y :: x in multiset(df) - multiset(r) && y in r ==> metric(y) <= metric(x)
  {
    NSmallest(df, bottomN, metric)
  }

  /** The result of `calculate_team_efficiency`; a mean over no rows is
      undefined. */
  datatype TeamEfficiency = TeamEfficiency(avgFantasyPoints: Option<real>, totalFantasyPoints: real,
                                           playerCount: nat, avgAge: Option<real>, avgGames: Option<real>)

  function AgeKey(r: PlayerRow): real { r.age as real }
  function GamesKey(r: PlayerRow): real { r.games as real }

  function MeanOrNone(t: seq<PlayerRow>, key: PlayerRow -> real): (m: Option<real>)
    ensures m.None? <==> |t| == 0
    ensures m.Some? ==> IsMeanOf(m.value, t, key)
  {
    if |t| == 0 then None
    else
      MeanTimesCount(t, key);
      Some(Mean(t, key))
  }

  /** `calculate_team_efficiency` on the rows of one team. */
  function CalculateTeamEfficiency(teamData: seq<PlayerRow>): (e: TeamEfficiency)
    ensures e.playerCount == |teamData|
    ensures e.totalFantasyPoints == Sum(teamData, FantasyKey)
    ensures e.avgFantasyPoints.None? <==> |teamData| == 0
    ensures e.avgFantasyPoints.Some? ==> IsMeanOf(e.avgFantasyPoints.value, teamData, FantasyKey)
    ensures e.avgAge.Some? ==> IsMeanOf(e.avgAge.value, teamData, AgeKey)
    ensures e.avgGames.Some? ==> IsMeanOf(e.avgGames.value, teamData, GamesKey)
    ensures e.avgAge.None? <==> |teamData| == 0
    ensures e.avgGames.None? <==> |teamData| == 0
  {
    TeamEfficiency(MeanOrNone(teamData, FantasyKey), Sum(teamData, FantasyKey), |teamData|,
                   MeanOrNone(teamData, AgeKey), MeanOrNone(teamData, GamesKey))
  }

  /** On a team's rows, the efficiency figures are that team's row of the
      team table. */
  lemma TeamEfficiencyMatchesTeamStats(df: seq<PlayerRow>, team: string)
    requires team in Teams(df)
    ensures var e := CalculateTeamEfficiency(TeamRows(df, team));
      var s := TeamGroup(df, team);
      e.avgFantasyPoints == Some(s.avgFantasyPoints) && e.totalFantasyPoints == s.totalFantasyPoints
      && e.playerCount == s.playerCount
  {
  }

  /** A row of `get_position_rankings`. */
  datatype PositionRanked = PositionRanked(row: PlayerRow, positionRank: nat)

  function RowOfPositionRanked(x: PositionRanked): PlayerRow {
    x.row
  }

  /** `get_position_rankings`: the players of one position, by fantasy points
      from the highest, ranked 1, 2, ... in that order. */
  function GetPositionRankings(df: seq<PlayerRow>, position: string): (r: seq<PositionRanked>)
    ensures multiset(Map(r, RowOfPositionRanked)) == multiset(PositionRows(df, position))
    ensures forall i, j :: 0 <= i < j < |r| ==> r[i].row.fantasyPoints >= r[j].row.fantasyPoints
    ensures forall i :: 0 <= i < |r| ==> r[i].positionRank == i + 1
  {
    var sorted := SortDesc(PositionRows(df, position), FantasyKey);
    var r := seq(|sorted|, i requires 0 <= i < |sorted| => PositionRanked(sorted[i], i + 1));
    assert Map(r, RowOfPositionRanked) == sorted;
    r
  }

  /** Every ranked row has the requested position and comes from the table. */
  lemma PositionRankingsQualify(df: seq<PlayerRow>, position: string)
    ensures forall i :: 0 <= i < |GetPositionRankings(df, position)| ==>
      GetPositionRankings(df, position)[i].row.pos == position
      && GetPositionRankings(df, position)[i].row in df
  {
    var r := GetPositionRankings(df, position);
    FilterMembers(df, PositionIs(position));
    forall i | 0 <= i < |r| ensures r[i].row.pos == position && r[i].row in df {
      assert Map(r, RowOfPositionRanked)[i] in multiset(PositionRows(df, position));
      assert r[i].row in PositionRows(df, position);
    }
  }

  // ---------------------------------------------------------------------
  // Archetype, percentile rank and rating
  // ---------------------------------------------------------------------

  /** `get_player_archetype`: the first rule that fires, in the order
      assists, rebounds, points, stocks. */
  function GetPlayerArchetype(r: PlayerRow): (archetype: string)
    ensures archetype == "Playmaker" <==> r.ast > 7.0
    ensures archetype == "Rebounder" <==> r.ast <= 7.0 && r.trb > 10.0
    ensures archetype == "Scorer" <==> r.ast <= 7.0 && r.trb <= 10.0 && r.pts > 25.0
    ensures archetype == "Defender" <==> r.ast <= 7.0 && r.trb <= 10.0 && r.pts <= 25.0 && r.stl + r.blk > 3.0
    ensures archetype == "Role Player" <==>
      r.ast <= 7.0 && r.trb <= 10.0 && r.pts <= 25.0 && r.stl + r.blk <= 3.0
  {
    if r.ast > 7.0 then "Playmaker"
    else if r.trb > 10.0 then "Rebounder"
    else if r.pts > 25.0 then "Scorer"
    else if r.stl + r.blk > 3.0 then "Defender"
    else "Role Player"
  }

  function Below(value: real): real -> bool {
    (x: real) => x < value
  }

  /** The number of entries of `data` below `value`. */
  function CountBelow(data: seq<real>, value: real): nat {
    |Filter(data, Below(value))|
  }

  /** `get_percentile_rank`: the share of entries below `value`, as a
      percentage; undefined for no data. */
  function GetPercentileRank(value: real, data: seq<real>): (p: Option<real>)
    ensures p.None? <==> |data| == 0
    ensures p.Some? ==> p.value * |data| as real == 100.0 * CountBelow(data, value) as real
    ensures p.Some? ==> 0.0 <= p.value <= 100.0
  {
    if |data| == 0 then None
    else
      var share := CountBelow(data, value) as real / |data| as real;
      Some(share * 100.0)
  }

  lemma {:induction false} CountBelowMonotone(data: seq<real>, v1: real, v2: real)
    requires v1 <= v2
    ensures CountBelow(data, v1) <= CountBelow(data, v2)
    decreases |data|
  {
    if data != [] {
      CountBelowMonotone(data[..|data| - 1], v1, v2);
    }
  }

  lemma DivideOrder(a: real, b: real, n: real)
    requires n > 0.0 && a <= b
    ensures a / n <= b / n
  {
    assert b / n - a / n == (b - a) / n;
  }

  /** A larger value never has a smaller percentile rank. */
  lemma PercentileRankMonotone(data: seq<real>, v1: real, v2: real)
    requires |data| > 0 && v1 <= v2
    ensures GetPercentileRank(v1, data).value <= GetPercentileRank(v2, data).value
  {
    CountBelowMonotone(data, v1, v2);
    var n := |data| as real;
    var c1, c2 := CountBelow(data, v1) as real, CountBelow(data, v2) as real;
    assert GetPercentileRank(v1, data).value == c1 / n * 100.0;
    assert GetPercentileRank(v2, data).value == c2 / n * 100.0;
    DivideOrder(c1, c2, n);
  }

  /** Against a single average, the percentile is 100 when the value exceeds
      it and 0 otherwise. */
  lemma PercentileAgainstAverage(value: real, avg: real)
    ensures GetPercentileRank(value, [avg]) == Some(if avg < value then 100.0 else 0.0)
  {
    assert [avg][..0] == [];
  }

  /** One entry of `create_player_rating`. */
  datatype Rating = Rating(value: real, leagueAvg: real, percentile: real)

  /** `create_player_rating`: for every averaged stat the row has, the row's
      value, the average and the value's percentile against that average. The
      averages are a dictionary, so each stat occurs once. */
  method CreatePlayerRating(player: map<string, real>, leagueAverages: seq<(string, real)>)
    returns (ratings: map<string, Rating>)
    requires forall i, j :: 0 <= i < j < |leagueAverages| ==> leagueAverages[i].0 != leagueAverages[j].0
    ensures ratings.Keys == set i | 0 <= i < |leagueAverages| && leagueAverages[i].0 in player :: leagueAverages[i].0
    ensures forall i :: 0 <= i < |leagueAverages| && leagueAverages[i].0 in player ==>
      var stat := leagueAverages[i].0;
      var avg := leagueAverages[i].1;
      ratings[stat] == Rating(player[stat], avg, if avg < player[stat] then 100.0 else 0.0)
  {
    ratings := map[];
    for k := 0 to |leagueAverages|
      invariant ratings.Keys == set i | 0 <= i < k && leagueAverages[i].0 in player :: leagueAverages[i].0
      invariant forall i :: 0 <= i < k && leagueAverages[i].0 in player ==>
        ratings[leagueAverages[i].0]
          == Rating(player[leagueAverages[i].0], leagueAverages[i].1,
                    if leagueAverages[i].1 < player[leagueAverages[i].0] then 100.0 else 0.0)
    {
      var (stat, avg) := leagueAverages[k];
      if stat in player {
        var percentile := GetPercentileRank(player[stat], [avg]);
        PercentileAgainstAverage(player[stat], avg);
        ratings := ratings[stat := Rating(player[stat], avg, percentile.value)];
      }
    }
  }
}
