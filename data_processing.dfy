/** The player-table pipeline: fantasy scoring, per-row derived metrics,
    resolution of players listed once per team, the position labeller, and the
    queries the dashboard runs over the enriched table (filter, ranking,
    similar players, per-team and per-position aggregates). */
module DataProcessing {
  import opened Wrappers
  import opened Strings
  import opened Seqs

  /** One row of the season table. The first block holds the columns read from
      the file; the second block the columns the pipeline derives. */
  datatype PlayerRow = PlayerRow(
    player: string, team: string, pos: string, age: int, games: int,
    pts: real, trb: real, ast: real, stl: real, blk: real, tov: real,
    fga: real, fta: real, ft: real, mp: real,
    fgPct: real, threePct: real, ftPct: real,
    fantasyPoints: real, per: real, usageRate: real, tsPct: real, ftr: real,
    astTovRatio: real, hastPct: real, tovPct: real, playerType: string)

  /** A scoring weight per counted stat. */
  datatype Weights = Weights(pts: real, trb: real, ast: real, stl: real, blk: real, tov: real)

  /** The loader's standard scoring. Its rebound weight is 1.25, whereas the
      per-row scorer of the utilities and the dashboard footer use 1.2. */
  const DefaultWeights := Weights(1.0, 1.25, 1.5, 2.0, 2.0, -1.0)

  /** Every counted stat at weight one, turnovers at minus one. */
  const UnitWeights := Weights(1.0, 1.0, 1.0, 1.0, 1.0, -1.0)

  function FantasyPoints(r: PlayerRow, w: Weights): real {
    r.pts * w.pts + r.trb * w.trb + r.ast * w.ast + r.stl * w.stl + r.blk * w.blk + r.tov * w.tov
  }

  /** `calculate_fantasy_points_with_weights` on one row; no weights selects
      the defaults. */
  function FantasyPointsWithWeights(r: PlayerRow, weights: Option<Weights>): (s: real)
    ensures weights.None? ==> s == r.pts + 1.25 * r.trb + 1.5 * r.ast + 2.0 * r.stl + 2.0 * r.blk - r.tov
    ensures weights.Some? ==>
      var w := weights.value;
      s == w.pts * r.pts + w.trb * r.trb + w.ast * r.ast + w.stl * r.stl + w.blk * r.blk + w.tov * r.tov
  {
    match weights
    case None => FantasyPoints(r, DefaultWeights)
    case Some(w) => FantasyPoints(r, w)
  }

  function WeightDiff(w1: Weights, w2: Weights): Weights {
    Weights(w1.pts - w2.pts, w1.trb - w2.trb, w1.ast - w2.ast,
            w1.stl - w2.stl, w1.blk - w2.blk, w1.tov - w2.tov)
  }

  /** Scoring is linear in the weights: rescoring a row with other weights
      moves its score by the stats dotted with the weight difference. */
  lemma FantasyPointsLinear(r: PlayerRow, w1: Weights, w2: Weights)
    ensures FantasyPoints(r, w1) - FantasyPoints(r, w2) == FantasyPoints(r, WeightDiff(w1, w2))
  {
  }

  // ---------------------------------------------------------------------
  // Derived metrics of `load_data`
  // ---------------------------------------------------------------------

  /** Field-goal attempts plus 0.475 free-throw attempts. */
  function ShootingAttempts(r: PlayerRow): real {
    r.fga + 0.475 * r.fta
  }

  /** The shared denominator of hAST% and TOV%. */
  function PossessionsUsed(r: PlayerRow): real {
    r.fga + 0.475 * r.fta + r.ast + r.tov
  }

  /** The derived columns of `load_data` for one row. The loader divides by
      minutes played without a guard, so the row must have minutes. */
  function DeriveMetrics(r: PlayerRow): (d: PlayerRow)
    requires r.mp != 0.0
    ensures d.(fantasyPoints := r.fantasyPoints, per := r.per, usageRate := r.usageRate,
               tsPct := r.tsPct, ftr := r.ftr, astTovRatio := r.astTovRatio,
               hastPct := r.hastPct, tovPct := r.tovPct) == r
    ensures d.fantasyPoints == FantasyPointsWithWeights(r, None)
    ensures d.per == FantasyPoints(r, UnitWeights)
    ensures d.usageRate * r.mp == (r.fga + 0.44 * r.fta + r.ast) * 100.0
    ensures 2.0 * ShootingAttempts(r) > 0.0 ==> d.tsPct * (2.0 * ShootingAttempts(r)) == r.pts
    ensures 2.0 * ShootingAttempts(r) <= 0.0 ==> d.tsPct == 0.0
    ensures r.fga > 0.0 ==> d.ftr * r.fga == r.ft
    ensures r.fga <= 0.0 ==> d.ftr == 0.0
    ensures r.tov > 0.0 ==> d.astTovRatio * r.tov == r.ast
    ensures r.tov <= 0.0 ==> d.astTovRatio == 10.0 * r.ast
    ensures PossessionsUsed(r) > 0.0 ==> d.hastPct * PossessionsUsed(r) == r.ast
    ensures PossessionsUsed(r) > 0.0 ==> d.tovPct * PossessionsUsed(r) == r.tov
    ensures PossessionsUsed(r) <= 0.0 ==> d.hastPct == 0.0 && d.tovPct == 0.0
  {
    var denominatorTs := 2.0 * (r.fga + 0.475 * r.fta);
    var denominatorHast := r.fga + 0.475 * r.fta + r.ast + r.tov;
    var denominatorTov := r.fga + 0.475 * r.fta + r.ast + r.tov;
    r.(fantasyPoints := FantasyPointsWithWeights(r, None),
       per := r.pts + r.trb + r.ast + r.stl + r.blk - r.tov,
       usageRate := (r.fga + r.fta * 0.44 + r.ast) / r.mp * 100.0,
       tsPct := if denominatorTs > 0.0 then r.pts / denominatorTs else 0.0,
       ftr := if r.fga > 0.0 then r.ft / r.fga else 0.0,
       astTovRatio := if r.tov > 0.0 then r.ast / r.tov else r.ast / 0.1,
       hastPct := if denominatorHast > 0.0 then r.ast / denominatorHast else 0.0,
       tovPct := if denominatorTov > 0.0 then r.tov / denominatorTov else 0.0)
  }

  /** With non-negative counting stats, hAST% and TOV% are shares of one
      denominator: each lies in [0, 1] and together they do not exceed 1. */
  lemma SharesBounded(r: PlayerRow)
    requires r.mp != 0.0
    requires r.fga >= 0.0 && r.fta >= 0.0 && r.ast >= 0.0 && r.tov >= 0.0
    ensures var d := DeriveMetrics(r);
      0.0 <= d.hastPct <= 1.0 && 0.0 <= d.tovPct <= 1.0 && d.hastPct + d.tovPct <= 1.0
  {
    var d := DeriveMetrics(r);
    var u := PossessionsUsed(r);
    if u > 0.0 {
      ShareOf(r.ast, u);
      ShareOf(r.tov, u);
      ShareOf(r.ast + r.tov, u);
      assert d.hastPct + d.tovPct == (r.ast + r.tov) / u;
    }
  }

  lemma ShareOf(part: real, whole: real)
    requires whole > 0.0 && 0.0 <= part <= whole
    ensures 0.0 <= part / whole <= 1.0
  {
  }

  /** The zero-denominator fallback of TS% applies only when there are no
      attempts of either kind: a player with free-throw attempts but no
      field-goal attempts has a positive TS% after scoring. */
  lemma FreeThrowShooterHasTrueShooting(r: PlayerRow)
    requires r.mp != 0.0 && r.fga == 0.0 && r.fta > 0.0 && r.pts > 0.0
    ensures DeriveMetrics(r).tsPct > 0.0
  {
    var d := DeriveMetrics(r);
    assert d.tsPct * (2.0 * ShootingAttempts(r)) == r.pts;
  }

  // ---------------------------------------------------------------------
  // Duplicate resolution (`handle_duplicate_players`)
  // ---------------------------------------------------------------------

  function IsPlayer(p: string): PlayerRow -> bool {
    (r: PlayerRow) => r.player == p
  }

  /** The rows of player `p`, in table order. */
  function PlayerRows(t: seq<PlayerRow>, p: string): seq<PlayerRow> {
    Filter(t, IsPlayer(p))
  }

  /** `value_counts()` of the player column, at `p`. */
  function Count(t: seq<PlayerRow>, p: string): nat {
    |PlayerRows(t, p)|
  }

  /** A season-total row of a player who moved: its team code holds "TM". */
  predicate IsCombined(r: PlayerRow) {
    Contains(r.team, "TM")
  }

  function IsCombinedRowOf(p: string): PlayerRow -> bool {
    (r: PlayerRow) => r.player == p && IsCombined(r)
  }

  /** The combined rows of player `p`, in table order. */
  function CombinedRows(t: seq<PlayerRow>, p: string): seq<PlayerRow> {
    Filter(t, IsCombinedRowOf(p))
  }

  predicate HasCombinedRow(t: seq<PlayerRow>, p: string) {
    exists j :: 0 <= j < |t| && t[j].player == p && IsCombined(t[j])
  }

  /** `k` is `idxmax` of the points of `p`'s rows: the first of them with the
      largest points. */
  ghost predicate IsFirstMax(t: seq<PlayerRow>, p: string, k: int) {
    && 0 <= k < |t| && t[k].player == p
    && (forall j :: 0 <= j < |t| && t[j].player == p ==> t[j].pts <= t[k].pts)
    && (forall j :: 0 <= j < k && t[j].player == p ==> t[j].pts < t[k].pts)
  }

  lemma FirstMaxUnique(t: seq<PlayerRow>, p: string, a: int, b: int)
    requires IsFirstMax(t, p, a) && IsFirstMax(t, p, b)
    ensures a == b
  {
  }

  /** Every player that has a row has a first row of maximal points. */
  lemma {:induction false} FirstMaxExists(t: seq<PlayerRow>, p: string)
    requires exists j :: 0 <= j < |t| && t[j].player == p
    ensures exists k :: IsFirstMax(t, p, k)
    decreases |t|
  {
    var n := |t|;
    var t' := t[..n - 1];
    if exists j :: 0 <= j < n - 1 && t'[j].player == p {
      FirstMaxExists(t', p);
      var k :| IsFirstMax(t', p, k);
      if t[n - 1].player == p && t[n - 1].pts > t[k].pts {
        assert IsFirstMax(t, p, n - 1);
      } else {
        assert IsFirstMax(t, p, k);
      }
    } else {
      assert IsFirstMax(t, p, n - 1);
    }
  }

  /** Whether the resolver keeps row `j`: rows of players listed once stay;
      of a player listed several times, the combined rows stay when there is
      one, and otherwise the first row with the most points. */
  ghost predicate Keep(t: seq<PlayerRow>, j: int)
    requires 0 <= j < |t|
  {
    var p := t[j].player;
    || Count(t, p) <= 1
    || (HasCombinedRow(t, p) && IsCombined(t[j]))
    || (!HasCombinedRow(t, p) && IsFirstMax(t, p, j))
  }

  ghost function KeepMask(t: seq<PlayerRow>): (m: seq<bool>)
    ensures |m| == |t|
    ensures forall j :: 0 <= j < |t| ==> m[j] == Keep(t, j)
  {
    seq(|t|, j requires 0 <= j < |t| => Keep(t, j))
  }

  /** The table `handle_duplicate_players` returns. */
  ghost function Resolve(t: seq<PlayerRow>): (r: seq<PlayerRow>)
    ensures |r| <= |t|
    ensures IsSubsequence(r, t)
    ensures forall x :: x in r ==> x in t
  {
    MaskSubsequence(t, KeepMask(t));
    MaskMembers(t, KeepMask(t));
    Mask(t, KeepMask(t))
  }

  function IsDuplicated(t: seq<PlayerRow>): PlayerRow -> bool {
    (r: PlayerRow) => Count(t, r.player) > 1
  }

  function Names(t: seq<PlayerRow>): (names: seq<string>)
    ensures |names| == |t|
    ensures forall i :: 0 <= i < |t| ==> names[i] == t[i].player
  {
    seq(|t|, i requires 0 <= i < |t| => t[i].player)
  }

  /** The players with more than one row, each once. */
  function DuplicatePlayers(t: seq<PlayerRow>): (d: seq<string>)
    ensures forall p :: p in d <==> Count(t, p) > 1
    ensures forall i, j :: 0 <= i < j < |d| ==> d[i] != d[j]
  {
    var rows := Filter(t, IsDuplicated(t));
    var d := SortedDistinct(Names(rows));
    FilterMembers(t, IsDuplicated(t));
    forall p ensures p in d <==> Count(t, p) > 1 {
      if Count(t, p) > 1 {
        var x := PlayerRows(t, p)[0];
        FilterMembers(t, IsPlayer(p));
        assert x in rows;
        var i :| 0 <= i < |rows| && rows[i] == x;
        assert Names(rows)[i] == p;
      }
      if p in d {
        assert p in Names(rows);
        var i :| 0 <= i < |rows| && Names(rows)[i] == p;
        assert rows[i] in rows;
      }
    }
    forall i, j | 0 <= i < j < |d| ensures d[i] != d[j] {
      LessIrreflexive(d[i]);
    }
    d
  }

  /** The index of the first row of `p`, among the rows still in the table,
      with the most points (`player_rows['PTS'].idxmax()`). */
  method IdxMaxPoints(df: seq<PlayerRow>, keep: seq<bool>, p: string) returns (best: nat)
    requires |keep| == |df|
    requires exists j :: 0 <= j < |df| && keep[j] && df[j].player == p
    ensures best < |df| && keep[best] && df[best].player == p
    ensures forall j :: 0 <= j < |df| && keep[j] && df[j].player == p ==> df[j].pts <= df[best].pts
    ensures forall j :: 0 <= j < best && keep[j] && df[j].player == p ==> df[j].pts < df[best].pts
  {
    var found := false;
    best := 0;
    for j := 0 to |df|
      invariant found ==> best < j && keep[best] && df[best].player == p
      invariant found ==> forall i :: 0 <= i < j && keep[i] && df[i].player == p ==> df[i].pts <= df[best].pts
      invariant found ==> forall i :: 0 <= i < best && keep[i] && df[i].player == p ==> df[i].pts < df[best].pts
      invariant !found ==> forall i :: 0 <= i < j ==> !(keep[i] && df[i].player == p)
    {
      if keep[j] && df[j].player == p && (!found || df[j].pts > df[best].pts) {
        best := j;
        found := true;
      }
    }
  }

  /** The mask after the players of `done` have been handled: rows of those
      players carry the resolver's decision, all other rows are still kept. */
  ghost predicate HandledMask(df: seq<PlayerRow>, keep: seq<bool>, done: seq<string>) {
    && |keep| == |df|
    && forall j :: 0 <= j < |df| ==> keep[j] == (df[j].player in done ==> Keep(df, j))
  }

  /** `processed_df[~((processed_df['Player'] == player) & (~processed_df['Team'].str.contains('TM', na=False)))]`. */
  function DropUncombined(df: seq<PlayerRow>, keep: seq<bool>, p: string): (m: seq<bool>)
    requires |keep| == |df|
    ensures |m| == |df|
    ensures forall j :: 0 <= j < |df| ==> m[j] == (keep[j] && !(df[j].player == p && !IsCombined(df[j])))
  {
    seq(|df|, j requires 0 <= j < |df| => keep[j] && !(df[j].player == p && !IsCombined(df[j])))
  }

  /** `processed_df[~((processed_df['Player'] == player) & (processed_df.index != best_row.name))]`. */
  function DropAllBut(df: seq<PlayerRow>, keep: seq<bool>, p: string, best: int): (m: seq<bool>)
    requires |keep| == |df|
    ensures |m| == |df|
    ensures forall j :: 0 <= j < |df| ==> m[j] == (keep[j] && !(df[j].player == p && j != best))
  {
    seq(|df|, j requires 0 <= j < |df| => keep[j] && !(df[j].player == p && j != best))
  }

  /** Before a duplicated player is handled, all of that player's rows are still kept, so
      the scans over the kept rows see all of them. */
  lemma UnhandledPlayerRows(df: seq<PlayerRow>, keep: seq<bool>, done: seq<string>, p: string)
    requires HandledMask(df, keep, done) && p !in done && Count(df, p) > 1
    ensures (exists j :: 0 <= j < |df| && keep[j] && df[j].player == p && IsCombined(df[j]))
            == HasCombinedRow(df, p)
    ensures exists j :: 0 <= j < |df| && keep[j] && df[j].player == p
    ensures forall k :: (0 <= k < |df| && keep[k] && df[k].player == p
                         && (forall j :: 0 <= j < |df| && keep[j] && df[j].player == p ==> df[j].pts <= df[k].pts)
                         && (forall j :: 0 <= j < k && keep[j] && df[j].player == p ==> df[j].pts < df[k].pts))
                        ==> IsFirstMax(df, p, k)
  {
    assert forall j :: 0 <= j < |df| && df[j].player == p ==> keep[j];
    var x := PlayerRows(df, p)[0];
    FilterMembers(df, IsPlayer(p));
    assert x in Filter(df, IsPlayer(p));
    assert x in df && x.player == p;
    var j :| 0 <= j < |df| && df[j] == x;
    assert keep[j];
  }

  lemma DropUncombinedStep(df: seq<PlayerRow>, keep: seq<bool>, done: seq<string>, p: string)
    requires HandledMask(df, keep, done) && p !in done
    requires Count(df, p) > 1 && HasCombinedRow(df, p)
    ensures HandledMask(df, DropUncombined(df, keep, p), done + [p])
  {
  }

  lemma DropAllButStep(df: seq<PlayerRow>, keep: seq<bool>, done: seq<string>, p: string, best: int)
    requires HandledMask(df, keep, done) && p !in done
    requires Count(df, p) > 1 && !HasCombinedRow(df, p) && IsFirstMax(df, p, best)
    ensures HandledMask(df, DropAllBut(df, keep, p, best), done + [p])
  {
    forall j | 0 <= j < |df| && IsFirstMax(df, p, j) ensures j == best {
      FirstMaxUnique(df, p, j, best);
    }
  }

  lemma HandledAll(df: seq<PlayerRow>, keep: seq<bool>, done: seq<string>)
    requires HandledMask(df, keep, done)
    requires forall p :: Count(df, p) > 1 ==> p in done
    ensures keep == KeepMask(df)
  {
  }

  /** `handle_duplicate_players`. The data frame keeps its index labels while
      rows are dropped, so the working table is the input under a mask of
      surviving rows; each step clears the mask for one duplicated player. */
  method HandleDuplicatePlayers(df: seq<PlayerRow>) returns (processed: seq<PlayerRow>)
    ensures processed == Resolve(df)
  {
    var keep := seq(|df|, j => true);
    var duplicatePlayers := DuplicatePlayers(df);
    for k := 0 to |duplicatePlayers|
      invariant HandledMask(df, keep, duplicatePlayers[..k])
    {
      var player := duplicatePlayers[k];
      assert duplicatePlayers[..k + 1] == duplicatePlayers[..k] + [player];
      var hasCombined := exists j | 0 <= j < |df| :: keep[j] && df[j].player == player && IsCombined(df[j]);
      UnhandledPlayerRows(df, keep, duplicatePlayers[..k], player);
      if hasCombined {
        DropUncombinedStep(df, keep, duplicatePlayers[..k], player);
        keep := DropUncombined(df, keep, player);
      } else {
        var best := IdxMaxPoints(df, keep, player);
        DropAllButStep(df, keep, duplicatePlayers[..k], player, best);
        keep := DropAllBut(df, keep, player, best);
      }
    }
    assert duplicatePlayers[..|duplicatePlayers|] == duplicatePlayers;
    HandledAll(df, keep, duplicatePlayers);
    processed := Mask(df, keep);
  }

  /** The resolver's output is an order-preserving subsequence of its input. */
  lemma ResolveIsSubsequence(df: seq<PlayerRow>)
    ensures IsSubsequence(Resolve(df), df)
  {
    MaskSubsequence(df, KeepMask(df));
  }

  /** A player listed once keeps that row, and a player not listed stays absent. */
  lemma ResolveKeepsSingleRowPlayers(df: seq<PlayerRow>, p: string)
    requires Count(df, p) <= 1
    ensures PlayerRows(Resolve(df), p) == PlayerRows(df, p)
  {
    FilterOfMask(df, KeepMask(df), IsPlayer(p));
    FilterIsMask(df, IsPlayer(p));
    assert AndMask(df, KeepMask(df), IsPlayer(p)) == Map(df, IsPlayer(p));
  }

  /** A player listed several times with a combined row keeps exactly the
      combined rows, in table order. */
  lemma ResolveKeepsCombinedRows(df: seq<PlayerRow>, p: string)
    requires Count(df, p) > 1 && HasCombinedRow(df, p)
    ensures PlayerRows(Resolve(df), p) == CombinedRows(df, p)
  {
    FilterOfMask(df, KeepMask(df), IsPlayer(p));
    FilterIsMask(df, IsCombinedRowOf(p));
    assert AndMask(df, KeepMask(df), IsPlayer(p)) == Map(df, IsCombinedRowOf(p));
  }

  /** A player listed several times without a combined row keeps exactly one
      row: the first one with the most points. */
  lemma ResolveKeepsBestRow(df: seq<PlayerRow>, p: string)
    requires Count(df, p) > 1 && !HasCombinedRow(df, p)
    ensures exists k :: IsFirstMax(df, p, k) && PlayerRows(Resolve(df), p) == [df[k]]
  {
    FilterMembers(df, IsPlayer(p));
    assert PlayerRows(df, p)[0] in df;
    FirstMaxExists(df, p);
    var k :| IsFirstMax(df, p, k);
    FilterOfMask(df, KeepMask(df), IsPlayer(p));
    var m := AndMask(df, KeepMask(df), IsPlayer(p));
    forall j | 0 <= j < |df| ensures m[j] <==> j == k {
      if m[j] {
        FirstMaxUnique(df, p, j, k);
      }
    }
    MaskSingle(df, m, k);
  }

  /** Unless a player has two combined rows, names are unique after resolution. */
  lemma ResolveNamesUnique(df: seq<PlayerRow>, p: string)
    requires |CombinedRows(df, p)| <= 1
    ensures Count(Resolve(df), p) <= 1
  {
    if Count(df, p) <= 1 {
      ResolveKeepsSingleRowPlayers(df, p);
    } else if HasCombinedRow(df, p) {
      ResolveKeepsCombinedRows(df, p);
    } else {
      ResolveKeepsBestRow(df, p);
    }
  }

  // ---------------------------------------------------------------------
  // Position labels (`create_player_clusters`)
  // ---------------------------------------------------------------------

  const PositionCodes: seq<string> := ["PG", "SG", "SF", "PF", "C"]
  const PositionNames: seq<string> := ["Point Guard", "Shooting Guard", "Small Forward", "Power Forward", "Center"]

  /** The label after the first `k` labelling passes: a later pass overwrites
      an earlier one, and a row no pass matched keeps "Other". */
  function LabelAfter(pos: string, k: nat): string
    requires k <= |PositionCodes|
  {
    if k == 0 then "Other"
    else if pos == PositionCodes[k - 1] then PositionNames[k - 1]
    else LabelAfter(pos, k - 1)
  }

  /** The player type of a position: one label per standard position code,
      "Other" for any other code. */
  function PositionLabel(pos: string): (typeName: string)
    ensures typeName == "Point Guard" <==> pos == "PG"
    ensures typeName == "Shooting Guard" <==> pos == "SG"
    ensures typeName == "Small Forward" <==> pos == "SF"
    ensures typeName == "Power Forward" <==> pos == "PF"
    ensures typeName == "Center" <==> pos == "C"
    ensures typeName == "Other" <==> pos !in PositionCodes
  {
    assert LabelAfter(pos, 1) == if pos == "PG" then "Point Guard" else "Other";
    assert LabelAfter(pos, 2) == if pos == "SG" then "Shooting Guard" else LabelAfter(pos, 1);
    assert LabelAfter(pos, 3) == if pos == "SF" then "Small Forward" else LabelAfter(pos, 2);
    assert LabelAfter(pos, 4) == if pos == "PF" then "Power Forward" else LabelAfter(pos, 3);
    assert LabelAfter(pos, 5) == if pos == "C" then "Center" else LabelAfter(pos, 4);
    assert "Small Forward"[1] != "Power Forward"[1];
    LabelAfter(pos, |PositionCodes|)
  }

  function Clustered(t: seq<PlayerRow>): (c: seq<PlayerRow>)
    ensures |c| == |t|
    ensures forall i :: 0 <= i < |t| ==> c[i] == t[i].(playerType := PositionLabel(t[i].pos))
  {
    seq(|t|, i requires 0 <= i < |t| => t[i].(playerType := PositionLabel(t[i].pos)))
  }

  /** `create_player_clusters`: set every type to "Other", then one masked
      assignment per position code, on the table in place. */
  method CreatePlayerClusters(a: array<PlayerRow>)
    modifies a
    ensures a[..] == Clustered(old(a[..]))
  {
    for i := 0 to a.Length
      invariant forall j :: 0 <= j < i ==> a[j] == Labelled(old(a[j]), 0)
      invariant forall j :: i <= j < a.Length ==> a[j] == old(a[j])
    {
      a[i] := a[i].(playerType := "Other");
    }
    for k := 0 to |PositionCodes|
      invariant forall j :: 0 <= j < a.Length ==> a[j] == Labelled(old(a[j]), k)
    {
      var code, name := PositionCodes[k], PositionNames[k];
      for i := 0 to a.Length
        invariant forall j :: 0 <= j < i ==> a[j] == Labelled(old(a[j]), k + 1)
        invariant forall j :: i <= j < a.Length ==> a[j] == Labelled(old(a[j]), k)
      {
        if a[i].pos == code {
          a[i] := a[i].(playerType := name);
        }
      }
    }
  }

  /** A row as it stands after the first `k` labelling passes. */
  function Labelled(r: PlayerRow, k: nat): (l: PlayerRow)
    requires k <= |PositionCodes|
    ensures k == |PositionCodes| ==> l.playerType == PositionLabel(r.pos)
  {
    r.(playerType := LabelAfter(r.pos, k))
  }

  // ---------------------------------------------------------------------
  // Loading (`load_data`)
  // ---------------------------------------------------------------------

  /** A row as read from the spreadsheet, with the names of its missing cells. */
  datatype SourceRow = SourceRow(row: PlayerRow, missing: set<string>)

  /** The columns `dropna` requires. */
  const RequiredColumns: set<string> := {"Player", "PTS", "TRB", "AST"}

  function IsComplete(): SourceRow -> bool {
    (s: SourceRow) => s.missing !! RequiredColumns
  }

  function RowOf(s: SourceRow): PlayerRow {
    s.row
  }

  /** `dropna(subset=['Player', 'PTS', 'TRB', 'AST'])`: exactly the rows with
      all four cells present, in file order. */
  function DropIncomplete(raw: seq<SourceRow>): (t: seq<PlayerRow>)
    ensures |t| <= |raw|
    ensures t == Mask(Map(raw, RowOf), Map(raw, IsComplete()))
    ensures forall x :: x in t <==> exists s :: s in raw && s.missing !! RequiredColumns && s.row == x
  {
    var kept := Filter(raw, IsComplete());
    FilterMembers(raw, IsComplete());
    FilterIsMask(raw, IsComplete());
    MapMask(raw, Map(raw, IsComplete()), RowOf);
    MapMembers(kept, RowOf);
    Map(kept, RowOf)
  }

  /** The derived columns of every row. */
  function DeriveAll(t: seq<PlayerRow>): (d: seq<PlayerRow>)
    requires forall i :: 0 <= i < |t| ==> t[i].mp != 0.0
    ensures |d| == |t|
    ensures forall i :: 0 <= i < |t| ==> d[i] == DeriveMetrics(t[i])
  {
    seq(|t|, i requires 0 <= i < |t| => DeriveMetrics(t[i]))
  }

  /** The enriched table: complete rows, duplicates resolved, derived
      columns, player types. */
  ghost function Loaded(raw: seq<SourceRow>): seq<PlayerRow>
    requires forall x :: x in Resolve(DropIncomplete(raw)) ==> x.mp != 0.0
  {
    var resolved := Resolve(DropIncomplete(raw));
    assert forall i :: 0 <= i < |resolved| ==> resolved[i] in resolved;
    Clustered(DeriveAll(resolved))
  }

  /** `load_data` after the spreadsheet has been read into `raw`. */
  method LoadData(raw: seq<SourceRow>) returns (df: seq<PlayerRow>)
    requires forall x :: x in Resolve(DropIncomplete(raw)) ==> x.mp != 0.0
    ensures df == Loaded(raw)
  {
    var clean := DropIncomplete(raw);
    var resolved := HandleDuplicatePlayers(clean);
    assert forall i :: 0 <= i < |resolved| ==> resolved[i] in resolved;
    var derived := DeriveAll(resolved);
    var table := new PlayerRow[|derived|](i requires 0 <= i < |derived| => derived[i]);
    assert table[..] == derived;
    CreatePlayerClusters(table);
    df := table[..];
  }

  /** Rows of the loaded table are consistent: the stored fantasy points and
      PER are the scores of the row's own stats, and the player type is the
      label of the row's position. */
  lemma LoadedRowsConsistent(raw: seq<SourceRow>, i: int)
    requires forall x :: x in Resolve(DropIncomplete(raw)) ==> x.mp != 0.0
    requires 0 <= i < |Loaded(raw)|
    ensures var x := Loaded(raw)[i];
      && x.fantasyPoints == FantasyPoints(x, DefaultWeights)
      && x.per == FantasyPoints(x, UnitWeights)
      && x.playerType == PositionLabel(x.pos)
      && x.mp != 0.0
  {
    var y := LoadedRowSource(raw, i);
    var d := DeriveMetrics(y);
    assert Loaded(raw)[i] == d.(playerType := PositionLabel(d.pos));
  }

  lemma LoadedRowSource(raw: seq<SourceRow>, i: int) returns (y: PlayerRow)
    requires forall x :: x in Resolve(DropIncomplete(raw)) ==> x.mp != 0.0
    requires 0 <= i < |Loaded(raw)|
    ensures y.mp != 0.0
    ensures y in Resolve(DropIncomplete(raw))
    ensures exists s :: s in raw && s.missing !! RequiredColumns && s.row == y
    ensures Loaded(raw)[i] == DeriveMetrics(y).(playerType := PositionLabel(y.pos))
  {
    var clean := DropIncomplete(raw);
    var resolved := Resolve(clean);
    y := resolved[i];
    assert y in resolved;
    assert y in clean;
  }

  lemma {:induction false} CountSameNames(t: seq<PlayerRow>, u: seq<PlayerRow>, p: string)
    requires |t| == |u| && forall i :: 0 <= i < |t| ==> u[i].player == t[i].player
    ensures Count(u, p) == Count(t, p)
    decreases |t|
  {
    if t != [] {
      CountSameNames(t[..|t| - 1], u[..|u| - 1], p);
    }
  }

  /** Unless a player has two combined rows among the complete rows, that name
      occurs at most once in the loaded table. */
  lemma LoadedNamesUnique(raw: seq<SourceRow>, p: string)
    requires forall x :: x in Resolve(DropIncomplete(raw)) ==> x.mp != 0.0
    requires |CombinedRows(DropIncomplete(raw), p)| <= 1
    ensures Count(Loaded(raw), p) <= 1
  {
    var clean := DropIncomplete(raw);
    ResolveNamesUnique(clean, p);
    CountSameNames(Resolve(clean), Loaded(raw), p);
  }

  // ---------------------------------------------------------------------
  // Queries over the enriched table
  // ---------------------------------------------------------------------

  /** Every row rescored with the given weights; without weights the table is
      returned unchanged. */
  function Rescore(t: seq<PlayerRow>, weights: Option<Weights>): (r: seq<PlayerRow>)
    ensures |r| == |t|
    ensures forall i :: 0 <= i < |t| ==>
      r[i] == if weights.Some? then t[i].(fantasyPoints := FantasyPoints(t[i], weights.value)) else t[i]
  {
    match weights
    case None => t
    case Some(w) => seq(|t|, i requires 0 <= i < |t| => t[i].(fantasyPoints := FantasyPoints(t[i], w)))
  }

  function PositionIs(position: string): PlayerRow -> bool {
    (r: PlayerRow) => r.pos == position
  }

  function TeamIs(team: string): PlayerRow -> bool {
    (r: PlayerRow) => r.team == team
  }

  function WithinRanges(ageRange: (int, int), minGames: int, ppgRange: (real, real)): PlayerRow -> bool {
    (r: PlayerRow) =>
      ageRange.0 <= r.age <= ageRange.1 && r.games >= minGames && ppgRange.0 <= r.pts <= ppgRange.1
  }

  /** The dashboard's filter as one row predicate; "All" disables the
      position or team test. */
  function MatchesFilters(position: string, team: string, ageRange: (int, int), minGames: int,
                          ppgRange: (real, real)): PlayerRow -> bool {
    (r: PlayerRow) =>
      (position == "All" || r.pos == position) && (team == "All" || r.team == team)
      && ageRange.0 <= r.age <= ageRange.1 && r.games >= minGames && ppgRange.0 <= r.pts <= ppgRange.1
  }

  /** `apply_filters`: the position, team and range filters applied one after
      the other, then the optional rescoring. The staged filters amount to the
      single conjunctive filter. */
  function ApplyFilters(df: seq<PlayerRow>, position: string := "All", team: string := "All",
                        ageRange: (int, int) := (19, 40), minGames: int := 20,
                        ppgRange: (real, real) := (0.0, 50.0), weights: Option<Weights> := None): (r: seq<PlayerRow>)
    ensures r == Rescore(Filter(df, MatchesFilters(position, team, ageRange, minGames, ppgRange)), weights)
  {
    var byPosition := if position != "All" then Filter(df, PositionIs(position)) else df;
    var byTeam := if team != "All" then Filter(byPosition, TeamIs(team)) else byPosition;
    var ranged := Filter(byTeam, WithinRanges(ageRange, minGames, ppgRange));
    StagedFilters(df, position, team, ageRange, minGames, ppgRange);
    Rescore(ranged, weights)
  }

  /** Every row of the filtered table passes the filters, also after rescoring. */
  lemma FilteredRowsMatch(df: seq<PlayerRow>, position: string, team: string, ageRange: (int, int),
                          minGames: int, ppgRange: (real, real), weights: Option<Weights>)
    ensures forall i :: 0 <= i < |ApplyFilters(df, position, team, ageRange, minGames, ppgRange, weights)| ==>
      MatchesFilters(position, team, ageRange, minGames, ppgRange)(
        ApplyFilters(df, position, team, ageRange, minGames, ppgRange, weights)[i])
  {
    var matches := MatchesFilters(position, team, ageRange, minGames, ppgRange);
    var kept := Filter(df, matches);
    FilterMembers(df, matches);
    assert forall i :: 0 <= i < |kept| ==> kept[i] in kept;
  }

  /** Without weights the filtered table is exactly the matching input rows,
      in table order. */
  lemma FilteredRowsExact(df: seq<PlayerRow>, position: string, team: string, ageRange: (int, int),
                          minGames: int, ppgRange: (real, real))
    ensures IsSubsequence(ApplyFilters(df, position, team, ageRange, minGames, ppgRange, None), df)
    ensures forall x :: (x in ApplyFilters(df, position, team, ageRange, minGames, ppgRange, None)
      <==> x in df && MatchesFilters(position, team, ageRange, minGames, ppgRange)(x))
  {
    var matches := MatchesFilters(position, team, ageRange, minGames, ppgRange);
    FilterMembers(df, matches);
    FilterSubsequence(df, matches);
  }

  /** With weights every filtered row carries the fantasy points of those weights. */
  lemma FilteredRowsRescored(df: seq<PlayerRow>, position: string, team: string, ageRange: (int, int),
                             minGames: int, ppgRange: (real, real), w: Weights)
    ensures forall i :: 0 <= i < |ApplyFilters(df, position, team, ageRange, minGames, ppgRange, Some(w))| ==>
      ApplyFilters(df, position, team, ageRange, minGames, ppgRange, Some(w))[i].fantasyPoints
        == FantasyPoints(ApplyFilters(df, position, team, ageRange, minGames, ppgRange, Some(w))[i], w)
  {
  }

  lemma StagedFilters(df: seq<PlayerRow>, position: string, team: string, ageRange: (int, int),
                      minGames: int, ppgRange: (real, real))
    ensures var byPosition := if position != "All" then Filter(df, PositionIs(position)) else df;
      var byTeam := if team != "All" then Filter(byPosition, TeamIs(team)) else byPosition;
      Filter(byTeam, WithinRanges(ageRange, minGames, ppgRange))
        == Filter(df, MatchesFilters(position, team, ageRange, minGames, ppgRange))
  {
    var positionTest := (r: PlayerRow) => position == "All" || r.pos == position;
    var teamTest := (r: PlayerRow) => team == "All" || r.team == team;
    var both := (r: PlayerRow) => positionTest(r) && teamTest(r);
    var byPosition := if position != "All" then Filter(df, PositionIs(position)) else df;
    var byTeam := if team != "All" then Filter(byPosition, TeamIs(team)) else byPosition;
    if position != "All" {
      FilterExt(df, PositionIs(position), positionTest);
    } else {
      FilterAll(df, positionTest);
    }
    assert byPosition == Filter(df, positionTest);
    if team != "All" {
      FilterExt(byPosition, TeamIs(team), teamTest);
    } else {
      FilterAll(byPosition, teamTest);
    }
    assert byTeam == Filter(byPosition, teamTest);
    FilterFilter(df, positionTest, teamTest, both);
    FilterFilter(df, both, WithinRanges(ageRange, minGames, ppgRange),
                 MatchesFilters(position, team, ageRange, minGames, ppgRange));
  }

  function FantasyKey(r: PlayerRow): real {
    r.fantasyPoints
  }

  function MinGames(minGames: int): PlayerRow -> bool {
    (r: PlayerRow) => r.games >= minGames
  }

  /** The secondary score of `create_fantasy_ranking` (also
      `calculate_weighted_fantasy_score` in the utilities). */
  function WeightedFantasyScore(r: PlayerRow): (s: real)
    ensures s == 0.4 * r.fantasyPoints + 0.3 * r.per + 0.2 * r.usageRate + (r.fgPct + r.threePct + r.ftPct) / 30.0
  {
    r.fantasyPoints * 0.4 + r.per * 0.3 + r.usageRate * 0.2 + (r.fgPct + r.threePct + r.ftPct) / 3.0 * 0.1
  }

  /** The weighted score rises with fantasy points, the other inputs fixed. */
  lemma WeightedScoreMonotone(r: PlayerRow, fp: real)
    requires fp >= r.fantasyPoints
    ensures WeightedFantasyScore(r.(fantasyPoints := fp)) - WeightedFantasyScore(r) == 0.4 * (fp - r.fantasyPoints)
    ensures WeightedFantasyScore(r.(fantasyPoints := fp)) >= WeightedFantasyScore(r)
  {
  }

  /** A row of the fantasy ranking. */
  datatype RankedRow = RankedRow(row: PlayerRow, weightedScore: real, rank: nat)

  function RowOfRanked(x: RankedRow): PlayerRow {
    x.row
  }

  /** The rows eligible for the ranking have enough games. */
  lemma EligibleRows(df: seq<PlayerRow>, minGames: int, weights: Option<Weights>)
    ensures forall i :: 0 <= i < |Rescore(Filter(df, MinGames(minGames)), weights)| ==>
      MinGames(minGames)(Rescore(Filter(df, MinGames(minGames)), weights)[i])
  {
    var kept := Filter(df, MinGames(minGames));
    FilterMembers(df, MinGames(minGames));
    assert forall i :: 0 <= i < |kept| ==> kept[i] in kept;
  }

  /** `create_fantasy_ranking`: the players with enough games, rescored when
      weights are given, ordered by fantasy points from the highest, with the
      weighted score attached and ranks 1, 2, ... in that order. */
  function CreateFantasyRanking(df: seq<PlayerRow>, minGames: int := 20, weights: Option<Weights> := None): (r: seq<RankedRow>)
    ensures multiset(Map(r, RowOfRanked)) == multiset(Rescore(Filter(df, MinGames(minGames)), weights))
    ensures |r| == |Filter(df, MinGames(minGames))|
    ensures forall i, j :: 0 <= i < j < |r| ==> r[i].row.fantasyPoints >= r[j].row.fantasyPoints
    ensures forall i :: 0 <= i < |r| ==> r[i].rank == i + 1
    ensures forall i :: 0 <= i < |r| ==> r[i].weightedScore == WeightedFantasyScore(r[i].row)
    ensures forall i :: 0 <= i < |r| ==> r[i].row.games >= minGames
  {
    var sorted := SortDesc(Rescore(Filter(df, MinGames(minGames)), weights), FantasyKey);
    RankingOrder(df, minGames, weights);
    RankRows(sorted)
  }

  /** Ranks 1, 2, ... and the weighted score attached to rows in order. */
  function RankRows(sorted: seq<PlayerRow>): (r: seq<RankedRow>)
    ensures Map(r, RowOfRanked) == sorted
    ensures forall i :: 0 <= i < |r| ==> r[i].rank == i + 1
    ensures forall i :: 0 <= i < |r| ==> r[i].weightedScore == WeightedFantasyScore(r[i].row)
  {
    var r := seq(|sorted|, i requires 0 <= i < |sorted| => RankedRow(sorted[i], WeightedFantasyScore(sorted[i]), i + 1));
    assert Map(r, RowOfRanked) == sorted;
    r
  }

  /** The sorted eligible rows: one per eligible player row, each with enough games. */
  lemma RankingOrder(df: seq<PlayerRow>, minGames: int, weights: Option<Weights>)
    ensures |SortDesc(Rescore(Filter(df, MinGames(minGames)), weights), FantasyKey)| == |Filter(df, MinGames(minGames))|
    ensures forall i :: 0 <= i < |SortDesc(Rescore(Filter(df, MinGames(minGames)), weights), FantasyKey)| ==>
      SortDesc(Rescore(Filter(df, MinGames(minGames)), weights), FantasyKey)[i].games >= minGames
  {
    var eligible := Rescore(Filter(df, MinGames(minGames)), weights);
    var sorted := SortDesc(eligible, FantasyKey);
    assert |sorted| == |eligible| by {
      assert |multiset(sorted)| == |multiset(eligible)|;
    }
    EligibleRows(df, minGames, weights);
    PermutationPreserves(eligible, sorted, MinGames(minGames));
  }

  function SimilarTo(playerName: string, playerType: string): PlayerRow -> bool {
    (r: PlayerRow) => r.playerType == playerType && r.player != playerName
  }

  /** The candidates of `get_similar_players`: the other players of the type. */
  function SimilarCandidates(df: seq<PlayerRow>, playerName: string, playerType: string): seq<PlayerRow> {
    Filter(df, SimilarTo(playerName, playerType))
  }

  /** `get_similar_players`: among the other players of the same type, the
      `topN` with the most fantasy points, best first. */
  function GetSimilarPlayers(df: seq<PlayerRow>, playerName: string, playerType: string, topN: nat := 5): (r: seq<PlayerRow>)
    ensures |r| == if topN < |SimilarCandidates(df, playerName, playerType)| then topN
                   else |SimilarCandidates(df, playerName, playerType)|
    ensures multiset(r) <= multiset(SimilarCandidates(df, playerName, playerType))
    ensures forall x, y :: x in multiset(SimilarCandidates(df, playerName, playerType)) - multiset(r) && y in r
                           ==> x.fantasyPoints <= y.fantasyPoints
    ensures forall i, j :: 0 <= i < j < |r| ==> r[i].fantasyPoints >= r[j].fantasyPoints
  {
    NLargest(SimilarCandidates(df, playerName, playerType), topN, FantasyKey)
  }

  /** Every similar player is another player of the asked type. */
  lemma SimilarPlayersQualify(df: seq<PlayerRow>, playerName: string, playerType: string, topN: nat)
    ensures forall x :: x in GetSimilarPlayers(df, playerName, playerType, topN) ==>
      x in df && x.playerType == playerType && x.player != playerName
  {
    var r := GetSimilarPlayers(df, playerName, playerType, topN);
    FilterMembers(df, SimilarTo(playerName, playerType));
    forall x | x in r ensures x in SimilarCandidates(df, playerName, playerType) {
      assert x in multiset(r);
    }
  }

  // ---------------------------------------------------------------------
  // Aggregates
  // ---------------------------------------------------------------------

  /** A row of `get_team_stats`. */
  datatype TeamStats = TeamStats(team: string, avgFantasyPoints: real, totalFantasyPoints: real, playerCount: nat)

  function Teams(t: seq<PlayerRow>): (teams: seq<string>)
    ensures |teams| == |t|
    ensures forall i :: 0 <= i < |t| ==> teams[i] == t[i].team
  {
    seq(|t|, i requires 0 <= i < |t| => t[i].team)
  }

  /** A group's mean of `key`. */
  function Mean(rows: seq<PlayerRow>, key: PlayerRow -> real): real
    requires |rows| > 0
  {
    Sum(rows, key) / |rows| as real
  }

  /** `m` is the mean of `key` over `rows`: times the number of rows it
      gives the total. */
  predicate IsMeanOf(m: real, rows: seq<PlayerRow>, key: PlayerRow -> real) {
    m * |rows| as real == Sum(rows, key)
  }

  lemma MeanTimesCount(rows: seq<PlayerRow>, key: PlayerRow -> real)
    requires |rows| > 0
    ensures IsMeanOf(Mean(rows, key), rows, key)
  {
  }

  lemma GroupNonEmpty(t: seq<PlayerRow>, f: PlayerRow -> bool, i: int)
    requires 0 <= i < |t| && f(t[i])
    ensures |Filter(t, f)| > 0
  {
    FilterMembers(t, f);
    assert t[i] in Filter(t, f);
  }

  /** The rows of one team. */
  function TeamRows(t: seq<PlayerRow>, team: string): seq<PlayerRow> {
    Filter(t, TeamIs(team))
  }

  /** The aggregate of one team: its row count, total fantasy points, and the
      mean, which times the count gives the total. */
  function TeamGroup(t: seq<PlayerRow>, team: string): (s: TeamStats)
    requires team in Teams(t)
    ensures s.team == team
    ensures s.playerCount == |TeamRows(t, team)| > 0
    ensures s.totalFantasyPoints == Sum(TeamRows(t, team), FantasyKey)
    ensures IsMeanOf(s.avgFantasyPoints, TeamRows(t, team), FantasyKey)
  {
    var rows := TeamRows(t, team);
    var i :| 0 <= i < |t| && Teams(t)[i] == team;
    GroupNonEmpty(t, TeamIs(team), i);
    MeanTimesCount(rows, FantasyKey);
    TeamStats(team, Mean(rows, FantasyKey), Sum(rows, FantasyKey), |rows|)
  }

  function TeamGroups(t: seq<PlayerRow>, teams: seq<string>): (g: seq<TeamStats>)
    requires forall k :: 0 <= k < |teams| ==> teams[k] in Teams(t)
    ensures |g| == |teams|
    ensures forall k :: 0 <= k < |teams| ==> g[k] == TeamGroup(t, teams[k])
  {
    seq(|teams|, k requires 0 <= k < |teams| => TeamGroup(t, teams[k]))
  }

  function AvgFantasyKey(s: TeamStats): real {
    s.avgFantasyPoints
  }

  /** `get_team_stats`: the aggregates of the teams of the table, one per team
      in increasing team order, then ordered by mean from the highest. */
  function GetTeamStats(df: seq<PlayerRow>): (r: seq<TeamStats>)
    ensures multiset(r) == multiset(TeamGroups(df, SortedDistinct(Teams(df))))
    ensures forall i, j :: 0 <= i < j < |r| ==> r[i].avgFantasyPoints >= r[j].avgFantasyPoints
  {
    SortDesc(TeamGroups(df, SortedDistinct(Teams(df))), AvgFantasyKey)
  }

  function IsTeamGroupOf(t: seq<PlayerRow>): TeamStats -> bool {
    (s: TeamStats) => s.team in Teams(t) && s == TeamGroup(t, s.team)
  }

  /** Each entry of the team table is the aggregate of its team's rows. */
  lemma TeamStatsEntries(df: seq<PlayerRow>)
    ensures forall i :: 0 <= i < |GetTeamStats(df)| ==> IsTeamGroupOf(df)(GetTeamStats(df)[i])
  {
    var groups := TeamGroups(df, SortedDistinct(Teams(df)));
    PermutationPreserves(groups, GetTeamStats(df), IsTeamGroupOf(df));
  }

  /** The team table has exactly one entry per team of the table. */
  lemma TeamStatsCoverTeams(df: seq<PlayerRow>)
    ensures forall team :: team in Teams(df) <==>
      exists i :: 0 <= i < |GetTeamStats(df)| && GetTeamStats(df)[i].team == team
    ensures forall i, j :: 0 <= i < j < |GetTeamStats(df)| ==> GetTeamStats(df)[i].team != GetTeamStats(df)[j].team
  {
    var teams := SortedDistinct(Teams(df));
    var groups := TeamGroups(df, teams);
    var r := GetTeamStats(df);
    TeamStatsEntries(df);
    forall team | team in Teams(df) ensures exists i :: 0 <= i < |r| && r[i].team == team {
      var k :| 0 <= k < |teams| && teams[k] == team;
      assert groups[k] in multiset(r);
      var i :| 0 <= i < |r| && r[i] == groups[k];
    }
    assert Distinct(groups) by {
      forall i, j | 0 <= i < j < |groups| ensures groups[i] != groups[j] {
        LessIrreflexive(teams[i]);
      }
    }
    PermutationDistinct(groups, r);
    forall i, j | 0 <= i < j < |r| ensures r[i].team != r[j].team {
      assert IsTeamGroupOf(df)(r[i]) && IsTeamGroupOf(df)(r[j]);
    }
  }

  function CountKey(s: TeamStats): real {
    s.playerCount as real
  }

  /** The number of rows of `t` whose team is one of `teams`, team by team. */
  ghost function CountOver(t: seq<PlayerRow>, teams: seq<string>): int
    decreases |teams|
  {
    if teams == [] then 0
    else CountOver(t, teams[..|teams| - 1]) + |Filter(t, TeamIs(teams[|teams| - 1]))|
  }

  function Hits(teams: seq<string>, team: string): int
    decreases |teams|
  {
    if teams == [] then 0
    else Hits(teams[..|teams| - 1], team) + (if teams[|teams| - 1] == team then 1 else 0)
  }

  lemma {:induction false} HitsDistinct(teams: seq<string>, team: string)
    requires Distinct(teams)
    ensures Hits(teams, team) == if team in teams then 1 else 0
    decreases |teams|
  {
    if teams != [] {
      var n := |teams|;
      assert Distinct(teams[..n - 1]);
      HitsDistinct(teams[..n - 1], team);
      assert teams == teams[..n - 1] + [teams[n - 1]];
    }
  }

  lemma {:induction false} CountOverStep(t: seq<PlayerRow>, teams: seq<string>)
    requires t != []
    ensures CountOver(t, teams) == CountOver(t[..|t| - 1], teams) + Hits(teams, t[|t| - 1].team)
    decreases |teams|
  {
    if teams != [] {
      CountOverStep(t, teams[..|teams| - 1]);
    }
  }

  /** Counting team by team over distinct teams that cover the table counts
      every row exactly once. */
  lemma {:induction false} CountOverCovers(t: seq<PlayerRow>, teams: seq<string>)
    requires Distinct(teams)
    requires forall i :: 0 <= i < |t| ==> t[i].team in teams
    ensures CountOver(t, teams) == |t|
    decreases |t|
  {
    if t == [] {
      CountOverEmpty(teams);
    } else {
      CountOverCovers(t[..|t| - 1], teams);
      CountOverStep(t, teams);
      HitsDistinct(teams, t[|t| - 1].team);
    }
  }

  lemma {:induction false} CountOverEmpty(teams: seq<string>)
    ensures CountOver([], teams) == 0
    decreases |teams|
  {
    if teams != [] {
      CountOverEmpty(teams[..|teams| - 1]);
    }
  }

  lemma {:induction false} SumOfCounts(t: seq<PlayerRow>, teams: seq<string>)
    requires forall k :: 0 <= k < |teams| ==> teams[k] in Teams(t)
    ensures Sum(TeamGroups(t, teams), CountKey) == CountOver(t, teams) as real
    decreases |teams|
  {
    if teams != [] {
      var n := |teams|;
      SumOfCounts(t, teams[..n - 1]);
      assert TeamGroups(t, teams)[..n - 1] == TeamGroups(t, teams[..n - 1]);
    }
  }

  /** Every row of the table is counted in exactly one team's player count. */
  lemma TeamCountsPartition(df: seq<PlayerRow>)
    ensures Sum(GetTeamStats(df), CountKey) == |df| as real
  {
    var teams := SortedDistinct(Teams(df));
    assert Distinct(teams) by {
      forall i, j | 0 <= i < j < |teams| ensures teams[i] != teams[j] {
        LessIrreflexive(teams[i]);
      }
    }
    assert forall i :: 0 <= i < |df| ==> df[i].team in teams by {
      forall i | 0 <= i < |df| ensures df[i].team in teams {
        assert Teams(df)[i] in Teams(df);
      }
    }
    CountOverCovers(df, teams);
    SumOfCounts(df, teams);
    SumPermutation(TeamGroups(df, teams), GetTeamStats(df), CountKey);
  }

  /** A row of `get_position_stats`: the means of a position group. */
  datatype PositionStats = PositionStats(pos: string, fantasyPoints: real, pts: real, trb: real, ast: real)

  function Positions(t: seq<PlayerRow>): (ps: seq<string>)
    ensures |ps| == |t|
    ensures forall i :: 0 <= i < |t| ==> ps[i] == t[i].pos
  {
    seq(|t|, i requires 0 <= i < |t| => t[i].pos)
  }

  function PtsKey(r: PlayerRow): real { r.pts }
  function TrbKey(r: PlayerRow): real { r.trb }
  function AstKey(r: PlayerRow): real { r.ast }

  /** The rows of one position group. */
  function PositionRows(t: seq<PlayerRow>, pos: string): seq<PlayerRow> {
    Filter(t, PositionIs(pos))
  }

  /** The means of one position group: each mean times the group size is the
      group's total. */
  function PositionGroup(t: seq<PlayerRow>, pos: string): (s: PositionStats)
    requires pos in Positions(t)
    ensures s.pos == pos
    ensures |PositionRows(t, pos)| > 0
    ensures IsMeanOf(s.fantasyPoints, PositionRows(t, pos), FantasyKey)
    ensures IsMeanOf(s.pts, PositionRows(t, pos), PtsKey)
    ensures IsMeanOf(s.trb, PositionRows(t, pos), TrbKey)
    ensures IsMeanOf(s.ast, PositionRows(t, pos), AstKey)
  {
    var rows := PositionRows(t, pos);
    var i :| 0 <= i < |t| && Positions(t)[i] == pos;
    GroupNonEmpty(t, PositionIs(pos), i);
    MeanTimesCount(rows, FantasyKey);
    MeanTimesCount(rows, PtsKey);
    MeanTimesCount(rows, TrbKey);
    MeanTimesCount(rows, AstKey);
    PositionStats(pos, Mean(rows, FantasyKey), Mean(rows, PtsKey), Mean(rows, TrbKey), Mean(rows, AstKey))
  }

  /** `get_position_stats`: one entry per position of the table, in increasing
      order of position code, each the means of its group. */
  function GetPositionStats(df: seq<PlayerRow>): (r: seq<PositionStats>)
    ensures forall pos :: pos in Positions(df) <==> exists i :: 0 <= i < |r| && r[i].pos == pos
    ensures forall i, j :: 0 <= i < j < |r| ==> Less(r[i].pos, r[j].pos)
    ensures forall i :: 0 <= i < |r| ==> r[i].pos in Positions(df) && r[i] == PositionGroup(df, r[i].pos)
  {
    var positions := SortedDistinct(Positions(df));
    var r := seq(|positions|, k requires 0 <= k < |positions| => PositionGroup(df, positions[k]));
    forall pos | pos in Positions(df) ensures exists i :: 0 <= i < |r| && r[i].pos == pos {
      var k :| 0 <= k < |positions| && positions[k] == pos;
      assert r[k].pos == pos;
    }
    r
  }
}
