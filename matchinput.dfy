/** The per-game result entry of `src/pages/MatchInput.tsx`: one result row
    per registered team, kills and position edited by team id and clamped at
    zero, and points recomputed from them. The points rule it calls,
    `calculatePoints` of `src/utils/calculations`, is not part of this model;
    every operation takes it as the parameter `rule`. */
module MatchInput {
  import opened Common
  import opened Games

  /** `MatchResult`: the row of one team, found by its id. */
  datatype MatchResult = MatchResult(teamId: string, kills: int, position: int, points: int)

  /** The points rule, `calculatePoints(kills, position, config)`. */
  type PointsRule = (int, int, GameConfig) -> int

  function ZeroResult(teamId: string): MatchResult {
    MatchResult(teamId, 0, 0, 0)
  }

  /** `savedResults.find(r => r.teamId === teamId)`. */
  function FindResult(saved: seq<MatchResult>, teamId: string): (r: Option<MatchResult>)
    ensures r.None? <==> forall k :: 0 <= k < |saved| ==> saved[k].teamId != teamId
    ensures r.Some? ==> exists k :: 0 <= k < |saved| && saved[k] == r.value && saved[k].teamId == teamId
                          && forall j :: 0 <= j < k ==> saved[j].teamId != teamId
  {
    if saved == [] then None
    else if saved[0].teamId == teamId then Some(saved[0])
    else
      var r := FindResult(saved[1..], teamId);
      if r.Some? then
        var k :| 0 <= k < |saved[1..]| && saved[1..][k] == r.value && saved[1..][k].teamId == teamId
                 && forall j :: 0 <= j < k ==> saved[1..][j].teamId != teamId;
        assert saved[k + 1] == r.value;
        r
      else r
  }

  /** The rows the page starts from: for each team, in team order, its saved
      row when there is one and a zero row otherwise. With nothing saved
      every row is a zero row. */
  function SeedResults(teamIds: seq<string>, saved: seq<MatchResult>): seq<MatchResult> {
    if |saved| > 0 then
      seq(|teamIds|, k requires 0 <= k < |teamIds| => FindResult(saved, teamIds[k]).GetOr(ZeroResult(teamIds[k])))
    else
      seq(|teamIds|, k requires 0 <= k < |teamIds| => ZeroResult(teamIds[k]))
  }

  /** One row per team, in order and labelled with its id: the first saved
      row with that id unchanged, or kills, position and points all 0. */
  lemma SeedResultsSpec(teamIds: seq<string>, saved: seq<MatchResult>)
    ensures var r := SeedResults(teamIds, saved);
            |r| == |teamIds|
            && forall k :: 0 <= k < |teamIds| ==>
                 r[k].teamId == teamIds[k]
                 && ((forall j :: 0 <= j < |saved| ==> saved[j].teamId != teamIds[k]) ==> r[k] == ZeroResult(teamIds[k]))
                 && ((exists j :: 0 <= j < |saved| && saved[j].teamId == teamIds[k]) ==>
                       exists j :: 0 <= j < |saved| && r[k] == saved[j] && saved[j].teamId == teamIds[k]
                                   && forall i :: 0 <= i < j ==> saved[i].teamId != teamIds[k])
  {
  }

  /** Mount: without registered teams the page sends the user to
      registration (`None`); otherwise the seeded rows. */
  function Load(teamIds: seq<string>, saved: seq<MatchResult>): (r: Option<seq<MatchResult>>)
    ensures r.None? <==> teamIds == []
    ensures r.Some? ==> r.value == SeedResults(teamIds, saved)
  {
    if teamIds == [] then None else Some(SeedResults(teamIds, saved))
  }

  /** The row with its points computed by the rule. */
  function Score(r: MatchResult, config: GameConfig, rule: PointsRule): MatchResult {
    r.(points := rule(r.kills, r.position, config))
  }

  /** `handleKillsChange`: every row with that id gets `max(0, kills)` and
      its points recomputed; the others are returned as they were. */
  function KillsChange(rows: seq<MatchResult>, teamId: string, kills: int, config: GameConfig, rule: PointsRule): seq<MatchResult> {
    seq(|rows|, k requires 0 <= k < |rows| =>
      if rows[k].teamId == teamId then Score(rows[k].(kills := Max0(kills)), config, rule) else rows[k])
  }

  /** `handlePositionChange`: as for kills, on the position. */
  function PositionChange(rows: seq<MatchResult>, teamId: string, position: int, config: GameConfig, rule: PointsRule): seq<MatchResult> {
    seq(|rows|, k requires 0 <= k < |rows| =>
      if rows[k].teamId == teamId then Score(rows[k].(position := Max0(position)), config, rule) else rows[k])
  }

  /** `calculateAllPoints`, and the rows `handleSaveResults` stores. */
  function CalculateAll(rows: seq<MatchResult>, config: GameConfig, rule: PointsRule): seq<MatchResult> {
    seq(|rows|, k requires 0 <= k < |rows| => Score(rows[k], config, rule))
  }

  /** Every row's points are what the rule gives for its kills and position. */
  predicate Scored(rows: seq<MatchResult>, config: GameConfig, rule: PointsRule) {
    forall k :: 0 <= k < |rows| ==> rows[k].points == rule(rows[k].kills, rows[k].position, config)
  }

  /** The kill edit touches only the rows of that team: their kills become
      `max(0, kills)`, their position stays, their points follow the rule.
      It keeps the rows scored and every kill count non-negative. */
  lemma KillsChangeSpec(rows: seq<MatchResult>, teamId: string, kills: int, config: GameConfig, rule: PointsRule)
    ensures var r := KillsChange(rows, teamId, kills, config, rule);
            |r| == |rows|
            && (forall k :: 0 <= k < |rows| && rows[k].teamId != teamId ==> r[k] == rows[k])
            && (forall k :: 0 <= k < |rows| && rows[k].teamId == teamId ==>
                  r[k].teamId == teamId && r[k].kills == Max0(kills) && r[k].kills >= 0
                  && r[k].position == rows[k].position
                  && r[k].points == rule(r[k].kills, r[k].position, config))
            && (Scored(rows, config, rule) ==> Scored(r, config, rule))
            && ((forall k :: 0 <= k < |rows| ==> rows[k].kills >= 0) ==> forall k :: 0 <= k < |r| ==> r[k].kills >= 0)
  {
  }

  /** The position edit, likewise. */
  lemma PositionChangeSpec(rows: seq<MatchResult>, teamId: string, position: int, config: GameConfig, rule: PointsRule)
    ensures var r := PositionChange(rows, teamId, position, config, rule);
            |r| == |rows|
            && (forall k :: 0 <= k < |rows| && rows[k].teamId != teamId ==> r[k] == rows[k])
            && (forall k :: 0 <= k < |rows| && rows[k].teamId == teamId ==>
                  r[k].teamId == teamId && r[k].position == Max0(position) && r[k].position >= 0
                  && r[k].kills == rows[k].kills
                  && r[k].points == rule(r[k].kills, r[k].position, config))
            && (Scored(rows, config, rule) ==> Scored(r, config, rule))
            && ((forall k :: 0 <= k < |rows| ==> rows[k].position >= 0) ==> forall k :: 0 <= k < |r| ==> r[k].position >= 0)
  {
  }

  /** Recomputing scores every row and changes nothing but points; rows
      already scored stay as they are, so it is idempotent. */
  lemma CalculateAllSpec(rows: seq<MatchResult>, config: GameConfig, rule: PointsRule)
    ensures var r := CalculateAll(rows, config, rule);
            |r| == |rows| && Scored(r, config, rule)
            && (forall k :: 0 <= k < |rows| ==> r[k] == rows[k].(points := r[k].points))
            && (Scored(rows, config, rule) ==> r == rows)
            && CalculateAll(r, config, rule) == r
  {
    var r := CalculateAll(rows, config, rule);
    if Scored(rows, config, rule) {
      assert forall k :: 0 <= k < |rows| ==> r[k] == rows[k];
    }
    assert forall k :: 0 <= k < |r| ==> CalculateAll(r, config, rule)[k] == r[k];
  }
}
