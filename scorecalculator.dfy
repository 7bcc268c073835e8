/** The single-match score sheet (`src/pages/ScoreCalculator.tsx`): one row
    per team with kills and finishing position, totals recomputed on every
    edit, a finished match appended to the saved list, and the checks a
    match must pass before it is saved. Rows hold plain integers; an input
    that `parseInt` cannot read arrives as `None`. */
module ScoreCalculator {
  import opened Common
  import opened Games
  import opened JsText

  /** A row of the open match: `{ teamName, kills, position, totalPoints }`. */
  datatype TeamScore = TeamScore(teamName: string, kills: int, position: int, totalPoints: int)

  /** A team's line in a finished match: `{ teamName, kills, position, points }`. */
  datatype SavedTeam = SavedTeam(teamName: string, kills: int, position: int, points: int)

  /** One entry of the saved match list: `{ name, type, teams }`. */
  datatype SavedMatch = SavedMatch(name: string, kind: MatchKind, teams: seq<SavedTeam>)

  /** The partial update `updateTeamPoints` merges into a row. */
  datatype Update = Kills(kills: int) | Position(position: int)

  /** The ways `handleSave` refuses a match, in the order it tests them. */
  datatype SaveError = MissingPosition | DuplicatePosition | PositionOutOfRange

  /** `calculateScore`. The configuration is `None` while no configuration
      with a position table has been loaded. A position table entry of 0 and a
      missing one both give no bonus. */
  function CalculateScore(team: TeamScore, config: Option<GlobalConfig>): (r: int)
    ensures config.None? ==> r == 0
    ensures config.Some? && team.position >= 0 ==> r == ScoringRule(team.kills, team.position, config.value.game)
    ensures config.Some? && team.position < 0 ==> r == team.kills * config.value.game.killPoints
  {
    if config.None? then 0
    else
      var table := config.value.game.positionPoints;
      var positionPoints :=
        if team.position > 0 && team.position in table && table[team.position] != 0 then table[team.position] else 0;
      team.kills * config.value.game.killPoints + positionPoints
  }

  function Merge(t: TeamScore, u: Update): TeamScore {
    match u
    case Kills(k) => t.(kills := k)
    case Position(p) => t.(position := p)
  }

  /** The fresh rows for a list of team names: no kills, no position, no points. */
  function ZeroRows(names: seq<string>): (r: seq<TeamScore>)
    ensures |r| == |names|
    ensures forall k :: 0 <= k < |names| ==> r[k] == TeamScore(names[k], 0, 0, 0)
  {
    seq(|names|, k requires 0 <= k < |names| => TeamScore(names[k], 0, 0, 0))
  }

  function TeamNames(teams: seq<TeamScore>): (r: seq<string>)
    ensures |r| == |teams| && forall k :: 0 <= k < |teams| ==> r[k] == teams[k].teamName
  {
    seq(|teams|, k requires 0 <= k < |teams| => teams[k].teamName)
  }

  /** The rows on entry: the saved rows of the open match if there are any
      stored, otherwise zero rows for the registered names. */
  function InitialTeams(currentTeams: Option<seq<TeamScore>>, teamNames: seq<string>): (r: seq<TeamScore>)
    ensures currentTeams.Some? ==> r == currentTeams.value
    ensures currentTeams.None? ==> r == ZeroRows(teamNames)
  {
    if currentTeams.Some? then currentTeams.value else ZeroRows(teamNames)
  }

  function Positions(teams: seq<TeamScore>): (r: seq<int>)
    ensures |r| == |teams| && forall k :: 0 <= k < |teams| ==> r[k] == teams[k].position
  {
    seq(|teams|, k requires 0 <= k < |teams| => teams[k].position)
  }

  /** Every team has been given a finishing place (`!t.position` is false for all). */
  predicate Complete(teams: seq<TeamScore>) {
    forall k :: 0 <= k < |teams| ==> teams[k].position != 0
  }

  /** No two teams share a finishing place; 0 (none yet) may repeat. */
  predicate NonzeroPositionsDistinct(teams: seq<TeamScore>) {
    forall i, j :: 0 <= i < j < |teams| && teams[i].position != 0 ==> teams[i].position != teams[j].position
  }

  /** `teams.some((t, i) => i !== index && t.position === p && p !== 0)`. */
  predicate PositionTaken(teams: seq<TeamScore>, index: int, p: int) {
    p != 0 && exists i :: 0 <= i < |teams| && i != index && teams[i].position == p
  }

  /** `Math.max(0, Math.min(position, maxPositions))`. */
  function ClampPosition(position: int, maxPositions: int): (r: nat)
    ensures maxPositions >= 0 ==> r <= maxPositions
    ensures 0 <= position <= maxPositions ==> r == position
    ensures position < 0 ==> r == 0
  {
    Max0(Min(position, maxPositions))
  }

  /** `config?.maxPositions || 1`. */
  function MaxAllowed(config: Option<GlobalConfig>): int {
    if config.Some? && config.value.maxPositions != 0 then config.value.maxPositions else 1
  }

  /** The checks of `handleSave` as the page performs them: a missing place,
      then `new Set(positions).size !== teams.length`, then a place beyond the
      allowed maximum. */
  function SaveCheck(teams: seq<TeamScore>, config: Option<GlobalConfig>): Option<SaveError> {
    if exists k :: 0 <= k < |teams| && teams[k].position == 0 then Some(MissingPosition)
    else if |(set p | p in Positions(teams))| != |teams| then Some(DuplicatePosition)
    else if exists k :: 0 <= k < |teams| && teams[k].position > MaxAllowed(config) then Some(PositionOutOfRange)
    else None
  }

  /** A match passes exactly when every team has a place, no two places
      coincide and none exceeds the allowed maximum. */
  lemma SaveCheckSpec(teams: seq<TeamScore>, config: Option<GlobalConfig>)
    ensures SaveCheck(teams, config).None? <==>
              Complete(teams) && Distinct(Positions(teams))
              && forall k :: 0 <= k < |teams| ==> teams[k].position <= MaxAllowed(config)
    ensures SaveCheck(teams, config) == Some(DuplicatePosition) <==> Complete(teams) && !Distinct(Positions(teams))
  {
    SetSizeIffDistinct(Positions(teams));
  }

  function SavedLine(t: TeamScore, config: Option<GlobalConfig>): SavedTeam {
    SavedTeam(t.teamName, t.kills, t.position, CalculateScore(t, config))
  }

  /** The match a save or an add appends: the rows with freshly computed points. */
  function Snapshot(name: string, kind: MatchKind, teams: seq<TeamScore>, config: Option<GlobalConfig>): (m: SavedMatch)
    ensures m.name == name && m.kind == kind && |m.teams| == |teams|
    ensures forall k :: 0 <= k < |teams| ==> m.teams[k] == SavedLine(teams[k], config)
  {
    SavedMatch(name, kind, seq(|teams|, k requires 0 <= k < |teams| => SavedLine(teams[k], config)))
  }

  /** The rows `handleEditMatch` loads from a finished match. */
  function EditTeams(m: SavedMatch): (r: seq<TeamScore>)
    ensures |r| == |m.teams|
    ensures forall k :: 0 <= k < |r| ==>
              r[k] == TeamScore(m.teams[k].teamName, m.teams[k].kills, m.teams[k].position, m.teams[k].points)
  {
    seq(|m.teams|, k requires 0 <= k < |m.teams| =>
      TeamScore(m.teams[k].teamName, m.teams[k].kills, m.teams[k].position, m.teams[k].points))
  }

  /** Every row's total is its score under `config`. */
  predicate TotalsCurrent(teams: seq<TeamScore>, config: Option<GlobalConfig>) {
    forall k :: 0 <= k < |teams| ==> teams[k].totalPoints == CalculateScore(teams[k], config)
  }

  /** Loading a finished match for editing and saving it again under the same
      configuration gives back that match, when its points were computed
      under that configuration. */
  lemma {:induction false} EditThenSnapshot(m: SavedMatch, config: Option<GlobalConfig>)
    requires forall k :: 0 <= k < |m.teams| ==> m.teams[k].points == CalculateScore(EditTeams(m)[k], config)
    ensures Snapshot(m.name, m.kind, EditTeams(m), config) == m
  {
    var s := Snapshot(m.name, m.kind, EditTeams(m), config);
    assert s.teams == m.teams by {
      forall k | 0 <= k < |m.teams| ensures s.teams[k] == m.teams[k] {
      }
    }
  }

  /** Conversely, the rows of a match just taken from up-to-date rows are those rows. */
  lemma {:induction false} SnapshotThenEdit(name: string, kind: MatchKind, teams: seq<TeamScore>, config: Option<GlobalConfig>)
    requires TotalsCurrent(teams, config)
    ensures EditTeams(Snapshot(name, kind, teams, config)) == teams
  {
    var r := EditTeams(Snapshot(name, kind, teams, config));
    forall k | 0 <= k < |teams| ensures r[k] == teams[k] {
    }
  }

  /** The page's state: the open match's rows, the loaded configuration, the
      open match's type and name, and the finished matches. */
  class ScoreCalculatorPage {
    var teams: seq<TeamScore>
    var config: Option<GlobalConfig>
    var matchType: MatchKind
    var matchName: string
    var allMatches: seq<SavedMatch>

    /** Mount: the saved matches are taken first; a stored configuration
        without a position table then aborts loading, leaving no rows;
        otherwise the rows are the stored open match or zero rows for the
        registered names. */
    constructor (savedMatches: seq<SavedMatch>, savedConfig: Option<GlobalConfig>,
                 currentTeams: Option<seq<TeamScore>>, teamNames: seq<string>)
      ensures allMatches == savedMatches && config == savedConfig
      ensures teams == if savedConfig.None? then [] else InitialTeams(currentTeams, teamNames)
      ensures matchType == Semifinal && matchName == "Match 1"
    {
      allMatches := savedMatches;
      config := savedConfig;
      teams := if savedConfig.None? then [] else InitialTeams(currentTeams, teamNames);
      matchType := Semifinal;
      matchName := "Match 1";
    }

    /** `updateTeamPoints`: merges the update into one row and recomputes that
        row's total; every other row stays as it was. */
    method UpdateTeamPoints(index: nat, u: Update)
      requires index < |teams|
      modifies this`teams
      ensures |teams| == |old(teams)|
      ensures teams[index] == Merge(old(teams)[index], u).(totalPoints := CalculateScore(Merge(old(teams)[index], u), config))
      ensures forall k :: 0 <= k < |teams| && k != index ==> teams[k] == old(teams)[k]
    {
      var merged := Merge(teams[index], u);
      merged := merged.(totalPoints := CalculateScore(merged, config));
      teams := teams[index := merged];
    }

    /** `handleKillsChange`: stores `max(0, kills)`, a `NaN` read as 0, so no
        kill count is ever negative. */
    method KillsChange(index: nat, kills: Option<int>)
      requires index < |teams|
      modifies this`teams
      ensures |teams| == |old(teams)|
      ensures teams[index] == old(teams)[index].(kills := Max0(kills.GetOr(0)), totalPoints := teams[index].totalPoints)
      ensures teams[index].totalPoints == CalculateScore(teams[index], config)
      ensures forall k :: 0 <= k < |teams| && k != index ==> teams[k] == old(teams)[k]
      ensures (forall k :: 0 <= k < |old(teams)| ==> old(teams)[k].kills >= 0) ==> forall k :: 0 <= k < |teams| ==> teams[k].kills >= 0
    {
      UpdateTeamPoints(index, Kills(Max0(kills.GetOr(0))));
    }

    /** `handlePositionChange`: nothing happens without a configured number of
        positions; otherwise the place is clamped into [0, maxPositions] and
        refused when another team already holds it. A `NaN` place behaves as
        0 in every later read and is stored as 0. */
    method PositionChange(index: nat, position: Option<int>)
      requires index < |teams|
      modifies this`teams
      ensures config.None? || config.value.maxPositions == 0 ==> teams == old(teams)
      ensures config.Some? && config.value.maxPositions != 0 ==>
                var p := ClampPosition(position.GetOr(0), config.value.maxPositions);
                if PositionTaken(old(teams), index, p) then teams == old(teams)
                else
                  |teams| == |old(teams)|
                  && teams[index] == old(teams)[index].(position := p, totalPoints := teams[index].totalPoints)
                  && teams[index].totalPoints == CalculateScore(teams[index], config)
                  && forall k :: 0 <= k < |teams| && k != index ==> teams[k] == old(teams)[k]
      ensures NonzeroPositionsDistinct(old(teams)) ==> NonzeroPositionsDistinct(teams)
    {
      if config.None? || config.value.maxPositions == 0 {
        return;
      }
      var p := ClampPosition(position.GetOr(0), config.value.maxPositions);
      if PositionTaken(teams, index, p) {
        return;
      }
      ghost var before := teams;
      UpdateTeamPoints(index, Position(p));
      if NonzeroPositionsDistinct(before) {
        forall i, j | 0 <= i < j < |teams| && teams[i].position != 0
          ensures teams[i].position != teams[j].position
        {
          if j == index {
            assert before[i].position != p;
          }
        }
      }
    }

    /** `handleAddMatch`: refused while some team has no place; otherwise the
        open match is appended with computed points, the next match is named
        after the new count, and every row starts again from zero. */
    method AddMatch()
      modifies this`allMatches, this`matchName, this`teams
      ensures !Complete(old(teams)) ==>
                allMatches == old(allMatches) && matchName == old(matchName) && teams == old(teams)
      ensures Complete(old(teams)) ==>
                allMatches == old(allMatches) + [Snapshot(old(matchName), matchType, old(teams), config)]
                && matchName == "Match " + NatToString(|allMatches| + 1)
                && teams == ZeroRows(TeamNames(old(teams)))
    {
      if exists k :: 0 <= k < |teams| && teams[k].position == 0 {
        return;
      }
      allMatches := allMatches + [Snapshot(matchName, matchType, teams, config)];
      matchName := "Match " + NatToString(|allMatches| + 1);
      teams := ZeroRows(TeamNames(teams));
    }

    /** `handleSave`: the list it would store, or why it refuses. The page's
        own state does not change. */
    method Save() returns (r: Result<seq<SavedMatch>, SaveError>)
      ensures r.Ok? <==> Complete(teams) && Distinct(Positions(teams))
                         && forall k :: 0 <= k < |teams| ==> teams[k].position <= MaxAllowed(config)
      ensures r.Err? && r.error == DuplicatePosition <==> Complete(teams) && !Distinct(Positions(teams))
      ensures r.Ok? ==> r.value == allMatches + [Snapshot(matchName, matchType, teams, config)]
    {
      SaveCheckSpec(teams, config);
      var check := SaveCheck(teams, config);
      if check.Some? {
        return Err(check.value);
      }
      return Ok(allMatches + [Snapshot(matchName, matchType, teams, config)]);
    }

    /** `handleDeleteMatch`, after the user's answer `confirmed` to the
        confirmation dialog: drops the finished match at that index; a
        refusal changes nothing. */
    method DeleteMatch(index: int, confirmed: bool)
      modifies this`allMatches
      ensures confirmed ==> allMatches == RemoveAt(old(allMatches), index)
      ensures !confirmed ==> allMatches == old(allMatches)
    {
      if confirmed {
        allMatches := RemoveAt(allMatches, index);
      }
    }

    /** `handleEditMatch`: a finished match becomes the open one again. */
    method EditMatch(m: SavedMatch)
      modifies this`matchType, this`matchName, this`teams
      ensures matchType == m.kind && matchName == m.name && teams == EditTeams(m)
    {
      matchType := m.kind;
      matchName := m.name;
      teams := EditTeams(m);
    }
  }
}
