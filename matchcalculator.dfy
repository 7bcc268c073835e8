/** The match ledger of `src/pages/MatchCalculator.tsx`: a list of matches,
    each holding one entry per team with kills and a finishing position that
    may still be unset, and points derived from them by the loaded scoring
    configuration. The page edits single cells, recomputes every entry on load
    and on save, adds, renames and deletes matches, renames a team, and
    exports each match as ranked rows. The team rename is given twice: as
    written, where only the matches up to the edited one change, and as
    evidently intended, renaming the team in every match and in the roster. */
module MatchCalculator {
  import opened Common
  import opened Games
  import opened JsText
  import opened Sorting

  /** One team's entry in a match; `None` is the unset field `''`. */
  datatype TeamScore = TeamScore(teamName: string, kills: Option<int>, position: Option<int>, points: int)

  /** A match; its number is `None` where `parseInt` gave `NaN`. */
  datatype Match = Match(kind: MatchKind, matchNumber: Option<int>, teams: seq<TeamScore>)

  /** `calculatePointsForTeam`: 0 without a configuration or while either
      field is unset; otherwise kills times the kill weight plus the table
      entry of a positive position (0 when it has none). */
  function PointsForTeam(kills: Option<int>, position: Option<int>, config: Option<GameConfig>): int {
    if config.None? || kills.None? || position.None? then 0
    else
      var bonus := if position.value > 0 then PositionBonus(config.value.positionPoints, position.value) else 0;
      kills.value * config.value.killPoints + bonus
  }

  /** For a set, non-negative position the page computes the scoring rule;
      an unset field or a missing configuration always scores 0. */
  lemma PointsForTeamIsScoringRule(kills: Option<int>, position: Option<int>, config: Option<GameConfig>)
    ensures config.Some? && kills.Some? && position.Some? && position.value >= 0 ==>
              PointsForTeam(kills, position, config) == ScoringRule(kills.value, position.value, config.value)
    ensures config.None? || kills.None? || position.None? ==> PointsForTeam(kills, position, config) == 0
    ensures config.Some? && kills.Some? && position.Some? && position.value < 0 ==>
              PointsForTeam(kills, position, config) == kills.value * config.value.killPoints
  {
  }

  /** An entry whose points are what its kills and position give. */
  predicate Consistent(t: TeamScore, config: Option<GameConfig>) {
    t.points == PointsForTeam(t.kills, t.position, config)
  }

  predicate AllConsistent(ms: seq<Match>, config: Option<GameConfig>) {
    forall i, j :: 0 <= i < |ms| && 0 <= j < |ms[i].teams| ==> Consistent(ms[i].teams[j], config)
  }

  /** An unset entry for a team: no kills, no position, 0 points. */
  function UnsetEntry(name: string): TeamScore {
    TeamScore(name, None, None, 0)
  }

  function UnsetEntries(names: seq<string>): (r: seq<TeamScore>)
    ensures |r| == |names|
    ensures forall k :: 0 <= k < |names| ==> r[k] == UnsetEntry(names[k])
  {
    seq(|names|, k requires 0 <= k < |names| => UnsetEntry(names[k]))
  }

  /** A new match of that type and number with one unset entry per team. */
  function SeedMatch(kind: MatchKind, number: Option<int>, names: seq<string>): Match {
    Match(kind, number, UnsetEntries(names))
  }

  /** The match the ledger starts with, and falls back to: final number 1. */
  function InitialMatch(names: seq<string>): Match {
    SeedMatch(Final, Some(1), names)
  }

  /** A seeded match lists the teams in order, all unset and at 0 points; it
      is consistent under any configuration. */
  lemma SeedMatchSpec(kind: MatchKind, number: Option<int>, names: seq<string>, config: Option<GameConfig>)
    ensures var m := SeedMatch(kind, number, names);
            m.kind == kind && m.matchNumber == number && |m.teams| == |names|
            && (forall k :: 0 <= k < |names| ==>
                  m.teams[k].teamName == names[k] && m.teams[k].kills.None? && m.teams[k].position.None?
                  && m.teams[k].points == 0)
            && AllConsistent([m], config)
  {
  }

  /** One entry with its points recomputed; nothing else changes. */
  function RecomputeEntry(t: TeamScore, config: Option<GameConfig>): TeamScore {
    t.(points := PointsForTeam(t.kills, t.position, config))
  }

  function RecomputeMatch(m: Match, config: Option<GameConfig>): Match {
    m.(teams := seq(|m.teams|, j requires 0 <= j < |m.teams| => RecomputeEntry(m.teams[j], config)))
  }

  /** The recomputation on load and on save. */
  function RecomputeAll(ms: seq<Match>, config: Option<GameConfig>): seq<Match> {
    seq(|ms|, i requires 0 <= i < |ms| => RecomputeMatch(ms[i], config))
  }

  /** After the recomputation every entry is consistent, and the ledger
      differs from before only in points: same matches in the same order,
      same types and numbers, same names, kills and positions. */
  lemma RecomputeAllSpec(ms: seq<Match>, config: Option<GameConfig>)
    ensures var r := RecomputeAll(ms, config);
            |r| == |ms| && AllConsistent(r, config)
            && forall i :: 0 <= i < |ms| ==>
                 r[i].kind == ms[i].kind && r[i].matchNumber == ms[i].matchNumber
                 && |r[i].teams| == |ms[i].teams|
                 && forall j :: 0 <= j < |ms[i].teams| ==>
                      r[i].teams[j] == ms[i].teams[j].(points := r[i].teams[j].points)
  {
  }

  /** A consistent ledger is left as it is, so recomputing twice is the same
      as once. */
  lemma RecomputeAllFixesConsistent(ms: seq<Match>, config: Option<GameConfig>)
    ensures AllConsistent(ms, config) ==> RecomputeAll(ms, config) == ms
    ensures RecomputeAll(RecomputeAll(ms, config), config) == RecomputeAll(ms, config)
  {
    var r := RecomputeAll(ms, config);
    if AllConsistent(ms, config) {
      forall i | 0 <= i < |ms| ensures r[i] == ms[i] {
        assert r[i].teams == ms[i].teams;
      }
    }
    RecomputeAllSpec(ms, config);
    var rr := RecomputeAll(r, config);
    forall i | 0 <= i < |r| ensures rr[i] == r[i] {
      assert rr[i].teams == r[i].teams;
    }
  }

  /** Which cell of an entry an edit is for. */
  datatype Field = KillsField | PositionField

  /** `handleScoreChange` on one entry: the edited field becomes unset for
      `''` and otherwise `max(0, parseInt(value) || 0)`; the points are
      computed from the unclamped `parseInt(value)` for the edited field
      (`NaN` scores as 0) and from the stored value of the other one. */
  function ScoreEdit(t: TeamScore, field: Field, value: string, config: Option<GameConfig>): TeamScore {
    var stored := if value == "" then None else Some(Max0(ParseInt(value).GetOr(0)) as int);
    var scored := if value == "" then None else Some(ParseInt(value).GetOr(0));
    match field
    case KillsField => TeamScore(t.teamName, stored, t.position, PointsForTeam(scored, t.position, config))
    case PositionField => TeamScore(t.teamName, t.kills, stored, PointsForTeam(t.kills, scored, config))
  }

  /** The edit changes only its own field and the points; the field is unset
      or non-negative. For a position, or for a value that does not parse to
      a negative number, the new points agree with the stored fields. */
  lemma ScoreEditSpec(t: TeamScore, field: Field, value: string, config: Option<GameConfig>)
    ensures var r := ScoreEdit(t, field, value, config);
            var cell := if field == KillsField then r.kills else r.position;
            r.teamName == t.teamName
            && (field == KillsField ==> r.position == t.position)
            && (field == PositionField ==> r.kills == t.kills)
            && (cell.None? <==> value == "")
            && (cell.Some? ==> cell.value >= 0 && (ParseInt(value).Some? && ParseInt(value).value >= 0 ==> cell.value == ParseInt(value).value))
            && (field == PositionField || ParseInt(value).None? || ParseInt(value).value >= 0 ==> Consistent(r, config))
  {
  }

  /** A negative kill count is stored as 0 but scored as typed: with one
      point per kill and the default table, setting kills to "-3" for the
      winner stores 0 kills and 12 points, while the stored fields give 15. */
  lemma ScoreEditNegativeKills()
    ensures var t := ScoreEdit(TeamScore("A", None, Some(1), 0), KillsField, "-3", Some(DEFAULT_GAME_CONFIG));
            t.kills == Some(0) && t.points == 12
            && PointsForTeam(t.kills, t.position, Some(DEFAULT_GAME_CONFIG)) == 15
            && !Consistent(t, Some(DEFAULT_GAME_CONFIG))
  {
    ParseMinusThree();
  }

  lemma ParseMinusThree()
    ensures ParseInt("-3") == Some(-3)
  {
    var s := "-3";
    assert !IsSpace(s[0]);
    assert TrimStart(s) == s;
    var u := s[1..];
    assert u == "3" && |u| == 1;
    assert IsDigit(u[0], 10);
    assert DigitPrefix(u[1..], 10) == "";
    assert DigitPrefix(u, 10) == "3";
    assert DigitsValue("3", 10) == 3 by {
      assert "3"[..0] == "";
      assert DigitsValue("", 10) == 0;
    }
  }

  /** The split of a total into kill points and place points in the
      exported rows. */
  datatype MatchRow = MatchRow(rank: nat, teamName: string, kills: int, position: Option<int>,
                               killPoints: int, placePoints: int, totalPoints: int)

  /** `(a, b) => b.points - a.points`. */
  function ByPoints(t: TeamScore): Rank {
    Rank(t.points, 0)
  }

  /** `team.position || '-'`: `None` is the dash, shown for an unset or zero position. */
  function PositionCell(position: Option<int>): Option<int> {
    if position.Some? && position.value != 0 then position else None
  }

  /** The row for the entry ranked `rank`: kills `|| 0`; kill points for set,
      non-zero kills with position 0; place points for a set, non-zero
      position with kills 0. */
  function RowOf(rank: nat, t: TeamScore, config: Option<GameConfig>): MatchRow {
    var kills := t.kills.GetOr(0);
    var killPoints := if kills != 0 then PointsForTeam(Some(kills), Some(0), config) else 0;
    var placePoints := if PositionCell(t.position).Some? then PointsForTeam(Some(0), t.position, config) else 0;
    MatchRow(rank, t.teamName, kills, PositionCell(t.position), killPoints, placePoints, t.points)
  }

  /** The exported rows of one match: the entries by points, highest first,
      ties in entry order, ranked from 1. */
  function MatchRows(teams: seq<TeamScore>, config: Option<GameConfig>): seq<MatchRow> {
    var sorted := SortDesc(teams, ByPoints);
    seq(|sorted|, k requires 0 <= k < |sorted| => RowOf(k + 1, sorted[k], config))
  }

  /** The rows are the match's entries rearranged, one each, in
      non-increasing points with ranks 1, 2, ...; they show the kills (0 when
      unset) and the position or a dash. */
  lemma MatchRowsSpec(teams: seq<TeamScore>, config: Option<GameConfig>)
    ensures var sorted := SortDesc(teams, ByPoints);
            var rows := MatchRows(teams, config);
            multiset(sorted) == multiset(teams) && |rows| == |teams|
            && (forall i, j :: 0 <= i < j < |rows| ==> rows[i].totalPoints >= rows[j].totalPoints)
            && forall k :: 0 <= k < |rows| ==>
                 rows[k].rank == k + 1 && rows[k].teamName == sorted[k].teamName
                 && rows[k].totalPoints == sorted[k].points
                 && rows[k].kills == (if sorted[k].kills.Some? then sorted[k].kills.value else 0)
                 && (rows[k].position.None? <==> sorted[k].position.None? || sorted[k].position.value == 0)
  {
    var sorted := SortDesc(teams, ByPoints);
    SortDescSorted(teams, ByPoints);
    RowsCells(sorted, config);
  }

  lemma RowsCells(sorted: seq<TeamScore>, config: Option<GameConfig>)
    requires SortedBy(sorted, ByPoints)
    ensures var rows := seq(|sorted|, k requires 0 <= k < |sorted| => RowOf(k + 1, sorted[k], config));
            (forall i, j :: 0 <= i < j < |rows| ==> rows[i].totalPoints >= rows[j].totalPoints)
            && forall k :: 0 <= k < |rows| ==>
                 rows[k].rank == k + 1 && rows[k].teamName == sorted[k].teamName
                 && rows[k].totalPoints == sorted[k].points
                 && rows[k].kills == (if sorted[k].kills.Some? then sorted[k].kills.value else 0)
                 && (rows[k].position.None? <==> sorted[k].position.None? || sorted[k].position.value == 0)
  {
    var rows := seq(|sorted|, k requires 0 <= k < |sorted| => RowOf(k + 1, sorted[k], config));
    forall i, j | 0 <= i < j < |rows| ensures rows[i].totalPoints >= rows[j].totalPoints {
      assert !Ahead(ByPoints(sorted[j]), ByPoints(sorted[i]));
    }
  }

  /** For a consistent entry with both fields set, kill points and place
      points add up to the total. */
  lemma RowSplitsTotal(rank: nat, t: TeamScore, config: Option<GameConfig>)
    requires Consistent(t, config) && t.kills.Some? && t.position.Some?
    ensures RowOf(rank, t, config).killPoints + RowOf(rank, t, config).placePoints == RowOf(rank, t, config).totalPoints
  {
  }

  /** Every entry named `from` takes the name `to`; nothing else changes. */
  function RenameEntries(ts: seq<TeamScore>, from: string, to: string): seq<TeamScore> {
    seq(|ts|, j requires 0 <= j < |ts| => if ts[j].teamName == from then ts[j].(teamName := to) else ts[j])
  }

  function RenameAll(ms: seq<Match>, from: string, to: string): seq<Match> {
    seq(|ms|, i requires 0 <= i < |ms| => ms[i].(teams := RenameEntries(ms[i].teams, from, to)))
  }

  /** `prevTeams.map(team => team === oldName ? newName : team)`. */
  function RenameNames(names: seq<string>, from: string, to: string): seq<string> {
    seq(|names|, k requires 0 <= k < |names| => if names[k] == from then to else names[k])
  }

  predicate NameOccurs(ms: seq<Match>, name: string) {
    exists i, j :: 0 <= i < |ms| && 0 <= j < |ms[i].teams| && ms[i].teams[j].teamName == name
  }

  /** After renaming, the old name is gone (unless it is the new one), every
      other name is kept, and kills, positions and points are untouched, so
      consistency is kept. */
  lemma RenameAllSpec(ms: seq<Match>, from: string, to: string, config: Option<GameConfig>)
    ensures var r := RenameAll(ms, from, to);
            |r| == |ms|
            && (from != to ==> !NameOccurs(r, from))
            && (AllConsistent(ms, config) ==> AllConsistent(r, config))
            && forall i :: 0 <= i < |ms| ==>
                 r[i].kind == ms[i].kind && r[i].matchNumber == ms[i].matchNumber
                 && |r[i].teams| == |ms[i].teams|
                 && forall j :: 0 <= j < |ms[i].teams| ==>
                      r[i].teams[j].kills == ms[i].teams[j].kills
                      && r[i].teams[j].position == ms[i].teams[j].position
                      && r[i].teams[j].points == ms[i].teams[j].points
                      && (ms[i].teams[j].teamName != from ==> r[i].teams[j].teamName == ms[i].teams[j].teamName)
  {
  }

  /** Renaming to a name no entry had, and back, restores the ledger, and
      likewise the roster. */
  lemma RenameBack(ms: seq<Match>, names: seq<string>, from: string, to: string)
    requires !NameOccurs(ms, to) && to !in names
    ensures RenameAll(RenameAll(ms, from, to), to, from) == ms
    ensures RenameNames(RenameNames(names, from, to), to, from) == names
  {
    var r := RenameAll(RenameAll(ms, from, to), to, from);
    forall i | 0 <= i < |ms| ensures r[i] == ms[i] {
      forall j | 0 <= j < |ms[i].teams| ensures r[i].teams[j] == ms[i].teams[j] {
        assert ms[i].teams[j].teamName != to;
      }
      assert r[i].teams == ms[i].teams;
    }
  }

  /** The roster rename: `from` becomes `to` everywhere, nothing else moves. */
  lemma RenameNamesSpec(names: seq<string>, from: string, to: string)
    ensures var r := RenameNames(names, from, to);
            |r| == |names| && (from != to ==> from !in r)
            && forall k :: 0 <= k < |names| ==> r[k] == (if names[k] == from then to else names[k])
  {
  }

  /** The ledger `handleTeamNameSave` leaves as written: only the matches up
      to `last`, the one holding the edited entry, are renamed. The comparison
      name is read again from the ledger for every match, and once the
      edited match has been renewed that read yields the new name. */
  function RenameThrough(ms: seq<Match>, last: int, from: string, to: string): seq<Match> {
    seq(|ms|, i requires 0 <= i < |ms| =>
      if i <= last then ms[i].(teams := RenameEntries(ms[i].teams, from, to)) else ms[i])
  }

  /** The ledger after the first `n` passes of that match-by-match rename. */
  function RenameStage(ms: seq<Match>, last: int, from: string, to: string, n: int): seq<Match> {
    seq(|ms|, i requires 0 <= i < |ms| =>
      if i < n && i <= last then ms[i].(teams := RenameEntries(ms[i].teams, from, to)) else ms[i])
  }

  /** What the pass reads back from the edited entry after `n` passes. */
  lemma RenameStageName(ms: seq<Match>, last: nat, ti: nat, to: string, n: nat)
    requires last < |ms| && ti < |ms[last].teams|
    ensures var s := RenameStage(ms, last, ms[last].teams[ti].teamName, to, n);
            |s| == |ms| && |s[last].teams| == |ms[last].teams|
            && s[last].teams[ti].teamName == if n > last then to else ms[last].teams[ti].teamName
  {
  }

  /** One pass: match `n` is renamed against the name read back. */
  lemma RenameStageStep(ms: seq<Match>, last: nat, ti: nat, to: string, n: nat)
    requires n < |ms| && last < |ms| && ti < |ms[last].teams|
    ensures var from := ms[last].teams[ti].teamName;
            var s := RenameStage(ms, last, from, to, n);
            var current := if n > last then to else from;
            s[n := s[n].(teams := RenameEntries(s[n].teams, current, to))] == RenameStage(ms, last, from, to, n + 1)
  {
    var from := ms[last].teams[ti].teamName;
    var s := RenameStage(ms, last, from, to, n);
    var next := RenameStage(ms, last, from, to, n + 1);
    if n > last {
      RenameEntriesSame(s[n].teams, to);
    }
    assert s[n := s[n].(teams := RenameEntries(s[n].teams, if n > last then to else from, to))][n] == next[n];
  }

  /** Renaming a name to itself changes nothing. */
  lemma RenameEntriesSame(ts: seq<TeamScore>, name: string)
    ensures RenameEntries(ts, name, name) == ts
  {
    var r := RenameEntries(ts, name, name);
    assert forall j :: 0 <= j < |ts| ==> r[j] == ts[j];
  }

  /** The as-written pass agrees with the full rename exactly when no match
      after the edited one still holds the old name. */
  lemma RenameThroughVsRenameAll(ms: seq<Match>, last: nat, from: string, to: string)
    requires last < |ms| && from != to
    ensures RenameThrough(ms, last, from, to) == RenameAll(ms, from, to) <==>
              forall i, j :: last < i < |ms| && 0 <= j < |ms[i].teams| ==> ms[i].teams[j].teamName != from
  {
    var partial := RenameThrough(ms, last, from, to);
    var full := RenameAll(ms, from, to);
    if forall i, j :: last < i < |ms| && 0 <= j < |ms[i].teams| ==> ms[i].teams[j].teamName != from {
      forall i | 0 <= i < |ms| ensures partial[i] == full[i] {
        if i > last {
          assert forall j :: 0 <= j < |ms[i].teams| ==> full[i].teams[j] == ms[i].teams[j];
        }
      }
    } else {
      var i, j :| last < i < |ms| && 0 <= j < |ms[i].teams| && ms[i].teams[j].teamName == from;
      assert partial[i].teams[j].teamName == from;
      assert full[i].teams[j].teamName == to;
    }
  }

  /** Two copies of one match and the roster `["A"]`: renaming the entry
      "A" of the first match to "B" leaves the second match and the roster
      saying "A", where the full rename changes both. */
  lemma RenameAsWrittenMissesLaterMatches()
    ensures var m := Match(Final, Some(1), [TeamScore("A", None, None, 0)]);
            var r := RenameThrough([m, m], 0, "A", "B");
            r[0].teams[0].teamName == "B" && r[1] == m
            && RenameAll([m, m], "A", "B")[1].teams[0].teamName == "B"
            && RenameNames(["A"], r[0].teams[0].teamName, "B") == ["A"]
            && RenameNames(["A"], "A", "B") == ["B"]
  {
    var m := Match(Final, Some(1), [TeamScore("A", None, None, 0)]);
    var r := RenameThrough([m, m], 0, "A", "B");
    assert r[0].teams[0].teamName == "B";
    assert RenameNames(["A"], "B", "B")[0] == "A";
    assert RenameNames(["A"], "A", "B")[0] == "B";
  }

  /** Why `handleAddMatch` refuses. */
  datatype AddMatchError = NoTeams | NoMatchNumber

  /** `handleAddMatch`: refused without listed teams, then without a match
      number; otherwise one match seeded from the listed teams is appended. */
  function AddMatch(ms: seq<Match>, teamList: seq<string>, kind: MatchKind, numberText: string): (r: Result<seq<Match>, AddMatchError>)
    ensures r == Err(NoTeams) <==> teamList == []
    ensures r == Err(NoMatchNumber) <==> teamList != [] && Trim(numberText) == ""
    ensures r.Ok? ==> |r.value| == |ms| + 1 && r.value[..|ms|] == ms
                      && r.value[|ms|] == SeedMatch(kind, ParseInt(numberText), teamList)
  {
    if teamList == [] then Err(NoTeams)
    else if Trim(numberText) == "" then Err(NoMatchNumber)
    else Ok(ms + [SeedMatch(kind, ParseInt(numberText), teamList)])
  }

  /** `handleSaveRename`: refused for a blank number; otherwise that match
      takes the chosen type and the parsed number and keeps its entries. */
  function RenameMatch(ms: seq<Match>, index: nat, kind: MatchKind, numberText: string): (r: Option<seq<Match>>)
    requires index < |ms|
    ensures r.None? <==> Trim(numberText) == ""
    ensures r.Some? ==> |r.value| == |ms|
                        && r.value[index].kind == kind && r.value[index].matchNumber == ParseInt(numberText)
                        && r.value[index].teams == ms[index].teams
                        && forall k :: 0 <= k < |ms| && k != index ==> r.value[k] == ms[k]
  {
    if Trim(numberText) == "" then None
    else Some(ms[index := Match(kind, ParseInt(numberText), ms[index].teams)])
  }

  /** `handleDeleteMatch`: the match at that index is dropped; an emptied
      ledger is reseeded with one final, number 1, from the roster. */
  function DeleteMatch(ms: seq<Match>, index: int, roster: seq<string>): (r: seq<Match>)
    ensures r != []
    ensures RemoveAt(ms, index) != [] ==> r == RemoveAt(ms, index)
    ensures RemoveAt(ms, index) == [] ==> r == [InitialMatch(roster)]
  {
    var rest := RemoveAt(ms, index);
    if rest == [] then [InitialMatch(roster)] else rest
  }

  /** The page's state: the ledger, the configuration it scores with, the
      roster, and the team list of the add-match dialog. */
  class MatchCalculatorPage {
    var matches: seq<Match>
    var gameConfig: Option<GameConfig>
    var teams: seq<string>
    var teamList: seq<string>

    /** Mount: the saved ledger with every entry recomputed, or a single
        final seeded from the roster when none is saved. */
    constructor (gameConf: GameConfig, teamNames: seq<string>, savedMatches: Option<seq<Match>>)
      ensures gameConfig == Some(gameConf) && teams == teamNames && teamList == []
      ensures matches == if savedMatches.Some? then RecomputeAll(savedMatches.value, Some(gameConf))
                         else [InitialMatch(teamNames)]
      ensures AllConsistent(matches, gameConfig)
    {
      gameConfig := Some(gameConf);
      teams := teamNames;
      teamList := [];
      if savedMatches.Some? {
        matches := RecomputeAll(savedMatches.value, Some(gameConf));
        RecomputeAllSpec(savedMatches.value, Some(gameConf));
      } else {
        matches := [InitialMatch(teamNames)];
        SeedMatchSpec(Final, Some(1), teamNames, Some(gameConf));
      }
    }

    /** `handleScoreChange`: only that entry of that match changes. */
    method ScoreChange(matchIndex: nat, teamIndex: nat, field: Field, value: string)
      requires matchIndex < |matches| && teamIndex < |matches[matchIndex].teams|
      modifies this`matches
      ensures |matches| == |old(matches)|
      ensures matches[matchIndex].kind == old(matches)[matchIndex].kind
      ensures matches[matchIndex].matchNumber == old(matches)[matchIndex].matchNumber
      ensures matches[matchIndex].teams ==
                old(matches)[matchIndex].teams[teamIndex := ScoreEdit(old(matches)[matchIndex].teams[teamIndex], field, value, gameConfig)]
      ensures forall k :: 0 <= k < |matches| && k != matchIndex ==> matches[k] == old(matches)[k]
    {
      var m := matches[matchIndex];
      var team := ScoreEdit(m.teams[teamIndex], field, value, gameConfig);
      m := m.(teams := m.teams[teamIndex := team]);
      matches := matches[matchIndex := m];
    }

    /** `handleSave`: every entry recomputed; doing it again changes nothing. */
    method Save()
      modifies this`matches
      ensures matches == RecomputeAll(old(matches), gameConfig)
      ensures AllConsistent(matches, gameConfig)
    {
      matches := RecomputeAll(matches, gameConfig);
      RecomputeAllSpec(old(matches), gameConfig);
    }

    /** `handleDeleteMatch`, after the user's answer `confirmed` to the
        confirmation dialog; a refusal changes nothing. */
    method DeleteMatchAt(index: int, confirmed: bool)
      modifies this`matches
      ensures confirmed ==> matches == DeleteMatch(old(matches), index, teams)
      ensures !confirmed ==> matches == old(matches)
    {
      if confirmed {
        matches := DeleteMatch(matches, index, teams);
      }
    }

    /** `handleSaveRename`; `false` for the refused blank number, which changes nothing. */
    method SaveRename(index: nat, kind: MatchKind, numberText: string) returns (accepted: bool)
      requires index < |matches|
      modifies this`matches
      ensures accepted <==> RenameMatch(old(matches), index, kind, numberText).Some?
      ensures matches == RenameMatch(old(matches), index, kind, numberText).GetOr(old(matches))
    {
      var r := RenameMatch(matches, index, kind, numberText);
      accepted := r.Some?;
      matches := r.GetOr(matches);
    }

    /** `handleTeamNameSave` as evidently intended: a blank name changes
        nothing; otherwise the name of the chosen entry, read once, is
        replaced by the trimmed name in every match, one match at a time,
        and in the roster. */
    method TeamNameSave(matchIndex: nat, teamIndex: nat, name: string)
      requires matchIndex < |matches| && teamIndex < |matches[matchIndex].teams|
      modifies this`matches, this`teams
      ensures Trim(name) == "" ==> matches == old(matches) && teams == old(teams)
      ensures Trim(name) != "" ==>
                var oldName := old(matches)[matchIndex].teams[teamIndex].teamName;
                matches == RenameAll(old(matches), oldName, Trim(name))
                && teams == RenameNames(old(teams), oldName, Trim(name))
    {
      var newName := Trim(name);
      if newName == "" {
        return;
      }
      var oldName := matches[matchIndex].teams[teamIndex].teamName;
      ghost var before := matches;
      var i := 0;
      while i < |matches|
        invariant 0 <= i <= |matches| == |before|
        invariant matches[..i] == RenameAll(before[..i], oldName, newName)
        invariant matches[i..] == before[i..]
        invariant teams == old(teams)
      {
        matches := matches[i := matches[i].(teams := RenameEntries(matches[i].teams, oldName, newName))];
        i := i + 1;
      }
      assert matches == matches[..i] && before == before[..i];
      teams := RenameNames(teams, oldName, newName);
    }

    /** `handleTeamNameSave` as written: the name to replace is read again
        from the chosen entry for every match, so from the match after the
        edited one on it is already the new name, and the roster update,
        which reads the entry once more, finds nothing to rename. */
    method TeamNameSaveAsWritten(matchIndex: nat, teamIndex: nat, name: string)
      requires matchIndex < |matches| && teamIndex < |matches[matchIndex].teams|
      modifies this`matches, this`teams
      ensures Trim(name) == "" ==> matches == old(matches) && teams == old(teams)
      ensures Trim(name) != "" ==>
                var oldName := old(matches)[matchIndex].teams[teamIndex].teamName;
                matches == RenameThrough(old(matches), matchIndex, oldName, Trim(name))
                && teams == old(teams)
    {
      var newName := Trim(name);
      if newName == "" {
        return;
      }
      ghost var before := matches;
      ghost var oldName := matches[matchIndex].teams[teamIndex].teamName;
      var i := 0;
      while i < |matches|
        invariant 0 <= i <= |before|
        invariant matches == RenameStage(before, matchIndex, oldName, newName, i)
        invariant teams == old(teams)
      {
        RenameStageName(before, matchIndex, teamIndex, newName, i);
        var current := matches[matchIndex].teams[teamIndex].teamName;
        RenameStageStep(before, matchIndex, teamIndex, newName, i);
        matches := matches[i := matches[i].(teams := RenameEntries(matches[i].teams, current, newName))];
        i := i + 1;
      }
      RenameStageName(before, matchIndex, teamIndex, newName, i);
      assert matches == RenameThrough(before, matchIndex, oldName, newName);
      var rosterName := matches[matchIndex].teams[teamIndex].teamName;
      teams := RenameNames(teams, rosterName, newName);
      assert forall k :: 0 <= k < |teams| ==> teams[k] == old(teams)[k];
    }

    /** `handleAddTeam`: the trimmed name joins the dialog's list unless it is blank. */
    method AddTeam(input: string)
      modifies this`teamList
      ensures teamList == if Trim(input) == "" then old(teamList) else old(teamList) + [Trim(input)]
    {
      if Trim(input) == "" {
        return;
      }
      teamList := teamList + [Trim(input)];
    }

    /** The dialog's remove button: the listed team at that index is dropped. */
    method RemoveListedTeam(index: int)
      modifies this`teamList
      ensures teamList == RemoveAt(old(teamList), index)
    {
      teamList := RemoveAt(teamList, index);
    }

    /** `handleAddMatch`: on success the match is appended, the roster becomes
        the dialog's list and the configuration is read again from storage. */
    method AddMatchFromDialog(kind: MatchKind, numberText: string, storedConfig: GameConfig)
      returns (r: Result<seq<Match>, AddMatchError>)
      modifies this`matches, this`teams, this`gameConfig
      ensures r == AddMatch(old(matches), teamList, kind, numberText)
      ensures r.Err? ==> matches == old(matches) && teams == old(teams) && gameConfig == old(gameConfig)
      ensures r.Ok? ==> matches == r.value && teams == teamList && gameConfig == Some(storedConfig)
    {
      r := AddMatch(matches, teamList, kind, numberText);
      if r.Ok? {
        matches := r.value;
        teams := teamList;
        gameConfig := Some(storedConfig);
      }
    }
  }
}
