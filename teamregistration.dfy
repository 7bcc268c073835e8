/** Team registration of `src/pages/TeamRegistration.tsx`: a list of teams,
    each with its members and their six contact fields, edited by replacing,
    adding and removing teams, and checked before saving. Saving hands the
    team names and one zero row per team to the score calculator. Ids come
    from `crypto.randomUUID` and are parameters here; storage is left out. */
module TeamRegistration {
  import opened Common
  import opened Games
  import SC = ScoreCalculator

  datatype Member = Member(id: string, fullName: string, email: string, phone: string,
                           erpId: string, branch: string, collegeName: string)

  datatype Team = Team(id: string, teamName: string, members: seq<Member>)

  function BlankMember(id: string): Member {
    Member(id, "", "", "", "", "", "")
  }

  /** A new team: an empty name for a team game, "Solo Player" otherwise,
      and one member with every field empty. */
  function BlankTeam(isTeamGame: bool, teamId: string, memberId: string): (t: Team)
    ensures t.id == teamId && t.teamName == (if isTeamGame then "" else "Solo Player")
    ensures t.members == [BlankMember(memberId)]
  {
    Team(teamId, if isTeamGame then "" else "Solo Player", [BlankMember(memberId)])
  }

  /** The teams on mount: the stored ones when there are any, otherwise one
      blank team. */
  function InitialTeams(saved: seq<Team>, isTeamGame: bool, teamId: string, memberId: string): (r: seq<Team>)
    ensures |saved| > 0 ==> r == saved
    ensures |saved| == 0 ==> r == [BlankTeam(isTeamGame, teamId, memberId)]
    ensures |r| >= 1
  {
    if |saved| > 0 then saved else [BlankTeam(isTeamGame, teamId, memberId)]
  }

  /** Every field of the member is non-empty; white space counts as filled. */
  predicate MemberFilled(m: Member) {
    m.fullName != "" && m.email != "" && m.phone != ""
    && m.erpId != "" && m.branch != "" && m.collegeName != ""
  }

  /** The check of `handleSaveTeams` for one team. */
  predicate TeamValid(t: Team, isTeamGame: bool) {
    !(isTeamGame && t.teamName == "")
    && forall k :: 0 <= k < |t.members| ==> MemberFilled(t.members[k])
  }

  predicate TeamsValid(teams: seq<Team>, isTeamGame: bool) {
    forall k :: 0 <= k < |teams| ==> TeamValid(teams[k], isTeamGame)
  }

  /** The names handed on, in team order. */
  function TeamNamesOf(teams: seq<Team>): (r: seq<string>)
    ensures |r| == |teams| && forall k :: 0 <= k < |teams| ==> r[k] == teams[k].teamName
  {
    seq(|teams|, k requires 0 <= k < |teams| => teams[k].teamName)
  }

  /** `handleSaveTeams`: nothing for an invalid list; otherwise the stored
      team names and the score calculator's starting rows. */
  function SaveTeams(teams: seq<Team>, isTeamGame: bool): Option<(seq<string>, seq<SC.TeamScore>)> {
    if TeamsValid(teams, isTeamGame) then
      var names := TeamNamesOf(teams);
      Some((names, SC.ZeroRows(names)))
    else None
  }

  /** Saving succeeds exactly when, for a team game, no team name is empty
      and, in every game, every member has all six fields filled; the names
      then follow the teams in order and every row starts at 0 kills, 0
      position and 0 points. */
  lemma SaveTeamsSpec(teams: seq<Team>, isTeamGame: bool)
    ensures SaveTeams(teams, isTeamGame).Some? <==>
              (forall k :: 0 <= k < |teams| ==> !(isTeamGame && teams[k].teamName == ""))
              && forall k, j :: 0 <= k < |teams| && 0 <= j < |teams[k].members| ==>
                   MemberFilled(teams[k].members[j])
    ensures SaveTeams(teams, isTeamGame).Some? ==>
              var (names, rows) := SaveTeams(teams, isTeamGame).value;
              |names| == |teams| && |rows| == |teams|
              && forall k :: 0 <= k < |teams| ==>
                   names[k] == teams[k].teamName
                   && rows[k] == SC.TeamScore(teams[k].teamName, 0, 0, 0)
  {
  }

  /** A blank team never passes the check in a team game, nor in any other
      game while its member is empty: a new team must be filled in. */
  lemma BlankTeamInvalid(isTeamGame: bool, teamId: string, memberId: string)
    ensures !TeamValid(BlankTeam(isTeamGame, teamId, memberId), isTeamGame)
  {
    assert !MemberFilled(BlankTeam(isTeamGame, teamId, memberId).members[0]);
  }

  /** Removing the team added last restores the list. */
  lemma RemoveUndoesAdd(teams: seq<Team>, isTeamGame: bool, teamId: string, memberId: string)
    ensures RemoveAt(teams + [BlankTeam(isTeamGame, teamId, memberId)], |teams|) == teams
  {
    var r := RemoveAt(teams + [BlankTeam(isTeamGame, teamId, memberId)], |teams|);
    assert forall k :: 0 <= k < |r| ==> r[k] == teams[k];
  }

  /** The page's state: the team list of one game. */
  class TeamRegistrationPage {
    var teams: seq<Team>
    const game: GameInfo

    /** Mount for a known game, with ids for the blank team it may create. */
    constructor (gameId: string, info: GameInfo, saved: seq<Team>, teamId: string, memberId: string)
      requires FindGame(gameId) == Some(info)
      ensures game == info
      ensures teams == InitialTeams(saved, info.isTeamGame, teamId, memberId)
    {
      game := info;
      teams := InitialTeams(saved, info.isTeamGame, teamId, memberId);
    }

    /** `handleTeamChange`: the team at `index` is replaced. */
    method TeamChange(index: nat, updated: Team)
      requires index < |teams|
      modifies this
      ensures |teams| == |old(teams)| && teams[index] == updated
      ensures forall k :: 0 <= k < |teams| && k != index ==> teams[k] == old(teams)[k]
    {
      teams := teams[index := updated];
    }

    /** `addTeam`: one blank team at the end. */
    method AddTeam(teamId: string, memberId: string)
      modifies this
      ensures teams == old(teams) + [BlankTeam(game.isTeamGame, teamId, memberId)]
    {
      teams := teams + [BlankTeam(game.isTeamGame, teamId, memberId)];
    }

    /** `removeTeam`: the team at `index` goes, the rest keep their order; an
        index outside the list removes nothing. */
    method RemoveTeam(index: int)
      modifies this
      ensures teams == RemoveAt(old(teams), index)
      ensures 0 <= index < |old(teams)| ==> |teams| == |old(teams)| - 1
      ensures !(0 <= index < |old(teams)|) ==> teams == old(teams)
    {
      teams := RemoveAt(teams, index);
    }

    /** `handleSaveTeams`. */
    method Save() returns (r: Option<(seq<string>, seq<SC.TeamScore>)>)
      ensures r.Some? <==> TeamsValid(teams, game.isTeamGame)
      ensures r.Some? ==> r.value.0 == TeamNamesOf(teams) && r.value.1 == SC.ZeroRows(r.value.0)
    {
      r := SaveTeams(teams, game.isTeamGame);
    }
  }
}
