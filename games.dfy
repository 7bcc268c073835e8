/** The constant tables of `src/data/games.ts` and the scoring configuration
    they seed, plus the scoring rule every page approximates: kills times the
    kill weight, plus the bonus the position table gives that finishing place. */
module Games {
  import opened Common

  datatype GameInfo = GameInfo(id: string, name: string, image: string, maxTeamSize: nat, isTeamGame: bool)

  const GAMES: seq<GameInfo> := [
    GameInfo("free-fire", "Free Fire", "/freefire.jpg", 4, true),
    GameInfo("bgmi", "BGMI", "/bgmi.jpg", 4, true),
    GameInfo("valorant", "Valorant", "/valorant.jpg", 5, true),
    GameInfo("call-of-duty", "Call of Duty", "/cod.jpg", 4, true)
  ]

  /** Position (1 = winner) to bonus points. */
  const DEFAULT_POSITION_POINTS: map<int, int> :=
    map[1 := 15, 2 := 12, 3 := 10, 4 := 8, 5 := 6, 6 := 4, 7 := 2, 8 := 1, 9 := 1, 10 := 1]

  /** A scoring configuration: points per kill and the position table. */
  datatype GameConfig = GameConfig(killPoints: int, positionPoints: map<int, int>)

  const DEFAULT_GAME_CONFIG: GameConfig := GameConfig(1, DEFAULT_POSITION_POINTS)

  /** What the configuration page stores as the global configuration: the
      scoring rule, the number of positions, and the game it belongs to. */
  datatype GlobalConfig = GlobalConfig(game: GameConfig, maxPositions: int, tournamentId: string, gameName: string)

  /** The bonus for finishing in `position`: its table entry, or 0 when the
      position is 0 or not in the table. */
  function PositionBonus(table: map<int, int>, position: int): int {
    if position != 0 && position in table then table[position] else 0
  }

  /** The scoring rule: kills times the kill weight plus the position bonus. */
  function ScoringRule(kills: int, position: int, config: GameConfig): int {
    kills * config.killPoints + PositionBonus(config.positionPoints, position)
  }

  /** `GAMES.find(g => g.id === id)`. */
  function FindGame(id: string): (r: Option<GameInfo>)
    ensures r.Some? <==> exists k :: 0 <= k < |GAMES| && GAMES[k].id == id
    ensures r.Some? ==> r.value in GAMES && r.value.id == id
    ensures forall g :: g in GAMES && g.id == id ==> r == Some(g)
  {
    FindIn(GAMES, id)
  }

  function FindIn(games: seq<GameInfo>, id: string): (r: Option<GameInfo>)
    ensures r.Some? ==> r.value in games && r.value.id == id
    ensures r.None? ==> forall g :: g in games ==> g.id != id
    ensures r.Some? ==> exists k :: 0 <= k < |games| && games[k] == r.value
                          && forall j :: 0 <= j < k ==> games[j].id != id
  {
    if games == [] then None
    else if games[0].id == id then Some(games[0])
    else
      var r := FindIn(games[1..], id);
      if r.Some? then
        var k :| 0 <= k < |games[1..]| && games[1..][k] == r.value && forall j :: 0 <= j < k ==> games[1..][j].id != id;
        assert games[k + 1] == r.value;
        r
      else r
  }

  /** The game ids are pairwise distinct. */
  lemma GameIdsDistinct()
    ensures forall i, j :: 0 <= i < j < |GAMES| ==> GAMES[i].id != GAMES[j].id
  {
  }

  /** The default table covers exactly the positions 1 to 10. */
  lemma DefaultTableKeys()
    ensures forall p :: p in DEFAULT_POSITION_POINTS <==> 1 <= p <= 10
  {
  }

  /** The default bonuses are non-negative and never grow with a worse finish. */
  lemma DefaultTableMonotone()
    ensures forall p :: p in DEFAULT_POSITION_POINTS ==> DEFAULT_POSITION_POINTS[p] >= 0
    ensures forall p, q :: p in DEFAULT_POSITION_POINTS && q in DEFAULT_POSITION_POINTS && p <= q
              ==> DEFAULT_POSITION_POINTS[p] >= DEFAULT_POSITION_POINTS[q]
  {
  }

  lemma DefaultGameConfig()
    ensures DEFAULT_GAME_CONFIG.killPoints == 1
    ensures DEFAULT_GAME_CONFIG.positionPoints == DEFAULT_POSITION_POINTS
  {
  }
}
