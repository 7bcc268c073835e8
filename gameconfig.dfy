/** The scoring editor of `src/pages/GameConfig.tsx`: the points per kill,
    the position table and the number of positions shown, edited by clamped
    setters and by adding and removing the last position, then saved as the
    global configuration. Reading the stored configuration
    (`getGameConfig`) and writing it are not part of this model: the
    editor receives the stored configuration and returns the saved one. */
module GameConfigEditing {
  import opened Common
  import opened Games

  /** `Math.max(...positions)` over a non-empty list. */
  function MaxOf(s: seq<int>): (r: int)
    requires |s| > 0
    ensures r in s && forall k :: k in s ==> k <= r
  {
    if |s| == 1 then s[0]
    else
      var m := MaxOf(s[1..]);
      assert forall k :: k in s ==> k == s[0] || k in s[1..];
      if s[0] > m then s[0] else m
  }

  /** The number of positions after loading, from `positions`, the keys of
      the stored position table: the largest of them, or the initial 10 when
      there are none. */
  function LoadedMaxPositions(positions: seq<int>): int {
    if |positions| > 0 then MaxOf(positions) else 10
  }

  /** The table has exactly the positions 1 to `n`. */
  ghost predicate Covers(table: map<int, int>, n: int) {
    forall p :: p in table <==> 1 <= p <= n
  }

  /** `positions` lists the keys of `table`. */
  ghost predicate KeysOf(positions: seq<int>, table: map<int, int>) {
    forall p :: p in table <==> p in positions
  }

  /** A table covering 1 to n (n at least 1) loads as n positions. */
  lemma LoadedMaxPositionsSpec(positions: seq<int>, table: map<int, int>, n: int)
    requires KeysOf(positions, table) && Covers(table, n) && n >= 1
    ensures LoadedMaxPositions(positions) == n
  {
    assert n in positions;
  }

  /** `handleKillPointsChange`. */
  function SetKillPoints(c: GameConfig, value: int): GameConfig {
    c.(killPoints := Max0(value))
  }

  /** `handlePositionPointsChange`. */
  function SetPositionPoints(c: GameConfig, position: int, value: int): GameConfig {
    c.(positionPoints := c.positionPoints[position := Max0(value)])
  }

  /** The table after `addPosition` with `n` positions shown. */
  function AddPosition(table: map<int, int>, n: int): map<int, int> {
    table[n + 1 := 0]
  }

  /** The table after `removePosition` with `n` positions shown. */
  function RemovePosition(table: map<int, int>, n: int): map<int, int> {
    table - {n}
  }

  /** Every stored number is non-negative. */
  predicate NonNegative(c: GameConfig) {
    c.killPoints >= 0 && forall p :: p in c.positionPoints ==> c.positionPoints[p] >= 0
  }

  /** The setters clamp at zero, change one thing, and keep every number non-negative. */
  lemma SettersSpec(c: GameConfig, position: int, value: int)
    ensures SetKillPoints(c, value).killPoints >= 0
    ensures SetKillPoints(c, value).killPoints == value || (value < 0 && SetKillPoints(c, value).killPoints == 0)
    ensures SetKillPoints(c, value).positionPoints == c.positionPoints
    ensures var t := SetPositionPoints(c, position, value).positionPoints;
            position in t && t[position] == Max0(value)
            && t.Keys == c.positionPoints.Keys + {position}
            && forall p :: p in c.positionPoints && p != position ==> t[p] == c.positionPoints[p]
    ensures SetPositionPoints(c, position, value).killPoints == c.killPoints
    ensures NonNegative(c) ==> NonNegative(SetKillPoints(c, value)) && NonNegative(SetPositionPoints(c, position, value))
  {
  }

  /** Adding and removing the last position keep the table covering exactly
      the shown positions; editing a shown position keeps it too. */
  lemma CoversPreserved(c: GameConfig, n: int, position: int, value: int)
    requires Covers(c.positionPoints, n) && n >= 0
    ensures Covers(AddPosition(c.positionPoints, n), n + 1)
    ensures n > 1 ==> Covers(RemovePosition(c.positionPoints, n), n - 1)
    ensures 1 <= position <= n ==> Covers(SetPositionPoints(c, position, value).positionPoints, n)
  {
  }

  /** Removing the position just added restores the table, unless the new
      key was already taken. */
  lemma RemoveUndoesAdd(table: map<int, int>, n: int)
    requires n + 1 !in table
    ensures RemovePosition(AddPosition(table, n), n + 1) == table
  {
  }

  /** The editor's state. */
  class GameConfigEditor {
    var config: GameConfig
    var maxPositions: int
    const gameId: string
    const game: GameInfo

    /** Mount for a known game: its stored configuration, and as many
        positions as the largest configured one. */
    constructor (id: string, info: GameInfo, savedConfig: GameConfig, positions: seq<int>)
      requires FindGame(id) == Some(info) && KeysOf(positions, savedConfig.positionPoints)
      ensures gameId == id && game == info
      ensures config == savedConfig && maxPositions == LoadedMaxPositions(positions)
    {
      gameId := id;
      game := info;
      config := savedConfig;
      maxPositions := LoadedMaxPositions(positions);
    }

    method KillPointsChange(value: int)
      modifies this`config
      ensures config == SetKillPoints(old(config), value)
    {
      config := SetKillPoints(config, value);
    }

    method PositionPointsChange(position: int, value: int)
      modifies this`config
      ensures config == SetPositionPoints(old(config), position, value)
    {
      config := SetPositionPoints(config, position, value);
    }

    /** `addPosition`: one more position, worth 0. */
    method AddPositionRow()
      modifies this`config, this`maxPositions
      ensures maxPositions == old(maxPositions) + 1
      ensures config == old(config).(positionPoints := AddPosition(old(config).positionPoints, old(maxPositions)))
      ensures old(maxPositions) >= 1 ==> maxPositions >= 1
    {
      config := config.(positionPoints := AddPosition(config.positionPoints, maxPositions));
      maxPositions := maxPositions + 1;
    }

    /** `removePosition`: the last position goes, but never the only one. */
    method RemovePositionRow()
      modifies this`config, this`maxPositions
      ensures old(maxPositions) > 1 ==>
                maxPositions == old(maxPositions) - 1
                && config == old(config).(positionPoints := RemovePosition(old(config).positionPoints, old(maxPositions)))
      ensures old(maxPositions) <= 1 ==> maxPositions == old(maxPositions) && config == old(config)
      ensures old(maxPositions) >= 1 ==> maxPositions >= 1
    {
      if maxPositions > 1 {
        config := config.(positionPoints := RemovePosition(config.positionPoints, maxPositions));
        maxPositions := maxPositions - 1;
      }
    }

    /** `handleSaveConfig`: the configuration together with the number of
        positions, the game's id and its name. */
    method SaveConfig() returns (saved: GlobalConfig)
      ensures saved == GlobalConfig(config, maxPositions, gameId, game.name)
      ensures saved.game.killPoints == config.killPoints && saved.game.positionPoints == config.positionPoints
    {
      saved := GlobalConfig(config, maxPositions, gameId, game.name);
    }
  }
}
