/** The team-name list of `src/pages/TeamNames.tsx`: one text field per
    position of the scoring configuration, seeded from the stored names when
    their number fits, edited one field at a time, cleared, and saved only
    when no name is blank. The stored values are inputs. */
module TeamNames {
  import opened Common
  import opened JsText

  /** The number of fields: the configured `maxPositions`, with an absent
      or zero count (both falsy in `config.maxPositions || 10`) read as 10. */
  function FieldCount(maxPositions: Option<int>): int {
    if maxPositions.None? || maxPositions.value == 0 then 10 else maxPositions.value
  }

  /** The names on mount: the stored names when there are exactly as many as
      fields, otherwise that many empty names. `None` stands for the
      `RangeError` that `Array(n)` throws for a negative count. */
  function InitialNames(maxPositions: Option<int>, saved: seq<string>): Option<seq<string>> {
    var n := FieldCount(maxPositions);
    if |saved| == n then Some(saved)
    else if n < 0 then None
    else Some(Fill(n, ""))
  }

  /** Mounting fails exactly for a negative count; otherwise there is one
      name per field, the stored names when their number matches and empty
      names when it does not. */
  lemma InitialNamesSpec(maxPositions: Option<int>, saved: seq<string>)
    ensures var n := FieldCount(maxPositions);
            var r := InitialNames(maxPositions, saved);
            (r.None? <==> n < 0)
            && (r.Some? ==> |r.value| == n)
            && (|saved| == n ==> r == Some(saved))
            && (n >= 0 && |saved| != n ==> r.Some? && forall k :: 0 <= k < n ==> r.value[k] == "")
    ensures maxPositions.None? ==> FieldCount(maxPositions) == 10
    ensures maxPositions == Some(0) ==> FieldCount(maxPositions) == 10
  {
  }

  /** The guard of `handleSave`, and of the download and save buttons: no
      name is blank once trimmed. */
  predicate AllNamed(names: seq<string>) {
    forall k :: 0 <= k < |names| ==> Trim(names[k]) != ""
  }

  /** Saving is possible exactly when no name consists of white space only;
      a cleared non-empty list can never be saved. */
  lemma AllNamedSpec(names: seq<string>)
    ensures AllNamed(names) <==> forall k :: 0 <= k < |names| ==> !IsBlank(names[k])
    ensures |names| > 0 ==> !AllNamed(Fill(|names|, ""))
  {
    forall k | 0 <= k < |names| {
      TrimEmptyIffBlank(names[k]);
    }
    if |names| > 0 {
      assert Fill(|names|, "")[0] == "";
    }
  }

  /** The page's state: the list of names on screen. */
  class TeamNamesPage {
    var teams: seq<string>

    /** Mount; a negative count is refused before the page exists. */
    constructor (maxPositions: Option<int>, saved: seq<string>)
      requires InitialNames(maxPositions, saved).Some?
      ensures teams == InitialNames(maxPositions, saved).value
      ensures |teams| == FieldCount(maxPositions)
    {
      InitialNamesSpec(maxPositions, saved);
      teams := InitialNames(maxPositions, saved).value;
    }

    /** `handleTeamNameChange`: the field at `index` takes the typed text. */
    method ChangeName(index: nat, value: string)
      requires index < |teams|
      modifies this
      ensures |teams| == |old(teams)|
      ensures teams[index] == value
      ensures forall k :: 0 <= k < |teams| && k != index ==> teams[k] == old(teams)[k]
    {
      teams := teams[index := value];
    }

    /** `handleClear`, after the user's answer `confirmed`: as many empty
        names as before, or nothing changes. */
    method Clear(confirmed: bool)
      modifies this
      ensures |teams| == |old(teams)|
      ensures confirmed ==> forall k :: 0 <= k < |teams| ==> teams[k] == ""
      ensures !confirmed ==> teams == old(teams)
    {
      if confirmed {
        teams := Fill(|teams|, "");
      }
    }

    /** `handleSave`: whether the list is stored and the page moves on. */
    method Save() returns (proceeds: bool)
      ensures proceeds <==> forall k :: 0 <= k < |teams| ==> !IsBlank(teams[k])
    {
      AllNamedSpec(teams);
      proceeds := AllNamed(teams);
    }
  }
}
