/** The archive of finished tournaments (`src/pages/TournamentHistory.tsx`):
    the list the two standings pages append to, shown newest first, with
    delete and rename-or-redate by id. */
module TournamentHistory {
  import opened Common

  /** A saved tournament: `{ id, date, name, standings }`, plus what else the
      saving page adds to it (`extra`). */
  datatype Snapshot<S, D> = Snapshot(id: int, date: string, name: string, standings: seq<S>, extra: D)

  /** `name || 'Tournament'`: the configured tournament name, or the fallback
      when it is missing or empty. */
  function TitleOr(configured: Option<string>): (r: string)
    ensures r != ""
    ensures configured.Some? && configured.value != "" ==> r == configured.value
  {
    if configured.Some? && configured.value != "" then configured.value else "Tournament"
  }

  /** `historyData.push(tournamentData)`: one more snapshot at the end. */
  function Push<S, D>(history: seq<Snapshot<S, D>>, s: Snapshot<S, D>): (r: seq<Snapshot<S, D>>)
    ensures |r| == |history| + 1
    ensures r[..|history|] == history && r[|history|] == s
  {
    history + [s]
  }

  /** What the page shows on entry: the stored list reversed, newest first. */
  function Load<S, D>(stored: seq<Snapshot<S, D>>): (r: seq<Snapshot<S, D>>)
    ensures |r| == |stored|
    ensures forall k :: 0 <= k < |stored| ==> r[k] == stored[|stored| - 1 - k]
  {
    Reverse(stored)
  }

  function IdIsNot<S, D>(id: int): Snapshot<S, D> -> bool {
    (t: Snapshot<S, D>) => t.id != id
  }

  /** `handleDelete`: every snapshot with that id goes, the rest keep their order. */
  function Delete<S, D>(shown: seq<Snapshot<S, D>>, id: int): (r: seq<Snapshot<S, D>>)
    ensures forall k :: 0 <= k < |r| ==> r[k] in shown && r[k].id != id
    ensures forall k :: 0 <= k < |shown| && shown[k].id != id ==> shown[k] in r
    ensures (forall k :: 0 <= k < |shown| ==> shown[k].id != id) ==> r == shown
    ensures multiset(r) <= multiset(shown)
    ensures forall k :: 0 <= k < |shown| ==>
              multiset(r)[shown[k]] == if shown[k].id != id then multiset(shown)[shown[k]] else 0
  {
    var r := FilterBy(shown, IdIsNot(id));
    FilterByMembers(shown, IdIsNot(id));
    assert forall k :: 0 <= k < |shown| ==>
             multiset(r)[shown[k]] == if shown[k].id != id then multiset(shown)[shown[k]] else 0 by {
      forall k | 0 <= k < |shown|
        ensures multiset(r)[shown[k]] == if shown[k].id != id then multiset(shown)[shown[k]] else 0 {
        FilterByCount(shown, IdIsNot(id), shown[k]);
      }
    }
    assert forall k :: 0 <= k < |shown| && shown[k].id != id ==> shown[k] in r by {
      forall k | 0 <= k < |shown| && shown[k].id != id ensures shown[k] in r {
        assert shown[k] in shown && IdIsNot(id)(shown[k]);
      }
    }
    assert forall k :: 0 <= k < |r| ==> r[k] in shown && r[k].id != id by {
      forall k | 0 <= k < |r| ensures r[k] in shown && r[k].id != id {
        assert r[k] in r;
        assert IdIsNot(id)(r[k]);
      }
    }
    if forall k :: 0 <= k < |shown| ==> shown[k].id != id then
      FilterByAll(shown, IdIsNot(id));
      r
    else r
  }

  /** The survivors keep their relative order: deleting from two lists
      placed one after the other is deleting from each. */
  lemma DeleteConcat<S, D>(a: seq<Snapshot<S, D>>, b: seq<Snapshot<S, D>>, id: int)
    ensures Delete(a + b, id) == Delete(a, id) + Delete(b, id)
  {
    FilterByConcat(a, b, IdIsNot(id));
  }

  /** `handleSaveEdit`: the snapshots with that id take the edited name and
      date; nothing else changes. */
  function SaveEdit<S, D>(shown: seq<Snapshot<S, D>>, id: int, name: string, date: string): (r: seq<Snapshot<S, D>>)
    ensures |r| == |shown|
    ensures forall k :: 0 <= k < |shown| ==>
              r[k].id == shown[k].id && r[k].standings == shown[k].standings && r[k].extra == shown[k].extra
    ensures forall k :: 0 <= k < |shown| ==>
              if shown[k].id == id then r[k].name == name && r[k].date == date else r[k] == shown[k]
  {
    seq(|shown|, k requires 0 <= k < |shown| =>
      if shown[k].id == id then shown[k].(name := name, date := date) else shown[k])
  }

  /** `standings.slice(0, 3)`: the podium shown on each card. */
  function TopThree<S>(standings: seq<S>): (r: seq<S>)
    ensures |r| == Min(3, |standings|)
    ensures r == standings[..|r|]
  {
    standings[..Min(3, |standings|)]
  }

  /** Delete writes back the displayed, newest-first list, so the next visit,
      which reverses again, lists the survivors oldest first: the display
      order flips with every delete. */
  lemma DeleteWritesBackDisplayOrder<S, D>(stored: seq<Snapshot<S, D>>, id: int)
    ensures Load(Delete(Load(stored), id)) == Delete(stored, id)
  {
    FilterByReverse(stored, IdIsNot(id));
    ReverseReverse(FilterBy(stored, IdIsNot(id)));
  }

  /** The same flip happens after an edit. */
  lemma EditWritesBackDisplayOrder<S, D>(stored: seq<Snapshot<S, D>>, id: int, name: string, date: string)
    ensures Load(SaveEdit(Load(stored), id, name, date)) == SaveEdit(stored, id, name, date)
  {
  }

  /** Deleting the snapshot a standings page has just pushed (its id being
      new) gives back the list as it was shown before. */
  lemma DeleteUndoesPush<S, D>(history: seq<Snapshot<S, D>>, s: Snapshot<S, D>)
    requires forall k :: 0 <= k < |history| ==> history[k].id != s.id
    ensures Delete(Load(Push(history, s)), s.id) == Load(history)
  {
    var rest := Load(history);
    var shown := Load(Push(history, s));
    assert shown == [s] + rest by {
      assert forall k :: 0 <= k < |shown| ==> shown[k] == ([s] + rest)[k];
    }
    FilterByCons(s, rest, IdIsNot(s.id));
    assert forall x :: x in rest ==> IdIsNot(s.id)(x);
    FilterByAll(rest, IdIsNot(s.id));
  }
}
