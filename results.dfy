/** The standings page over the saved single-match results
    (`src/pages/Results.tsx`): the saved matches split by type, the overall
    table accumulated in a `Map` in first-seen order and sorted by points and
    then kills, the exported standings rows, deletion of the i-th match of a
    type, and archiving into the tournament history. */
module Results {
  import opened Common
  import opened Sorting
  import opened Standings
  import SC = ScoreCalculator
  import TournamentHistory

  function IsKind(kind: MatchKind): SC.SavedMatch -> bool {
    (m: SC.SavedMatch) => m.kind == kind
  }

  /** `savedMatches.filter(match => match.type === kind)`. */
  function OfKind(ms: seq<SC.SavedMatch>, kind: MatchKind): seq<SC.SavedMatch> {
    FilterBy(ms, IsKind(kind))
  }

  /** The semifinal and final lists hold every saved match exactly once, each under its own type. */
  lemma SplitPartition(ms: seq<SC.SavedMatch>)
    ensures multiset(OfKind(ms, Semifinal)) + multiset(OfKind(ms, Final)) == multiset(ms)
    ensures |OfKind(ms, Semifinal)| + |OfKind(ms, Final)| == |ms|
    ensures forall k :: 0 <= k < |OfKind(ms, Semifinal)| ==> OfKind(ms, Semifinal)[k].kind == Semifinal
    ensures forall k :: 0 <= k < |OfKind(ms, Final)| ==> OfKind(ms, Final)[k].kind == Final
  {
    FilterPartition(ms, IsKind(Semifinal), IsKind(Final));
    FilterByMembers(ms, IsKind(Semifinal));
    FilterByMembers(ms, IsKind(Final));
    forall k | 0 <= k < |OfKind(ms, Semifinal)| ensures OfKind(ms, Semifinal)[k].kind == Semifinal {
      assert OfKind(ms, Semifinal)[k] in OfKind(ms, Semifinal);
    }
    forall k | 0 <= k < |OfKind(ms, Final)| ensures OfKind(ms, Final)[k].kind == Final {
      assert OfKind(ms, Final)[k] in OfKind(ms, Final);
    }
  }

  /** What one saved line adds: its name, `kills || 0` and `points || 0`
      (integers here, so both are the stored values). */
  function EntryContribution(t: SC.SavedTeam): Contribution {
    Contribution(t.teamName, t.kills, t.points)
  }

  function TeamContributions(ts: seq<SC.SavedTeam>): (r: seq<Contribution>)
    ensures |r| == |ts|
    ensures forall k :: 0 <= k < |ts| ==> r[k] == EntryContribution(ts[k])
  {
    if ts == [] then [] else TeamContributions(ts[..|ts| - 1]) + [EntryContribution(ts[|ts| - 1])]
  }

  function MatchContributions(m: SC.SavedMatch): seq<Contribution> {
    TeamContributions(m.teams)
  }

  /** Every line of every match, matches first to last, lines in order. */
  function Contributions(ms: seq<SC.SavedMatch>): seq<Contribution> {
    FlatMap(ms, MatchContributions)
  }

  /** The comparator: `b.totalPoints - a.totalPoints`, and on equal points `b.totalKills - a.totalKills`. */
  function ByPointsThenKills(r: TeamResult): Rank {
    Rank(r.totalPoints, r.totalKills)
  }

  /** The overall table `calculateOverallResults` produces. */
  function OverallResults(ms: seq<SC.SavedMatch>): seq<TeamResult> {
    SortDesc(Aggregate(Contributions(ms)), ByPointsThenKills)
  }

  lemma OuterStep(ms: seq<SC.SavedMatch>, i: nat)
    requires i < |ms|
    ensures Contributions(ms[..i + 1]) == Contributions(ms[..i]) + TeamContributions(ms[i].teams)
  {
    assert ms[..i + 1][..i] == ms[..i];
  }

  lemma InnerStep(prefix: seq<Contribution>, ts: seq<SC.SavedTeam>, j: nat)
    requires j < |ts|
    ensures Aggregate(prefix + TeamContributions(ts[..j + 1]))
            == Upsert(Aggregate(prefix + TeamContributions(ts[..j])), EntryContribution(ts[j]))
  {
    assert ts[..j + 1][..j] == ts[..j];
    var before := prefix + TeamContributions(ts[..j]);
    assert prefix + TeamContributions(ts[..j + 1]) == before + [EntryContribution(ts[j])];
    AggregateSnoc(before, EntryContribution(ts[j]));
  }

  /** `calculateOverallResults`: nested passes over the matches and their
      lines, reading each team's totals from the table, adding the line and
      storing them back; then the stable sort. */
  method CalculateOverallResults(savedMatches: seq<SC.SavedMatch>) returns (sorted: seq<TeamResult>)
    ensures sorted == OverallResults(savedMatches)
  {
    var teamStats: seq<TeamResult> := [];
    var i := 0;
    while i < |savedMatches|
      invariant 0 <= i <= |savedMatches|
      invariant teamStats == Aggregate(Contributions(savedMatches[..i]))
    {
      var teams := savedMatches[i].teams;
      var j := 0;
      assert Contributions(savedMatches[..i]) + TeamContributions(teams[..0]) == Contributions(savedMatches[..i]);
      while j < |teams|
        invariant 0 <= j <= |teams|
        invariant teamStats == Aggregate(Contributions(savedMatches[..i]) + TeamContributions(teams[..j]))
      {
        var team := teams[j];
        var c := Contribution(team.teamName, team.kills, team.points);
        var existing := Lookup(teamStats, team.teamName);
        teamStats := Store(teamStats, Add(existing, c));
        InnerStep(Contributions(savedMatches[..i]), teams, j);
        j := j + 1;
      }
      assert teams[..j] == teams;
      OuterStep(savedMatches, i);
      i := i + 1;
    }
    assert savedMatches[..i] == savedMatches;
    sorted := SortDesc(teamStats, ByPointsThenKills);
  }

  /** One standing per team name that occurs, holding the number of lines
      bearing that name and the sums of their kills and points; sorted by
      points and, on equal points, by kills; empty for no matches. */
  lemma OverallResultsSpec(ms: seq<SC.SavedMatch>)
    ensures NamesDistinct(OverallResults(ms))
    ensures forall r :: r in OverallResults(ms) <==>
              r.teamName in NamesOf(Contributions(ms)) && r == Tally(Contributions(ms), r.teamName)
    ensures |OverallResults(ms)| == |NamesOf(Contributions(ms))|
    ensures forall i, j :: 0 <= i < j < |OverallResults(ms)| ==>
              var a, b := OverallResults(ms)[i], OverallResults(ms)[j];
              a.totalPoints > b.totalPoints || (a.totalPoints == b.totalPoints && a.totalKills >= b.totalKills)
    ensures ms == [] ==> OverallResults(ms) == []
  {
    var cs := Contributions(ms);
    AggregateSpec(cs);
    AggregateSize(cs);
    SortDescSorted(Aggregate(cs), ByPointsThenKills);
    SortDescMembers(Aggregate(cs), ByPointsThenKills);
    NamesDistinctPermutation(Aggregate(cs), OverallResults(ms));
  }

  /** The totals do not depend on the order of the saved matches. */
  lemma OverallResultsOrderFree(a: seq<SC.SavedMatch>, b: seq<SC.SavedMatch>)
    requires multiset(a) == multiset(b)
    ensures forall r :: r in OverallResults(a) <==> r in OverallResults(b)
  {
    FlatMapPermutation(a, b, MatchContributions);
    AggregatePermutation(Contributions(a), Contributions(b));
    SortDescMembers(Aggregate(Contributions(a)), ByPointsThenKills);
    SortDescMembers(Aggregate(Contributions(b)), ByPointsThenKills);
  }

  /** A row of the "Overall Standings" sheet. The average is `None` where the
      page would divide by zero. */
  datatype StandingRow = StandingRow(rank: nat, teamName: string, totalKills: int, totalPoints: int,
                                     matchesPlayed: nat, averagePoints: Option<real>)

  function StandingRows(rs: seq<TeamResult>): seq<StandingRow> {
    seq(|rs|, k requires 0 <= k < |rs| =>
      StandingRow(k + 1, rs[k].teamName, rs[k].totalKills, rs[k].totalPoints, rs[k].matches,
                  Average(rs[k].totalPoints, rs[k].matches)))
  }

  /** The exported rows follow the table, ranked 1, 2, ..., and every
      average is defined: each team played at least once. */
  lemma OverallStandingRows(ms: seq<SC.SavedMatch>)
    ensures var rs := OverallResults(ms);
            var rows := StandingRows(rs);
            |rows| == |rs|
            && forall k :: 0 <= k < |rs| ==>
                 rows[k].rank == k + 1 && rows[k].teamName == rs[k].teamName
                 && rows[k].totalKills == rs[k].totalKills && rows[k].totalPoints == rs[k].totalPoints
                 && rows[k].matchesPlayed == rs[k].matches >= 1
                 && rows[k].averagePoints == Some(rs[k].totalPoints as real / rs[k].matches as real)
  {
    var cs := Contributions(ms);
    var rs := OverallResults(ms);
    AggregateCountsPositive(cs);
    SortDescMembers(Aggregate(cs), ByPointsThenKills);
    forall k | 0 <= k < |rs| ensures rs[k].matches >= 1 {
      assert rs[k] in Aggregate(cs);
    }
  }

  /** `handleDeleteMatch(kind, i)`: keeps every match of the other type, and of
      this type keeps those whose place among the matches of this type
      (`indexOf` on the very objects, so the ordinal) is not `i`. `seen`
      counts the matches of this type already passed. */
  function DeleteFrom(ms: seq<SC.SavedMatch>, kind: MatchKind, i: int, seen: nat): seq<SC.SavedMatch> {
    if ms == [] then []
    else if ms[0].kind == kind then
      (if seen == i then [] else [ms[0]]) + DeleteFrom(ms[1..], kind, i, seen + 1)
    else [ms[0]] + DeleteFrom(ms[1..], kind, i, seen)
  }

  function DeleteByKind(ms: seq<SC.SavedMatch>, kind: MatchKind, i: int): seq<SC.SavedMatch> {
    DeleteFrom(ms, kind, i, 0)
  }

  /** The position in `ms` of the match of type `kind` whose ordinal, counting
      from `seen`, is `i`; -1 when there is none. */
  function KindIndexFrom(ms: seq<SC.SavedMatch>, kind: MatchKind, i: int, seen: nat): (p: int)
    ensures -1 <= p < |ms|
  {
    if ms == [] then -1
    else if ms[0].kind == kind && seen == i then 0
    else
      var q := KindIndexFrom(ms[1..], kind, i, if ms[0].kind == kind then seen + 1 else seen);
      if q < 0 then -1 else q + 1
  }

  /** The position of the i-th match of type `kind`, or -1. */
  function KindIndex(ms: seq<SC.SavedMatch>, kind: MatchKind, i: int): int {
    KindIndexFrom(ms, kind, i, 0)
  }

  lemma OfKindCons(m: SC.SavedMatch, ms: seq<SC.SavedMatch>, kind: MatchKind)
    ensures OfKind([m] + ms, kind) == if m.kind == kind then [m] + OfKind(ms, kind) else OfKind(ms, kind)
  {
    assert ([m] + ms)[0] == m;
    assert ([m] + ms)[1..] == ms;
  }

  lemma OfKindConsSkip(m: SC.SavedMatch, ms: seq<SC.SavedMatch>, kind: MatchKind)
    requires m.kind != kind
    ensures OfKind([m] + ms, kind) == OfKind(ms, kind)
  {
    OfKindCons(m, ms, kind);
  }

  lemma OfKindConsKeep(m: SC.SavedMatch, ms: seq<SC.SavedMatch>, kind: MatchKind)
    requires m.kind == kind
    ensures OfKind([m] + ms, kind) == [m] + OfKind(ms, kind)
  {
    OfKindCons(m, ms, kind);
  }

  lemma PrefixOfKindCons(ms: seq<SC.SavedMatch>, n: nat, kind: MatchKind)
    requires 1 <= n <= |ms|
    ensures |OfKind(ms[..n], kind)| == (if ms[0].kind == kind then 1 else 0) + |OfKind(ms[1..][..n - 1], kind)|
  {
    assert ms[..n] == [ms[0]] + ms[1..][..n - 1];
    if ms[0].kind == kind {
      OfKindConsKeep(ms[0], ms[1..][..n - 1], kind);
    } else {
      OfKindConsSkip(ms[0], ms[1..][..n - 1], kind);
    }
  }

  lemma {:induction false} KindIndexFromFound(ms: seq<SC.SavedMatch>, kind: MatchKind, i: int, seen: nat)
    ensures var p := KindIndexFrom(ms, kind, i, seen);
            p >= 0 ==> ms[p].kind == kind && |OfKind(ms[..p], kind)| + seen == i
  {
    if ms == [] {
    } else if ms[0].kind == kind && seen == i {
      assert ms[..0] == [];
    } else {
      var next := if ms[0].kind == kind then seen + 1 else seen;
      var tail := ms[1..];
      var q := KindIndexFrom(tail, kind, i, next);
      KindIndexFromFound(tail, kind, i, next);
      if q >= 0 {
        FoundStep(ms, kind, i, seen, q);
      }
    }
  }

  /** The step of `KindIndexFromFound`: a match found at `q` in the tail is
      found at `q + 1` in the whole list. */
  lemma FoundStep(ms: seq<SC.SavedMatch>, kind: MatchKind, i: int, seen: nat, q: nat)
    requires ms != [] && !(ms[0].kind == kind && seen == i)
    requires q < |ms| - 1 && ms[1..][q].kind == kind
    requires |OfKind(ms[1..][..q], kind)| + (if ms[0].kind == kind then seen + 1 else seen) == i
    ensures ms[q + 1].kind == kind && |OfKind(ms[..q + 1], kind)| + seen == i
  {
    PrefixOfKindCons(ms, q + 1, kind);
  }

  lemma {:induction false} KindIndexFromMissing(ms: seq<SC.SavedMatch>, kind: MatchKind, i: int, seen: nat)
    ensures KindIndexFrom(ms, kind, i, seen) == -1 <==> !(seen <= i < seen + |OfKind(ms, kind)|)
  {
    if ms != [] {
      var next := if ms[0].kind == kind then seen + 1 else seen;
      assert ms == [ms[0]] + ms[1..];
      OfKindCons(ms[0], ms[1..], kind);
      if !(ms[0].kind == kind && seen == i) {
        KindIndexFromMissing(ms[1..], kind, i, next);
      }
    }
  }

  /** A found position holds a match of that type preceded by exactly the
      right number of its kind; none is found exactly when the ordinal is out
      of range. */
  lemma KindIndexFromSpec(ms: seq<SC.SavedMatch>, kind: MatchKind, i: int, seen: nat)
    ensures var p := KindIndexFrom(ms, kind, i, seen);
            (p >= 0 ==> ms[p].kind == kind && |OfKind(ms[..p], kind)| + seen == i)
            && (p == -1 <==> !(seen <= i < seen + |OfKind(ms, kind)|))
  {
    KindIndexFromFound(ms, kind, i, seen);
    KindIndexFromMissing(ms, kind, i, seen);
  }

  lemma RemoveAtCons<T>(x: T, s: seq<T>, p: int)
    requires p >= 0 || p == -1
    ensures RemoveAt([x] + s, if p < 0 then -1 else p + 1) == [x] + RemoveAt(s, p)
  {
    var l := RemoveAt([x] + s, if p < 0 then -1 else p + 1);
    var r := [x] + RemoveAt(s, p);
    assert |l| == |r|;
    forall k | 0 <= k < |l| ensures l[k] == r[k] {
      if k > 0 {
        assert r[k] == RemoveAt(s, p)[k - 1];
      }
    }
  }

  lemma {:induction false} DeleteFromIsRemoveAt(ms: seq<SC.SavedMatch>, kind: MatchKind, i: int, seen: nat)
    ensures DeleteFrom(ms, kind, i, seen) == RemoveAt(ms, KindIndexFrom(ms, kind, i, seen))
  {
    if ms != [] {
      var next := if ms[0].kind == kind then seen + 1 else seen;
      assert ms == [ms[0]] + ms[1..];
      if ms[0].kind == kind && seen == i {
        assert RemoveAt(ms, 0) == ms[1..];
        DeleteFromOthersKept(ms[1..], kind, i, next);
      } else {
        DeleteFromIsRemoveAt(ms[1..], kind, i, next);
        var q := KindIndexFrom(ms[1..], kind, i, next);
        assert DeleteFrom(ms, kind, i, seen) == [ms[0]] + DeleteFrom(ms[1..], kind, i, next);
        RemoveAtCons(ms[0], ms[1..], q);
      }
    }
  }

  /** Once the ordinal has been passed nothing more is deleted. */
  lemma {:induction false} DeleteFromOthersKept(ms: seq<SC.SavedMatch>, kind: MatchKind, i: int, seen: nat)
    requires seen > i
    ensures DeleteFrom(ms, kind, i, seen) == ms
  {
    if ms != [] {
      DeleteFromOthersKept(ms[1..], kind, i, if ms[0].kind == kind then seen + 1 else seen);
      assert ms == [ms[0]] + ms[1..];
    }
  }

  /** The delete removes exactly the i-th match of that type, keeping the
      order of all the others; an ordinal with no such match changes nothing. */
  lemma DeleteByKindSpec(ms: seq<SC.SavedMatch>, kind: MatchKind, i: int)
    ensures var p := KindIndex(ms, kind, i);
            DeleteByKind(ms, kind, i) == RemoveAt(ms, p)
            && (p >= 0 ==> ms[p].kind == kind && |OfKind(ms[..p], kind)| == i)
            && (p == -1 <==> !(0 <= i < |OfKind(ms, kind)|))
  {
    DeleteFromIsRemoveAt(ms, kind, i, 0);
    KindIndexFromSpec(ms, kind, i, 0);
  }

  /** The matches of the other type are untouched by the delete. */
  lemma {:induction false} DeleteFromKeepsOtherKind(ms: seq<SC.SavedMatch>, kind: MatchKind, other: MatchKind, i: int, seen: nat)
    requires other != kind
    ensures OfKind(DeleteFrom(ms, kind, i, seen), other) == OfKind(ms, other)
  {
    if ms != [] {
      var m := ms[0];
      var tail := ms[1..];
      assert ms == [m] + tail;
      var next := if m.kind == kind then seen + 1 else seen;
      var rest := DeleteFrom(tail, kind, i, next);
      DeleteFromKeepsOtherKind(tail, kind, other, i, next);
      if m.kind == other {
        assert DeleteFrom(ms, kind, i, seen) == [m] + rest;
        OfKindConsKeep(m, rest, other);
        OfKindConsKeep(m, tail, other);
      } else {
        OfKindConsSkip(m, tail, other);
        if m.kind == kind && seen == i {
          assert DeleteFrom(ms, kind, i, seen) == rest;
        } else {
          assert DeleteFrom(ms, kind, i, seen) == [m] + rest;
          OfKindConsSkip(m, rest, other);
        }
      }
    }
  }

  lemma DeleteByKindKeepsOtherKind(ms: seq<SC.SavedMatch>, kind: MatchKind, other: MatchKind, i: int)
    requires other != kind
    ensures OfKind(DeleteByKind(ms, kind, i), other) == OfKind(ms, other)
  {
    DeleteFromKeepsOtherKind(ms, kind, other, i, 0);
  }

  /** What the page adds to a history snapshot: the two match lists. */
  datatype MatchSplit = MatchSplit(semifinals: seq<SC.SavedMatch>, finals: seq<SC.SavedMatch>)

  type ResultsSnapshot = TournamentHistory.Snapshot<TeamResult, MatchSplit>

  /** The page's state after loading: the title and the three lists it shows. */
  class ResultsPage {
    var tournamentName: string
    var semifinalResults: seq<SC.SavedMatch>
    var finalResults: seq<SC.SavedMatch>
    var overallResults: seq<TeamResult>

    constructor (configuredName: Option<string>, savedMatches: seq<SC.SavedMatch>)
      ensures tournamentName == TournamentHistory.TitleOr(configuredName)
      ensures semifinalResults == OfKind(savedMatches, Semifinal) && finalResults == OfKind(savedMatches, Final)
      ensures overallResults == OverallResults(savedMatches)
    {
      var overall := CalculateOverallResults(savedMatches);
      tournamentName := TournamentHistory.TitleOr(configuredName);
      semifinalResults := OfKind(savedMatches, Semifinal);
      finalResults := OfKind(savedMatches, Final);
      overallResults := overall;
    }

    /** `loadResults`. */
    method LoadResults(configuredName: Option<string>, savedMatches: seq<SC.SavedMatch>)
      modifies this
      ensures tournamentName == TournamentHistory.TitleOr(configuredName)
      ensures semifinalResults == OfKind(savedMatches, Semifinal) && finalResults == OfKind(savedMatches, Final)
      ensures overallResults == OverallResults(savedMatches)
    {
      tournamentName := TournamentHistory.TitleOr(configuredName);
      semifinalResults := OfKind(savedMatches, Semifinal);
      finalResults := OfKind(savedMatches, Final);
      overallResults := CalculateOverallResults(savedMatches);
    }

    /** `handleDeleteMatch`, after the user's answer `confirmed` to the
        confirmation dialog: the stored list without that match, then a
        reload from it; a refusal keeps the stored list and the page. */
    method DeleteMatch(configuredName: Option<string>, stored: seq<SC.SavedMatch>, kind: MatchKind, i: int, confirmed: bool)
      returns (updated: seq<SC.SavedMatch>)
      modifies this
      ensures confirmed ==> updated == DeleteByKind(stored, kind, i)
      ensures confirmed ==> semifinalResults == OfKind(updated, Semifinal) && finalResults == OfKind(updated, Final)
      ensures confirmed ==> overallResults == OverallResults(updated)
      ensures confirmed ==> tournamentName == TournamentHistory.TitleOr(configuredName)
      ensures !confirmed ==> updated == stored && unchanged(this)
    {
      if !confirmed {
        return stored;
      }
      updated := DeleteByKind(stored, kind, i);
      LoadResults(configuredName, updated);
    }

    /** `handleSaveToHistory`: the history with one more snapshot holding the
        shown lists and standings; earlier snapshots are kept as they are. */
    method SaveToHistory(history: seq<ResultsSnapshot>, id: int, date: string) returns (r: seq<ResultsSnapshot>)
      ensures |r| == |history| + 1 && r[..|history|] == history
      ensures r[|history|] == TournamentHistory.Snapshot(id, date, tournamentName, overallResults,
                                                          MatchSplit(semifinalResults, finalResults))
    {
      r := TournamentHistory.Push(history, TournamentHistory.Snapshot(id, date, tournamentName, overallResults,
                                                                      MatchSplit(semifinalResults, finalResults)));
    }
  }
}
