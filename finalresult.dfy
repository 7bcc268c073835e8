/** The final standings page of `src/pages/FinalResult.tsx`, read over the
    ledger the match calculator keeps: matches split by type, totals kept in a
    plain object keyed by team name, enumerated in `Object.values` order,
    given an average and sorted by points alone; the per-match rows; and the
    archive into the tournament history. */
module FinalResult {
  import opened Common
  import opened JsText
  import opened Sorting
  import opened StableSort
  import opened Standings
  import MC = MatchCalculator
  import Results
  import TournamentHistory

  function IsKind(kind: MatchKind): MC.Match -> bool {
    (m: MC.Match) => m.kind == kind
  }

  function OfKind(ms: seq<MC.Match>, kind: MatchKind): seq<MC.Match> {
    FilterBy(ms, IsKind(kind))
  }

  /** `semiMatches` and `finalMatches` together hold each match once, each under its own type. */
  lemma SplitPartition(ms: seq<MC.Match>)
    ensures multiset(OfKind(ms, Semifinal)) + multiset(OfKind(ms, Final)) == multiset(ms)
    ensures forall k :: 0 <= k < |OfKind(ms, Semifinal)| ==> OfKind(ms, Semifinal)[k].kind == Semifinal
    ensures forall k :: 0 <= k < |OfKind(ms, Final)| ==> OfKind(ms, Final)[k].kind == Final
  {
    FilterPartition(ms, IsKind(Semifinal), IsKind(Final));
    FilterByMembers(ms, IsKind(Semifinal));
    FilterByMembers(ms, IsKind(Final));
    forall k | 0 <= k < |OfKind(ms, Semifinal)| ensures OfKind(ms, Semifinal)[k].kind == Semifinal {
      assert OfKind(ms, Semifinal)[k] in OfKind(ms, Semifinal);
    }
    forall k | 0 <= k < |OfKind(ms, Final)| ensures OfKind(ms, Final)[k].kind == Final {
      assert OfKind(ms, Final)[k] in OfKind(ms, Final);
    }
  }

  /** What one entry adds: `Number(kills) || 0`, so an unset count adds 0, and its points. */
  function EntryContribution(t: MC.TeamScore): Contribution {
    Contribution(t.teamName, t.kills.GetOr(0), t.points)
  }

  function TeamContributions(ts: seq<MC.TeamScore>): (r: seq<Contribution>)
    ensures |r| == |ts|
    ensures forall k :: 0 <= k < |ts| ==> r[k] == EntryContribution(ts[k])
  {
    if ts == [] then [] else TeamContributions(ts[..|ts| - 1]) + [EntryContribution(ts[|ts| - 1])]
  }

  function MatchContributions(m: MC.Match): seq<Contribution> {
    TeamContributions(m.teams)
  }

  function Contributions(ms: seq<MC.Match>): seq<Contribution> {
    FlatMap(ms, MatchContributions)
  }

  /** The value of a property key that is a canonical array index: a decimal
      numeral without a leading zero below 2^32 - 1. Such keys are enumerated
      before all others, in ascending numeric order. */
  function ArrayIndex(key: string): Option<nat> {
    if key != [] && (forall k :: 0 <= k < |key| ==> IsDigit(key[k], 10)) && (key[0] != '0' || |key| == 1) then
      var v := DigitsValue(key, 10);
      if v < 0xFFFF_FFFF then Some(v) else None
    else None
  }

  function IsIndexKeyed(): TeamResult -> bool {
    (r: TeamResult) => ArrayIndex(r.teamName).Some?
  }

  function IsOtherKeyed(): TeamResult -> bool {
    (r: TeamResult) => ArrayIndex(r.teamName).None?
  }

  /** Ascending by index: the larger the index, the lower the rank. */
  function ByIndexAscending(r: TeamResult): Rank {
    Rank(-(ArrayIndex(r.teamName).GetOr(0) as int), 0)
  }

  /** `Object.values(teamScores)` for records stored in `rs`'s order: the
      index-keyed ones by ascending index, then the rest as stored. */
  function ObjectValues(rs: seq<TeamResult>): seq<TeamResult> {
    SortDesc(FilterBy(rs, IsIndexKeyed()), ByIndexAscending) + FilterBy(rs, IsOtherKeyed())
  }

  /** The enumeration lists each stored record once. */
  lemma ObjectValuesPermutation(rs: seq<TeamResult>)
    ensures multiset(ObjectValues(rs)) == multiset(rs)
  {
    var indexed := FilterBy(rs, IsIndexKeyed());
    FilterPartition(rs, IsIndexKeyed(), IsOtherKeyed());
    assert multiset(ObjectValues(rs)) == multiset(SortDesc(indexed, ByIndexAscending)) + multiset(FilterBy(rs, IsOtherKeyed()));
  }

  /** The index-keyed records come first, in ascending index order; the
      others follow in storage order. */
  lemma ObjectValuesOrder(rs: seq<TeamResult>)
    ensures var front := SortDesc(FilterBy(rs, IsIndexKeyed()), ByIndexAscending);
            ObjectValues(rs)[..|front|] == front
            && (forall k :: 0 <= k < |front| ==> ArrayIndex(front[k].teamName).Some?)
            && (forall i, j :: 0 <= i < j < |front| ==>
                  ArrayIndex(front[i].teamName).value <= ArrayIndex(front[j].teamName).value)
            && ObjectValues(rs)[|front|..] == FilterBy(rs, IsOtherKeyed())
  {
    var indexed := FilterBy(rs, IsIndexKeyed());
    FilterByMembers(rs, IsIndexKeyed());
    forall x | x in indexed ensures ArrayIndex(x.teamName).Some? {
    }
    AscendingIndices(indexed);
  }

  lemma AscendingIndices(indexed: seq<TeamResult>)
    requires forall x :: x in indexed ==> ArrayIndex(x.teamName).Some?
    ensures var front := SortDesc(indexed, ByIndexAscending);
            (forall k :: 0 <= k < |front| ==> ArrayIndex(front[k].teamName).Some?)
            && (forall i, j :: 0 <= i < j < |front| ==>
                  ArrayIndex(front[i].teamName).value <= ArrayIndex(front[j].teamName).value)
  {
    var front := SortDesc(indexed, ByIndexAscending);
    SortDescSorted(indexed, ByIndexAscending);
    SortDescMembers(indexed, ByIndexAscending);
    forall k | 0 <= k < |front| ensures ArrayIndex(front[k].teamName).Some? {
      assert front[k] in indexed;
    }
    forall i, j | 0 <= i < j < |front|
      ensures ArrayIndex(front[i].teamName).value <= ArrayIndex(front[j].teamName).value
    {
      assert front[i] in indexed && front[j] in indexed;
      assert !Ahead(ByIndexAscending(front[j]), ByIndexAscending(front[i]));
    }
  }

  /** When no team name is an array index, the enumeration is the storage order. */
  lemma ObjectValuesPlain(rs: seq<TeamResult>)
    requires forall k :: 0 <= k < |rs| ==> ArrayIndex(rs[k].teamName).None?
    ensures ObjectValues(rs) == rs
  {
    var indexed := FilterBy(rs, IsIndexKeyed());
    forall x | x in rs ensures ArrayIndex(x.teamName).None? {
      var k :| 0 <= k < |rs| && rs[k] == x;
    }
    FilterByNone(rs, IsIndexKeyed());
    FilterByAll(rs, IsOtherKeyed());
  }

  /** A row of `finalResults`: the totals and the average, `None` where a
      division by zero would give `NaN`. */
  datatype FinalStanding = FinalStanding(teamName: string, totalKills: int, totalPoints: int, matches: nat,
                                         avgPoints: Option<real>)

  function WithAverage(r: TeamResult): FinalStanding {
    FinalStanding(r.teamName, r.totalKills, r.totalPoints, r.matches, Average(r.totalPoints, r.matches))
  }

  function WithAverages(rs: seq<TeamResult>): (r: seq<FinalStanding>)
    ensures |r| == |rs|
    ensures forall k :: 0 <= k < |rs| ==> r[k] == WithAverage(rs[k])
  {
    seq(|rs|, k requires 0 <= k < |rs| => WithAverage(rs[k]))
  }

  /** `(a, b) => b.totalPoints - a.totalPoints`: points only, no tie-break. */
  function ByTotalPoints(s: FinalStanding): Rank {
    Rank(s.totalPoints, 0)
  }

  function ResultByTotalPoints(r: TeamResult): Rank {
    Rank(r.totalPoints, 0)
  }

  /** `calculateResults`: totals in enumeration order, averaged, sorted by points. */
  function FinalResults(ms: seq<MC.Match>): seq<FinalStanding> {
    SortDesc(WithAverages(ObjectValues(Aggregate(Contributions(ms)))), ByTotalPoints)
  }

  lemma WithAveragesCons(y: TeamResult, t: seq<TeamResult>)
    ensures WithAverages([y] + t) == [WithAverage(y)] + WithAverages(t)
  {
    var l := WithAverages([y] + t);
    var r := [WithAverage(y)] + WithAverages(t);
    assert |l| == |r|;
    forall k | 0 <= k < |l| ensures l[k] == r[k] {
      if k > 0 {
        assert ([y] + t)[k] == t[k - 1];
      }
    }
  }

  lemma {:induction false} InsertCommutes(x: TeamResult, s: seq<TeamResult>)
    ensures Insert(WithAverage(x), WithAverages(s), ByTotalPoints) == WithAverages(Insert(x, s, ResultByTotalPoints))
  {
    var s' := WithAverages(s);
    if s == [] {
      assert WithAverages([x]) == [WithAverage(x)];
    } else {
      assert s'[0] == WithAverage(s[0]);
      assert ByTotalPoints(WithAverage(x)) == ResultByTotalPoints(x);
      assert ByTotalPoints(s'[0]) == ResultByTotalPoints(s[0]);
      if Ahead(ResultByTotalPoints(x), ResultByTotalPoints(s[0])) {
        WithAveragesCons(x, s);
      } else {
        assert s'[1..] == WithAverages(s[1..]);
        InsertCommutes(x, s[1..]);
        WithAveragesCons(s[0], Insert(x, s[1..], ResultByTotalPoints));
      }
    }
  }

  /** Averaging and then sorting by points is sorting and then averaging:
      the key does not look at the average. */
  lemma {:induction false} SortCommutes(rs: seq<TeamResult>)
    ensures SortDesc(WithAverages(rs), ByTotalPoints) == WithAverages(SortDesc(rs, ResultByTotalPoints))
  {
    if rs != [] {
      var init := rs[..|rs| - 1];
      SortCommutes(init);
      assert WithAverages(rs)[..|rs| - 1] == WithAverages(init);
      InsertCommutes(rs[|rs| - 1], SortDesc(init, ResultByTotalPoints));
    }
  }

  /** Any arrangement of the table holds one record per team name that
      occurs, each the reference totals of that name. */
  lemma TableFacts(cs: seq<Contribution>, t: seq<TeamResult>)
    requires multiset(t) == multiset(Aggregate(cs))
    ensures |t| == |NamesOf(cs)|
    ensures NamesDistinct(t)
    ensures forall k :: 0 <= k < |t| ==> t[k].teamName in NamesOf(cs) && t[k] == Tally(cs, t[k].teamName) && t[k].matches >= 1
    ensures forall n :: n in NamesOf(cs) ==> exists k :: 0 <= k < |t| && t[k].teamName == n
  {
    var a := Aggregate(cs);
    AggregateSpec(cs);
    AggregateSize(cs);
    AggregateCountsPositive(cs);
    NamesDistinctPermutation(a, t);
    assert |t| == |multiset(t)| == |multiset(a)| == |a|;
    forall k | 0 <= k < |t| ensures t[k] in a {
      assert t[k] in multiset(t);
    }
    forall n | n in NamesOf(cs) ensures exists k :: 0 <= k < |t| && t[k].teamName == n {
      assert Tally(cs, n) in a;
      assert Tally(cs, n) in multiset(t);
      var k :| 0 <= k < |t| && t[k] == Tally(cs, n);
    }
  }

  /** The table that, averaged, gives the final results. */
  function SortedTable(ms: seq<MC.Match>): seq<TeamResult> {
    SortDesc(ObjectValues(Aggregate(Contributions(ms))), ResultByTotalPoints)
  }

  lemma SortedTableSpec(ms: seq<MC.Match>)
    ensures FinalResults(ms) == WithAverages(SortedTable(ms))
    ensures multiset(SortedTable(ms)) == multiset(Aggregate(Contributions(ms)))
    ensures SortedBy(SortedTable(ms), ResultByTotalPoints)
  {
    var v := ObjectValues(Aggregate(Contributions(ms)));
    ObjectValuesPermutation(Aggregate(Contributions(ms)));
    SortDescSorted(v, ResultByTotalPoints);
    SortCommutes(v);
  }

  /** The final-result facts for any sorted arrangement of the table. */
  lemma AveragedTableFacts(cs: seq<Contribution>, t: seq<TeamResult>)
    requires multiset(t) == multiset(Aggregate(cs))
    requires SortedBy(t, ResultByTotalPoints)
    ensures var r := WithAverages(t);
            |r| == |NamesOf(cs)|
            && (forall i, j :: 0 <= i < j < |r| ==> r[i].teamName != r[j].teamName)
            && (forall i, j :: 0 <= i < j < |r| ==> r[i].totalPoints >= r[j].totalPoints)
            && (forall n :: n in NamesOf(cs) ==> exists k :: 0 <= k < |r| && r[k].teamName == n)
            && forall k :: 0 <= k < |r| ==>
                 r[k].teamName in NamesOf(cs)
                 && r[k].totalKills == Tally(cs, r[k].teamName).totalKills
                 && r[k].totalPoints == Tally(cs, r[k].teamName).totalPoints
                 && r[k].matches == Tally(cs, r[k].teamName).matches >= 1
                 && r[k].avgPoints == Some(r[k].totalPoints as real / r[k].matches as real)
  {
    var r := WithAverages(t);
    TableFacts(cs, t);
    forall i, j | 0 <= i < j < |r| ensures r[i].totalPoints >= r[j].totalPoints {
      assert !Ahead(ResultByTotalPoints(t[j]), ResultByTotalPoints(t[i]));
    }
    forall n | n in NamesOf(cs) ensures exists k :: 0 <= k < |r| && r[k].teamName == n {
      var k :| 0 <= k < |t| && t[k].teamName == n;
      assert r[k].teamName == n;
    }
  }

  /** One standing per team name that occurs, holding that name's number of
      entries, its kills (unset as 0) and its points, with the average
      defined; ordered by non-increasing points. */
  lemma FinalResultsSpec(ms: seq<MC.Match>)
    ensures var r := FinalResults(ms);
            var cs := Contributions(ms);
            |r| == |NamesOf(cs)|
            && (forall i, j :: 0 <= i < j < |r| ==> r[i].teamName != r[j].teamName)
            && (forall i, j :: 0 <= i < j < |r| ==> r[i].totalPoints >= r[j].totalPoints)
            && (forall n :: n in NamesOf(cs) ==> exists k :: 0 <= k < |r| && r[k].teamName == n)
            && forall k :: 0 <= k < |r| ==>
                 r[k].teamName in NamesOf(cs)
                 && r[k].totalKills == Tally(cs, r[k].teamName).totalKills
                 && r[k].totalPoints == Tally(cs, r[k].teamName).totalPoints
                 && r[k].matches == Tally(cs, r[k].teamName).matches >= 1
                 && r[k].avgPoints == Some(r[k].totalPoints as real / r[k].matches as real)
  {
    SortedTableSpec(ms);
    AveragedTableFacts(Contributions(ms), SortedTable(ms));
  }

  predicate EqualPoints(rs: seq<TeamResult>) {
    forall i, j :: 0 <= i < |rs| && 0 <= j < |rs| ==> rs[i].totalPoints == rs[j].totalPoints
  }

  lemma TiedStandings(v: seq<TeamResult>)
    requires EqualPoints(v)
    ensures SortDesc(WithAverages(v), ByTotalPoints) == WithAverages(v)
  {
    var w := WithAverages(v);
    forall i, j | 0 <= i < |w| && 0 <= j < |w| ensures ByTotalPoints(w[i]) == ByTotalPoints(w[j]) {
      assert w[i].totalPoints == v[i].totalPoints && w[j].totalPoints == v[j].totalPoints;
    }
    SortDescAllTied(w, ByTotalPoints);
  }

  /** The standings with exactly `points` points. */
  function PointsAre(points: int): FinalStanding -> bool {
    (s: FinalStanding) => s.totalPoints == points
  }

  /** Points alone decide the order: for every points value, the teams on
      that many points appear in the final table in the order `Object.values`
      enumerates them, whatever their kills. */
  lemma TiesKeepEnumerationOrder(ms: seq<MC.Match>, points: int)
    ensures FilterBy(FinalResults(ms), PointsAre(points))
            == FilterBy(WithAverages(ObjectValues(Aggregate(Contributions(ms)))), PointsAre(points))
  {
    var v := WithAverages(ObjectValues(Aggregate(Contributions(ms))));
    SortDescStable(v, ByTotalPoints, PointsAre(points), Rank(points, 0));
  }

  /** Two teams on equal points keep their order here even when the second
      has more kills; the overall table of the results page swaps them. */
  lemma KillsDoNotBreakTies(x: TeamResult, y: TeamResult)
    requires x.totalPoints == y.totalPoints && x.totalKills < y.totalKills
    ensures SortDesc(WithAverages([x, y]), ByTotalPoints) == WithAverages([x, y])
    ensures SortDesc([x, y], Results.ByPointsThenKills) == [y, x]
  {
    TiedStandings([x, y]);
    KillsBreakTiesOverall(x, y);
  }

  /** The overall table's comparator puts the second team first. */
  lemma KillsBreakTiesOverall(x: TeamResult, y: TeamResult)
    requires x.totalPoints == y.totalPoints && x.totalKills < y.totalKills
    ensures SortDesc([x, y], Results.ByPointsThenKills) == [y, x]
  {
    var key := Results.ByPointsThenKills;
    assert [x, y][..1] == [x];
    assert [x][..0] == [];
    assert SortDesc([x], key) == [x];
    assert Ahead(key(y), key(x));
    assert Insert(y, [x], key) == [y, x];
  }

  /** A row of a per-match sheet. */
  datatype MatchRow = MatchRow(rank: nat, teamName: string, kills: int, position: Option<int>, points: int)

  /** The rows of one match: by points, highest first, ties in entry order,
      ranked from 1, kills `|| 0`, position `|| '-'`. */
  function MatchRows(teams: seq<MC.TeamScore>): seq<MatchRow> {
    var sorted := SortDesc(teams, MC.ByPoints);
    seq(|sorted|, k requires 0 <= k < |sorted| =>
      MatchRow(k + 1, sorted[k].teamName, sorted[k].kills.GetOr(0), MC.PositionCell(sorted[k].position), sorted[k].points))
  }

  /** The rows hold each entry once, in non-increasing points, ranked 1, 2, ...;
      unset kills show as 0 and an unset or zero position as the dash. */
  lemma MatchRowsSpec(teams: seq<MC.TeamScore>)
    ensures var sorted := SortDesc(teams, MC.ByPoints);
            var rows := MatchRows(teams);
            multiset(sorted) == multiset(teams) && |rows| == |teams|
            && (forall i, j :: 0 <= i < j < |rows| ==> rows[i].points >= rows[j].points)
            && forall k :: 0 <= k < |rows| ==>
                 rows[k].rank == k + 1 && rows[k].teamName == sorted[k].teamName && rows[k].points == sorted[k].points
                 && (sorted[k].kills.None? ==> rows[k].kills == 0)
                 && (sorted[k].kills.Some? ==> rows[k].kills == sorted[k].kills.value)
                 && (rows[k].position.None? <==> sorted[k].position.None? || sorted[k].position.value == 0)
  {
    var sorted := SortDesc(teams, MC.ByPoints);
    var rows := MatchRows(teams);
    SortDescSorted(teams, MC.ByPoints);
    forall i, j | 0 <= i < j < |rows| ensures rows[i].points >= rows[j].points {
      assert !Ahead(MC.ByPoints(sorted[j]), MC.ByPoints(sorted[i]));
    }
  }

  type FinalSnapshot = TournamentHistory.Snapshot<FinalStanding, ()>

  /** The page's state after loading. */
  class FinalResultPage {
    var finalResults: seq<FinalStanding>
    var semifinals: seq<MC.Match>
    var finals: seq<MC.Match>

    constructor (matches: seq<MC.Match>)
      ensures semifinals == OfKind(matches, Semifinal) && finals == OfKind(matches, Final)
      ensures finalResults == FinalResults(matches)
    {
      var results := CalculateResults(matches);
      semifinals := OfKind(matches, Semifinal);
      finals := OfKind(matches, Final);
      finalResults := results;
    }

    /** `handleSaveToHistory`: one more snapshot holding the shown standings
        under the configured name; earlier snapshots are kept. */
    method SaveToHistory(history: seq<FinalSnapshot>, id: int, date: string, configuredName: Option<string>)
      returns (r: seq<FinalSnapshot>)
      ensures |r| == |history| + 1 && r[..|history|] == history
      ensures r[|history|] == TournamentHistory.Snapshot(id, date, TournamentHistory.TitleOr(configuredName), finalResults, ())
    {
      r := TournamentHistory.Push(history, TournamentHistory.Snapshot(id, date, TournamentHistory.TitleOr(configuredName), finalResults, ()));
    }
  }

  lemma OuterStep(ms: seq<MC.Match>, i: nat)
    requires i < |ms|
    ensures Contributions(ms[..i + 1]) == Contributions(ms[..i]) + TeamContributions(ms[i].teams)
  {
    assert ms[..i + 1][..i] == ms[..i];
  }

  lemma InnerStep(prefix: seq<Contribution>, ts: seq<MC.TeamScore>, j: nat)
    requires j < |ts|
    ensures Aggregate(prefix + TeamContributions(ts[..j + 1]))
            == Upsert(Aggregate(prefix + TeamContributions(ts[..j])), EntryContribution(ts[j]))
  {
    assert ts[..j + 1][..j] == ts[..j];
    var before := prefix + TeamContributions(ts[..j]);
    assert prefix + TeamContributions(ts[..j + 1]) == before + [EntryContribution(ts[j])];
    AggregateSnoc(before, EntryContribution(ts[j]));
  }

  /** The nested `forEach` over matches and entries: each entry's totals are
      read from the object (created at zero on first sight), added to and
      stored back; then the enumeration, the averages and the sort. */
  method CalculateResults(matches: seq<MC.Match>) returns (results: seq<FinalStanding>)
    ensures results == FinalResults(matches)
  {
    var teamScores: seq<TeamResult> := [];
    var i := 0;
    while i < |matches|
      invariant 0 <= i <= |matches|
      invariant teamScores == Aggregate(Contributions(matches[..i]))
    {
      var teams := matches[i].teams;
      var j := 0;
      assert Contributions(matches[..i]) + TeamContributions(teams[..0]) == Contributions(matches[..i]);
      while j < |teams|
        invariant 0 <= j <= |teams|
        invariant teamScores == Aggregate(Contributions(matches[..i]) + TeamContributions(teams[..j]))
      {
        var team := teams[j];
        var c := Contribution(team.teamName, team.kills.GetOr(0), team.points);
        var current := Lookup(teamScores, team.teamName);
        teamScores := Store(teamScores, Add(current, c));
        InnerStep(Contributions(matches[..i]), teams, j);
        j := j + 1;
      }
      assert teams[..j] == teams;
      OuterStep(matches, i);
      i := i + 1;
    }
    assert matches[..i] == matches;
    results := SortDesc(WithAverages(ObjectValues(teamScores)), ByTotalPoints);
  }
}
