/** The accumulation both standings pages perform: one pass over every team
    entry of every match, keyed by team name, adding the entry's kills and
    points and counting one more match. The pages differ in what they read as
    kills and points, in the order they enumerate the keyed totals, and in how
    they sort them; those parts live with each page. */
module Standings {
  import opened Common

  /** What one team entry of one match adds to that team's totals. */
  datatype Contribution = Contribution(teamName: string, kills: int, points: int)

  /** A team's running totals: `{ teamName, totalKills, totalPoints, matches }`. */
  datatype TeamResult = TeamResult(teamName: string, totalKills: int, totalPoints: int, matches: nat)

  function Zero(name: string): TeamResult {
    TeamResult(name, 0, 0, 0)
  }

  /** `totalKills + kills, totalPoints + points, matches + 1`. */
  function Add(r: TeamResult, c: Contribution): TeamResult {
    TeamResult(r.teamName, r.totalKills + c.kills, r.totalPoints + c.points, r.matches + 1)
  }

  /** The totals held for `name`, or the zero record when there are none yet
      (`teamStats.get(name) || { ..., 0, 0, 0 }`). */
  function Lookup(stats: seq<TeamResult>, name: string): TeamResult {
    if stats == [] then Zero(name)
    else if stats[0].teamName == name then stats[0]
    else Lookup(stats[1..], name)
  }

  /** `teamStats.set(r.teamName, r)`: the record replaces the one held for its
      name where it stands, or is appended when the name is new. */
  function Store(stats: seq<TeamResult>, r: TeamResult): seq<TeamResult> {
    if stats == [] then [r]
    else if stats[0].teamName == r.teamName then [r] + stats[1..]
    else [stats[0]] + Store(stats[1..], r)
  }

  /** Records one contribution: reads the team's totals, adds to them and
      stores them back. */
  function Upsert(stats: seq<TeamResult>, c: Contribution): seq<TeamResult> {
    Store(stats, Add(Lookup(stats, c.teamName), c))
  }

  /** The table after recording every contribution, first to last. */
  function Aggregate(cs: seq<Contribution>): seq<TeamResult> {
    if cs == [] then [] else Upsert(Aggregate(cs[..|cs| - 1]), cs[|cs| - 1])
  }

  lemma AggregateSnoc(cs: seq<Contribution>, c: Contribution)
    ensures Aggregate(cs + [c]) == Upsert(Aggregate(cs), c)
  {
    assert (cs + [c])[..|cs|] == cs;
  }

  /** `total / count` as an exact quotient; `None` where the count is 0 and
      the page would divide by zero. */
  function Average(total: int, count: nat): (r: Option<real>)
    ensures r.Some? <==> count > 0
    ensures r.Some? ==> r.value * count as real == total as real
  {
    if count == 0 then None else Some(total as real / count as real)
  }

  function KillsOf(c: Contribution): int { c.kills }

  function PointsOf(c: Contribution): int { c.points }

  function HasName(name: string): Contribution -> bool {
    (c: Contribution) => c.teamName == name
  }

  /** The contributions bearing `name`, in order. */
  function Named(cs: seq<Contribution>, name: string): seq<Contribution> {
    FilterBy(cs, HasName(name))
  }

  /** The reference totals of `name`: the number of entries bearing that name
      and the sums of their kills and of their points. */
  function Tally(cs: seq<Contribution>, name: string): TeamResult {
    var own := Named(cs, name);
    TeamResult(name, Sum(own, KillsOf), Sum(own, PointsOf), |own|)
  }

  function NamesOf(cs: seq<Contribution>): set<string> {
    set c | c in cs :: c.teamName
  }

  predicate NamesDistinct(rs: seq<TeamResult>) {
    forall i, j :: 0 <= i < j < |rs| ==> rs[i].teamName != rs[j].teamName
  }

  lemma {:induction false} LookupSpec(stats: seq<TeamResult>, name: string)
    ensures Lookup(stats, name).teamName == name
    ensures Lookup(stats, name) in stats || (Lookup(stats, name) == Zero(name) && forall r :: r in stats ==> r.teamName != name)
    ensures NamesDistinct(stats) ==> forall r :: r in stats && r.teamName == name ==> r == Lookup(stats, name)
  {
    if stats != [] && stats[0].teamName != name {
      LookupSpec(stats[1..], name);
      assert stats == [stats[0]] + stats[1..];
      if NamesDistinct(stats) {
        assert NamesDistinct(stats[1..]) by {
          forall i, j | 0 <= i < j < |stats[1..]| ensures stats[1..][i].teamName != stats[1..][j].teamName {
            assert stats[1..][i] == stats[i + 1] && stats[1..][j] == stats[j + 1];
          }
        }
      }
    } else if stats != [] && NamesDistinct(stats) {
      forall r | r in stats && r.teamName == name ensures r == stats[0] {
        var k :| 0 <= k < |stats| && stats[k] == r;
        if k > 0 {
          assert stats[0].teamName == stats[k].teamName;
        }
      }
    }
  }

  lemma NamesDistinctCons(x: TeamResult, t: seq<TeamResult>)
    ensures NamesDistinct([x] + t) <==> NamesDistinct(t) && forall y :: y in t ==> y.teamName != x.teamName
  {
    var s := [x] + t;
    if NamesDistinct(s) {
      forall i, j | 0 <= i < j < |t| ensures t[i].teamName != t[j].teamName {
        assert t[i] == s[i + 1] && t[j] == s[j + 1];
      }
      forall y | y in t ensures y.teamName != x.teamName {
        var k :| 0 <= k < |t| && t[k] == y;
        assert s[0] == x && s[k + 1] == y;
      }
    }
    if NamesDistinct(t) && forall y :: y in t ==> y.teamName != x.teamName {
      forall i, j | 0 <= i < j < |s| ensures s[i].teamName != s[j].teamName {
        assert s[j] == t[j - 1] && s[j] in t;
        if i > 0 {
          assert s[i] == t[i - 1] && t[i - 1].teamName != t[j - 1].teamName;
        } else {
          assert s[i] == x;
        }
      }
    }
  }

  lemma {:induction false} StoreSpec(stats: seq<TeamResult>, r: TeamResult)
    requires NamesDistinct(stats)
    ensures NamesDistinct(Store(stats, r))
    ensures forall x :: x in Store(stats, r) <==> x == r || (x in stats && x.teamName != r.teamName)
  {
    if stats != [] {
      var tail := stats[1..];
      assert stats == [stats[0]] + tail;
      NamesDistinctCons(stats[0], tail);
      if stats[0].teamName == r.teamName {
        NamesDistinctCons(r, tail);
      } else {
        StoreSpec(tail, r);
        NamesDistinctCons(stats[0], Store(tail, r));
      }
    }
  }

  lemma UpsertSpec(stats: seq<TeamResult>, c: Contribution)
    requires NamesDistinct(stats)
    ensures NamesDistinct(Upsert(stats, c))
    ensures forall r :: r in Upsert(stats, c) <==>
              (r.teamName == c.teamName && r == Add(Lookup(stats, c.teamName), c))
              || (r in stats && r.teamName != c.teamName)
  {
    LookupSpec(stats, c.teamName);
    StoreSpec(stats, Add(Lookup(stats, c.teamName), c));
  }

  lemma NamesDistinctAt(a: seq<TeamResult>, x: nat, y: nat)
    requires NamesDistinct(a) && x < |a| && y < |a| && x != y
    ensures a[x].teamName != a[y].teamName
  {
    if x > y {
      assert a[y].teamName != a[x].teamName;
    }
  }

  /** Reordering a table with distinct names keeps the names distinct. */
  lemma NamesDistinctPermutation(a: seq<TeamResult>, b: seq<TeamResult>)
    requires NamesDistinct(a) && multiset(a) == multiset(b)
    ensures NamesDistinct(b)
  {
    forall i, j | 0 <= i < j < |b| ensures b[i].teamName != b[j].teamName {
      assert b[i] in multiset(a) && b[j] in multiset(a);
      var x :| 0 <= x < |a| && a[x] == b[i];
      var y :| 0 <= y < |a| && a[y] == b[j];
      forall k | 0 <= k < |a| && k != x ensures a[k] != a[x] {
        NamesDistinctAt(a, k, x);
      }
      OccursOnce(a, x);
      OccursTwice(b, i, j);
      assert b[i] != b[j];
      NamesDistinctAt(a, x, y);
    }
  }

  lemma TallyEmpty(cs: seq<Contribution>, name: string)
    requires name !in NamesOf(cs)
    ensures Tally(cs, name) == Zero(name)
  {
    forall x | x in cs ensures !HasName(name)(x) {
      assert x.teamName in NamesOf(cs);
    }
    FilterByNone(cs, HasName(name));
  }

  /** Recording one more contribution changes only its own team's reference totals. */
  lemma TallyStep(cs: seq<Contribution>, c: Contribution, name: string)
    ensures Tally(cs + [c], name) == if c.teamName == name then Add(Tally(cs, name), c) else Tally(cs, name)
  {
    FilterByConcat(cs, [c], HasName(name));
    var own := Named(cs, name);
    var last := FilterBy([c], HasName(name));
    assert Named(cs + [c], name) == own + last;
    if c.teamName == name {
      assert last == [c];
      var both := own + [c];
      assert both[..|both| - 1] == own;
      assert Sum(both, KillsOf) == Sum(own, KillsOf) + c.kills;
      assert Sum(both, PointsOf) == Sum(own, PointsOf) + c.points;
    } else {
      assert last == [];
      assert own + last == own;
    }
  }

  /** The table is right for `cs`: distinct names, and exactly the
      reference totals of every name that occurs. */
  ghost predicate TableOf(a: seq<TeamResult>, cs: seq<Contribution>) {
    NamesDistinct(a)
    && forall r :: r in a <==> r.teamName in NamesOf(cs) && r == Tally(cs, r.teamName)
  }

  lemma LookupIsTally(a: seq<TeamResult>, cs: seq<Contribution>, name: string)
    requires TableOf(a, cs)
    ensures Lookup(a, name) == Tally(cs, name)
  {
    LookupSpec(a, name);
    if name in NamesOf(cs) {
      assert Tally(cs, name) in a;
    } else {
      TallyEmpty(cs, name);
    }
  }

  lemma NamesOfSnoc(cs: seq<Contribution>, c: Contribution, n: string)
    ensures n in NamesOf(cs + [c]) <==> n in NamesOf(cs) || n == c.teamName
  {
    if n in NamesOf(cs + [c]) {
      var x :| x in cs + [c] && x.teamName == n;
    }
    if n in NamesOf(cs) {
      var x :| x in cs && x.teamName == n;
      assert x in cs + [c];
    }
    assert c in cs + [c];
  }

  lemma AggregateStepMember(cs: seq<Contribution>, c: Contribution, r: TeamResult)
    requires TableOf(Aggregate(cs), cs)
    ensures r in Aggregate(cs + [c]) <==> r.teamName in NamesOf(cs + [c]) && r == Tally(cs + [c], r.teamName)
  {
    var a := Aggregate(cs);
    AggregateSnoc(cs, c);
    UpsertSpec(a, c);
    LookupIsTally(a, cs, c.teamName);
    TallyStep(cs, c, r.teamName);
    NamesOfSnoc(cs, c, r.teamName);
  }

  lemma AggregateStep(cs: seq<Contribution>, c: Contribution)
    requires TableOf(Aggregate(cs), cs)
    ensures TableOf(Aggregate(cs + [c]), cs + [c])
  {
    AggregateSnoc(cs, c);
    UpsertSpec(Aggregate(cs), c);
    forall r ensures r in Aggregate(cs + [c]) <==> r.teamName in NamesOf(cs + [c]) && r == Tally(cs + [c], r.teamName) {
      AggregateStepMember(cs, c, r);
    }
  }

  /** The table holds exactly one record per team name that occurs, and that
      record is the team's reference totals. */
  lemma {:induction false} AggregateSpec(cs: seq<Contribution>)
    ensures NamesDistinct(Aggregate(cs))
    ensures forall r :: r in Aggregate(cs) <==> r.teamName in NamesOf(cs) && r == Tally(cs, r.teamName)
  {
    if cs != [] {
      var init := cs[..|cs| - 1];
      assert cs == init + [cs[|cs| - 1]];
      AggregateSpec(init);
      AggregateStep(init, cs[|cs| - 1]);
    }
  }

  /** Each produced record counts at least one match, so an average over it is defined. */
  lemma AggregateCountsPositive(cs: seq<Contribution>)
    ensures forall r :: r in Aggregate(cs) ==> r.matches >= 1
  {
    AggregateSpec(cs);
    forall r | r in Aggregate(cs) ensures r.matches >= 1 {
      var c :| c in cs && c.teamName == r.teamName;
      FilterByMembers(cs, HasName(r.teamName));
      assert c in Named(cs, r.teamName);
    }
  }

  /** There are as many records as distinct team names. */
  lemma AggregateSize(cs: seq<Contribution>)
    ensures |Aggregate(cs)| == |NamesOf(cs)|
  {
    AggregateSpec(cs);
    var a := Aggregate(cs);
    var ns := seq(|a|, i requires 0 <= i < |a| => a[i].teamName);
    assert Distinct(ns) by {
      forall i, j | 0 <= i < j < |ns| ensures ns[i] != ns[j] {
        NamesDistinctAt(a, i, j);
      }
    }
    SetSizeIffDistinct(ns);
    var names := set x | x in ns;
    forall n | n in NamesOf(cs) ensures n in names {
      assert Tally(cs, n) in a;
      var k :| 0 <= k < |a| && a[k] == Tally(cs, n);
      assert ns[k] == n;
    }
    forall n | n in names ensures n in NamesOf(cs) {
      var k :| 0 <= k < |ns| && ns[k] == n;
      assert a[k] in a;
    }
    assert names == NamesOf(cs);
  }

  /** The reference totals see only which entries there are, not their order. */
  lemma TallyPermutation(a: seq<Contribution>, b: seq<Contribution>, name: string)
    requires multiset(a) == multiset(b)
    ensures Tally(a, name) == Tally(b, name)
  {
    FilterByPermutation(a, b, HasName(name));
    SumPermutation(Named(a, name), Named(b, name), KillsOf);
    SumPermutation(Named(a, name), Named(b, name), PointsOf);
    assert |multiset(Named(a, name))| == |multiset(Named(b, name))|;
  }

  /** Reordering the contributions gives the same records (possibly listed in another order). */
  lemma AggregatePermutation(a: seq<Contribution>, b: seq<Contribution>)
    requires multiset(a) == multiset(b)
    ensures forall r :: r in Aggregate(a) <==> r in Aggregate(b)
  {
    AggregateSpec(a);
    AggregateSpec(b);
    assert NamesOf(a) == NamesOf(b) by {
      forall c ensures c in a <==> c in b {
        assert c in a <==> c in multiset(a);
        assert c in b <==> c in multiset(b);
      }
    }
    forall r ensures r in Aggregate(a) <==> r in Aggregate(b) {
      TallyPermutation(a, b, r.teamName);
    }
  }
}
