/** `Array.prototype.sort` with the comparators the pages pass it
    (`(a, b) => b.points - a.points`, or points and then kills). Since ES2019
    the sort is stable, so its result is fully determined: the stable
    insertion sort below, ordering by a key in descending lexicographic order. */
module Sorting {

  /** A sort key: compared on `major` first, then on `minor`. */
  datatype Rank = Rank(major: int, minor: int)

  /** `a` goes strictly before `b` (the comparator returns a negative number). */
  predicate Ahead(a: Rank, b: Rank) {
    a.major > b.major || (a.major == b.major && a.minor > b.minor)
  }

  /** No element is ranked strictly ahead of one placed before it. */
  predicate SortedBy<T>(s: seq<T>, key: T -> Rank) {
    forall i, j :: 0 <= i < j < |s| ==> !Ahead(key(s[j]), key(s[i]))
  }

  /** Puts `x` in front of the first element it is strictly ahead of, so that
      it lands after every element it ties with. */
  function Insert<T>(x: T, s: seq<T>, key: T -> Rank): (r: seq<T>)
    ensures multiset(r) == multiset(s) + multiset{x}
    ensures |r| == |s| + 1
  {
    if s == [] then [x]
    else if Ahead(key(x), key(s[0])) then [x] + s
    else
      assert s == [s[0]] + s[1..];
      [s[0]] + Insert(x, s[1..], key)
  }

  lemma {:induction false} InsertSorted<T>(x: T, s: seq<T>, key: T -> Rank)
    requires SortedBy(s, key)
    ensures SortedBy(Insert(x, s, key), key)
  {
    if s != [] && !Ahead(key(x), key(s[0])) {
      var t := Insert(x, s[1..], key);
      InsertSorted(x, s[1..], key);
      var r := [s[0]] + t;
      forall i, j | 0 <= i < j < |r| ensures !Ahead(key(r[j]), key(r[i])) {
        if i == 0 {
          assert r[j] in multiset(t);
          assert r[j] in multiset(s[1..]) + multiset{x};
          if r[j] != x {
            var k :| 0 <= k < |s[1..]| && s[1..][k] == r[j];
            assert s[k + 1] == r[j];
          }
        } else {
          assert r[i] == t[i - 1] && r[j] == t[j - 1];
        }
      }
    }
  }

  /** The stable sort, descending by `key`: each element in turn is inserted
      into the sorted list of those before it. */
  function SortDesc<T>(s: seq<T>, key: T -> Rank): (r: seq<T>)
    ensures multiset(r) == multiset(s)
    ensures |r| == |s|
  {
    if s == [] then []
    else
      assert s == s[..|s| - 1] + [s[|s| - 1]];
      Insert(s[|s| - 1], SortDesc(s[..|s| - 1], key), key)
  }

  /** The sort returns a permutation of its input, in order. */
  lemma {:induction false} SortDescSorted<T>(s: seq<T>, key: T -> Rank)
    ensures SortedBy(SortDesc(s, key), key)
    ensures multiset(SortDesc(s, key)) == multiset(s)
  {
    if s != [] {
      SortDescSorted(s[..|s| - 1], key);
      InsertSorted(s[|s| - 1], SortDesc(s[..|s| - 1], key), key);
    }
  }

  /** An element ahead of none of a list goes to its end. */
  lemma {:induction false} InsertBehindAll<T>(x: T, s: seq<T>, key: T -> Rank)
    requires forall k :: 0 <= k < |s| ==> !Ahead(key(x), key(s[k]))
    ensures Insert(x, s, key) == s + [x]
  {
    if s != [] {
      assert !Ahead(key(x), key(s[0]));
      InsertBehindAll(x, s[1..], key);
      assert s == [s[0]] + s[1..];
    }
  }

  /** With every key equal the stable sort changes nothing. */
  lemma {:induction false} SortDescAllTied<T>(s: seq<T>, key: T -> Rank)
    requires forall i, j :: 0 <= i < |s| && 0 <= j < |s| ==> key(s[i]) == key(s[j])
    ensures SortDesc(s, key) == s
  {
    if s != [] {
      var init := s[..|s| - 1];
      SortDescAllTied(init, key);
      forall k | 0 <= k < |init| ensures !Ahead(key(s[|s| - 1]), key(init[k])) {
        assert key(s[|s| - 1]) == key(s[k]);
      }
      InsertBehindAll(s[|s| - 1], init, key);
      assert init + [s[|s| - 1]] == s;
    }
  }

  /** Every element of the sorted list came from the input, and conversely. */
  lemma SortDescMembers<T>(s: seq<T>, key: T -> Rank)
    ensures forall x :: x in SortDesc(s, key) <==> x in s
  {
    var r := SortDesc(s, key);
    assert multiset(r) == multiset(s);
    forall x ensures x in r <==> x in s {
      assert x in r <==> x in multiset(r);
      assert x in s <==> x in multiset(s);
    }
  }
}

/** Stability of the sort: the elements sharing a key leave it in the order
    they entered it. */
module StableSort {
  import opened Common
  import opened Sorting

  /** A key ahead of the head of a sorted list is ahead of all of it. */
  lemma AheadOfSorted<T>(x: T, t: seq<T>, key: T -> Rank)
    requires t != [] && SortedBy(t, key) && Ahead(key(x), key(t[0]))
    ensures forall j :: 0 <= j < |t| ==> key(t[j]) != key(x)
  {
    forall j | 0 <= j < |t| ensures key(t[j]) != key(x) {
      if j > 0 {
        assert !Ahead(key(t[j]), key(t[0]));
      }
    }
  }

  /** The tail of a sorted list is sorted. */
  lemma SortedTail<T>(t: seq<T>, key: T -> Rank)
    requires t != [] && SortedBy(t, key)
    ensures SortedBy(t[1..], key)
  {
    var rest := t[1..];
    forall i, j | 0 <= i < j < |rest| ensures !Ahead(key(rest[j]), key(rest[i])) {
      assert rest[i] == t[i + 1] && rest[j] == t[j + 1];
    }
  }

  /** No element of a sorted list headed behind `x` has the key of `x`. */
  lemma NoneOfKeyBehind<T>(x: T, t: seq<T>, key: T -> Rank, p: T -> bool, k: Rank)
    requires t != [] && SortedBy(t, key) && Ahead(key(x), key(t[0]))
    requires forall y :: p(y) <==> key(y) == k
    requires p(x)
    ensures FilterBy(t, p) == []
  {
    AheadOfSorted(x, t, key);
    forall y | y in t ensures !p(y) {
      var j :| 0 <= j < |t| && t[j] == y;
    }
    FilterByNone(t, p);
  }

  /** `x` goes in front: no element of the list shares its key. */
  lemma InsertStableAhead<T>(x: T, t: seq<T>, key: T -> Rank, p: T -> bool, k: Rank)
    requires t != [] && SortedBy(t, key) && Ahead(key(x), key(t[0]))
    requires forall y :: p(y) <==> key(y) == k
    ensures FilterBy(Insert(x, t, key), p) == FilterBy(t, p) + (if p(x) then [x] else [])
  {
    assert Insert(x, t, key) == [x] + t;
    FilterByCons(x, t, p);
    if p(x) {
      NoneOfKeyBehind(x, t, key, p, k);
      assert [x] + [] == [] + [x];
    } else {
      assert FilterBy(t, p) + [] == FilterBy(t, p);
    }
  }

  /** Filtering a list headed by `h` whose tail gained `tail` at the end. */
  lemma FilterHeadStep<T>(h: T, rest: seq<T>, inserted: seq<T>, tail: seq<T>, p: T -> bool)
    requires FilterBy(inserted, p) == FilterBy(rest, p) + tail
    ensures FilterBy([h] + inserted, p) == FilterBy([h] + rest, p) + tail
  {
    var one := FilterBy([h], p);
    calc {
      FilterBy([h] + inserted, p);
    == { FilterByConcat([h], inserted, p); }
      one + FilterBy(inserted, p);
    ==
      one + (FilterBy(rest, p) + tail);
    ==
      (one + FilterBy(rest, p)) + tail;
    == { FilterByConcat([h], rest, p); }
      FilterBy([h] + rest, p) + tail;
    }
  }

  /** `x` goes behind the head `h`: the head's contribution comes first. */
  lemma InsertStableBehind<T>(x: T, h: T, rest: seq<T>, key: T -> Rank, p: T -> bool)
    requires !Ahead(key(x), key(h))
    requires FilterBy(Insert(x, rest, key), p) == FilterBy(rest, p) + (if p(x) then [x] else [])
    ensures FilterBy(Insert(x, [h] + rest, key), p) == FilterBy([h] + rest, p) + (if p(x) then [x] else [])
  {
    assert ([h] + rest)[1..] == rest;
    assert Insert(x, [h] + rest, key) == [h] + Insert(x, rest, key);
    FilterHeadStep(h, rest, Insert(x, rest, key), if p(x) then [x] else [], p);
  }

  /** Into the empty list. */
  lemma InsertStableEmpty<T>(x: T, key: T -> Rank, p: T -> bool)
    ensures FilterBy(Insert(x, [], key), p) == FilterBy([], p) + (if p(x) then [x] else [])
  {
    assert Insert(x, [], key) == [x] + [];
    FilterByCons(x, [], p);
  }

  /** Inserting into a sorted list puts `x` after every element of its own
      key: the elements of one key keep their order, `x` last. */
  lemma {:induction false} InsertStable<T>(x: T, t: seq<T>, key: T -> Rank, p: T -> bool, k: Rank)
    requires SortedBy(t, key)
    requires forall y :: p(y) <==> key(y) == k
    ensures FilterBy(Insert(x, t, key), p) == FilterBy(t, p) + (if p(x) then [x] else [])
  {
    if t == [] {
      InsertStableEmpty(x, key, p);
    } else if Ahead(key(x), key(t[0])) {
      InsertStableAhead(x, t, key, p, k);
    } else {
      var h, rest := t[0], t[1..];
      assert t == [h] + rest;
      SortedTail(t, key);
      InsertStable(x, rest, key, p, k);
      InsertStableBehind(x, h, rest, key, p);
    }
  }

  /** The sort is stable: the elements of any one key come out in the order
      they went in. */
  lemma {:induction false} SortDescStable<T>(s: seq<T>, key: T -> Rank, p: T -> bool, k: Rank)
    requires forall y :: p(y) <==> key(y) == k
    ensures FilterBy(SortDesc(s, key), p) == FilterBy(s, p)
  {
    if s != [] {
      var init := s[..|s| - 1];
      var x := s[|s| - 1];
      assert s == init + [x];
      SortDescStable(init, key, p, k);
      SortDescSorted(init, key);
      InsertStable(x, SortDesc(init, key), key, p, k);
      FilterByConcat(init, [x], p);
      FilterByCons(x, [], p);
    }
  }
}
