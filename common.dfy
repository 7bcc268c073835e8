/** Small building blocks shared by every page model: optional values, results
    of handlers that can reject their input, the two match kinds, and the
    array idioms the pages use (`Math.max(0, x)`, index filters, `Array(n).fill`). */
module Common {

  /** A value that may be missing: an unset form field, a `find` that found
      nothing, a `NaN` out of `parseInt`. */
  datatype Option<+T> = None | Some(value: T) {
    function GetOr(default: T): T {
      match this
      case Some(v) => v
      case None => default
    }
  }

  /** The outcome of a handler that may refuse its input (an `alert` and an early `return`). */
  datatype Result<+T, +E> = Ok(value: T) | Err(error: E)

  /** `'semifinal' | 'final'`. */
  datatype MatchKind = Semifinal | Final

  /** `Math.max(0, x)`. */
  function Max0(x: int): (r: nat)
    ensures r >= x
    ensures r == x || r == 0
  {
    if x < 0 then 0 else x
  }

  /** `Math.min(x, y)`. */
  function Min(x: int, y: int): (r: int)
    ensures r <= x && r <= y
    ensures r == x || r == y
  {
    if x <= y then x else y
  }

  /** `s.filter((_, idx) => idx !== i)`: every element whose index is not `i`. */
  function RemoveAt<T>(s: seq<T>, i: int): (r: seq<T>)
    ensures |r| == if 0 <= i < |s| then |s| - 1 else |s|
    ensures forall k :: 0 <= k < |r| ==> r[k] == if 0 <= i <= k then s[k + 1] else s[k]
  {
    if 0 <= i < |s| then s[..i] + s[i + 1..] else s
  }

  /** `s.filter(p)`: the elements satisfying `p`, in their original order. */
  function FilterBy<T>(s: seq<T>, p: T -> bool): (r: seq<T>)
    ensures |r| <= |s|
    ensures multiset(r) <= multiset(s)
  {
    if s == [] then []
    else
      assert s == [s[0]] + s[1..];
      if p(s[0]) then [s[0]] + FilterBy(s[1..], p)
      else FilterBy(s[1..], p)
  }

  /** The filter keeps exactly the elements satisfying `p`. */
  lemma {:induction false} FilterByMembers<T>(s: seq<T>, p: T -> bool)
    ensures forall x :: x in FilterBy(s, p) ==> x in s && p(x)
    ensures forall x :: x in s && p(x) ==> x in FilterBy(s, p)
  {
    if s != [] {
      FilterByMembers(s[1..], p);
      assert s == [s[0]] + s[1..];
    }
  }

  lemma FilterByCons<T>(x: T, rest: seq<T>, p: T -> bool)
    ensures FilterBy([x] + rest, p) == if p(x) then [x] + FilterBy(rest, p) else FilterBy(rest, p)
  {
    assert ([x] + rest)[1..] == rest;
  }

  lemma {:induction false} FilterByAll<T>(s: seq<T>, p: T -> bool)
    requires forall x :: x in s ==> p(x)
    ensures FilterBy(s, p) == s
  {
    if s != [] {
      FilterByAll(s[1..], p);
    }
  }

  lemma {:induction false} FilterByNone<T>(s: seq<T>, p: T -> bool)
    requires forall x :: x in s ==> !p(x)
    ensures FilterBy(s, p) == []
  {
    if s != [] {
      assert s[0] in s;
      FilterByNone(s[1..], p);
    }
  }

  lemma {:induction false} FilterByConcat<T>(a: seq<T>, b: seq<T>, p: T -> bool)
    ensures FilterBy(a + b, p) == FilterBy(a, p) + FilterBy(b, p)
  {
    if a == [] {
      assert a + b == b;
    } else {
      var x, rest := a[0], a[1..];
      assert a == [x] + rest;
      assert a + b == [x] + (rest + b);
      FilterByConcat(rest, b, p);
      if p(x) {
        calc {
          FilterBy(a + b, p);
        == { FilterByCons(x, rest + b, p); }
          [x] + FilterBy(rest + b, p);
        ==
          [x] + (FilterBy(rest, p) + FilterBy(b, p));
        ==
          ([x] + FilterBy(rest, p)) + FilterBy(b, p);
        == { FilterByCons(x, rest, p); }
          FilterBy(a, p) + FilterBy(b, p);
        }
      } else {
        FilterByCons(x, rest + b, p);
        FilterByCons(x, rest, p);
      }
    }
  }

  /** Filtering by `p` and by its negation splits `s` into two parts that
      together hold every element exactly as often as `s` does. */
  lemma {:induction false} FilterPartition<T>(s: seq<T>, p: T -> bool, q: T -> bool)
    requires forall x :: q(x) == !p(x)
    ensures multiset(FilterBy(s, p)) + multiset(FilterBy(s, q)) == multiset(s)
    ensures |FilterBy(s, p)| + |FilterBy(s, q)| == |s|
  {
    if s != [] {
      FilterPartition(s[1..], p, q);
      assert s == [s[0]] + s[1..];
    }
  }

  /** `Array(n).fill(x)`. */
  function Fill<T>(n: nat, x: T): (r: seq<T>)
    ensures |r| == n
    ensures forall k :: 0 <= k < n ==> r[k] == x
  {
    if n == 0 then [] else Fill(n - 1, x) + [x]
  }

  /** `Array.prototype.reverse`. */
  function Reverse<T>(s: seq<T>): (r: seq<T>)
    ensures |r| == |s|
    ensures forall k :: 0 <= k < |s| ==> r[k] == s[|s| - 1 - k]
  {
    if s == [] then [] else Reverse(s[1..]) + [s[0]]
  }

  lemma {:induction false} ReverseReverse<T>(s: seq<T>)
    ensures Reverse(Reverse(s)) == s
  {
    assert forall k :: 0 <= k < |s| ==> Reverse(Reverse(s))[k] == s[k];
  }

  lemma ReverseCons<T>(x: T, rest: seq<T>)
    ensures Reverse([x] + rest) == Reverse(rest) + [x]
  {
    assert ([x] + rest)[1..] == rest;
  }

  /** Filtering commutes with reversing. */
  lemma {:induction false} FilterByReverse<T>(s: seq<T>, p: T -> bool)
    ensures FilterBy(Reverse(s), p) == Reverse(FilterBy(s, p))
  {
    if s != [] {
      var x, rest := s[0], s[1..];
      assert s == [x] + rest;
      var t := FilterBy(rest, p);
      FilterByReverse(rest, p);
      ReverseCons(x, rest);
      FilterByConcat(Reverse(rest), [x], p);
      FilterByCons(x, [], p);
      assert [x] + [] == [x];
      FilterByCons(x, rest, p);
      if p(x) {
        ReverseCons(x, t);
      } else {
        assert Reverse(t) + [] == Reverse(t);
      }
    }
  }

  /** An element found at two indices occurs at least twice. */
  lemma OccursTwice<T>(s: seq<T>, i: nat, j: nat)
    requires i < j < |s|
    ensures s[i] == s[j] ==> multiset(s)[s[i]] >= 2
  {
    assert s == s[..i] + [s[i]] + s[i + 1..j] + [s[j]] + s[j + 1..];
  }

  /** An element found at one index only occurs once. */
  lemma OccursOnce<T>(s: seq<T>, x: nat)
    requires x < |s|
    requires forall k :: 0 <= k < |s| && k != x ==> s[k] != s[x]
    ensures multiset(s)[s[x]] == 1
  {
    assert s == s[..x] + [s[x]] + s[x + 1..];
    assert s[x] !in s[..x] by {
      forall k | 0 <= k < x ensures s[..x][k] != s[x] {
        assert s[..x][k] == s[k];
      }
    }
    var after := s[x + 1..];
    assert s[x] !in after by {
      forall k | 0 <= k < |after| ensures after[k] != s[x] {
        assert after[k] == s[x + 1 + k];
      }
    }
  }

  /** The elements of `s` are pairwise distinct. */
  predicate Distinct<T(==)>(s: seq<T>) {
    forall i, j :: 0 <= i < j < |s| ==> s[i] != s[j]
  }

  /** `new Set(s).size === s.length` holds exactly when `s` has no repeated element. */
  lemma {:induction false} SetSizeIffDistinct<T>(s: seq<T>)
    ensures |(set x | x in s)| <= |s|
    ensures |(set x | x in s)| == |s| <==> Distinct(s)
  {
    if s != [] {
      var init := s[..|s| - 1];
      var last := s[|s| - 1];
      SetSizeIffDistinct(init);
      assert s == init + [last];
      assert (set x | x in s) == (set x | x in init) + {last};
      if last in init {
        assert (set x | x in s) == (set x | x in init);
        var k :| 0 <= k < |init| && init[k] == last;
        assert s[k] == s[|s| - 1];
      } else {
        assert |(set x | x in s)| == |(set x | x in init)| + 1;
        if Distinct(init) {
          assert Distinct(s) by {
            forall i, j | 0 <= i < j < |s| ensures s[i] != s[j] {
              if j == |s| - 1 {
                assert s[i] == init[i];
              } else {
                assert s[i] == init[i] && s[j] == init[j];
              }
            }
          }
        } else {
          var i, j :| 0 <= i < j < |init| && init[i] == init[j];
          assert s[i] == s[j];
        }
      }
    }
  }

  /** Filtering keeps each element exactly as often as it occurs, or drops it entirely. */
  lemma {:induction false} FilterByCount<T>(s: seq<T>, p: T -> bool, x: T)
    ensures multiset(FilterBy(s, p))[x] == if p(x) then multiset(s)[x] else 0
  {
    if s != [] {
      var t := FilterBy(s[1..], p);
      FilterByCount(s[1..], p, x);
      assert s == [s[0]] + s[1..];
      assert multiset(s) == multiset{s[0]} + multiset(s[1..]);
      FilterByCons(s[0], s[1..], p);
      if p(s[0]) {
        assert multiset(FilterBy(s, p)) == multiset{s[0]} + multiset(t);
      }
    }
  }

  /** A filter sees only which elements there are, not their order. */
  lemma FilterByPermutation<T>(a: seq<T>, b: seq<T>, p: T -> bool)
    requires multiset(a) == multiset(b)
    ensures multiset(FilterBy(a, p)) == multiset(FilterBy(b, p))
  {
    forall x ensures multiset(FilterBy(a, p))[x] == multiset(FilterBy(b, p))[x] {
      FilterByCount(a, p, x);
      FilterByCount(b, p, x);
    }
  }

  /** The sum of `f` over `s`. */
  function Sum<T>(s: seq<T>, f: T -> int): int {
    if s == [] then 0 else Sum(s[..|s| - 1], f) + f(s[|s| - 1])
  }

  lemma {:induction false} SumConcat<T>(a: seq<T>, b: seq<T>, f: T -> int)
    ensures Sum(a + b, f) == Sum(a, f) + Sum(b, f)
  {
    if b == [] {
      assert a + b == a;
    } else {
      assert (a + b)[..|a + b| - 1] == a + b[..|b| - 1];
      SumConcat(a, b[..|b| - 1], f);
    }
  }

  /** One occurrence of `x` at index `k` of `b`, taken out. */
  lemma SplitAt<T>(b: seq<T>, k: nat)
    requires k < |b|
    ensures b == b[..k] + [b[k]] + b[k + 1..]
    ensures multiset(b[..k] + b[k + 1..]) == multiset(b) - multiset{b[k]}
  {
    assert b == b[..k] + [b[k]] + b[k + 1..];
  }

  /** The first element of `a` occurs somewhere in a permutation `b` of it,
      and the rests are permutations of each other. */
  lemma PermutationStep<T>(a: seq<T>, b: seq<T>) returns (k: nat)
    requires multiset(a) == multiset(b) && a != []
    ensures k < |b| && b[k] == a[0]
    ensures multiset(a[1..]) == multiset(b[..k] + b[k + 1..])
  {
    assert a[0] in multiset(b);
    k :| 0 <= k < |b| && b[k] == a[0];
    SplitAt(b, k);
    assert a == [a[0]] + a[1..];
  }

  lemma SumSplit<T>(b: seq<T>, k: nat, f: T -> int)
    requires k < |b|
    ensures Sum(b, f) == f(b[k]) + Sum(b[..k] + b[k + 1..], f)
  {
    SplitAt(b, k);
    SumConcat(b[..k] + [b[k]], b[k + 1..], f);
    SumConcat(b[..k], [b[k]], f);
    SumConcat(b[..k], b[k + 1..], f);
    assert Sum([b[k]], f) == f(b[k]) by {
      assert [b[k]][..0] == [];
    }
  }

  /** A sum does not depend on the order of its terms. */
  lemma {:induction false} SumPermutation<T>(a: seq<T>, b: seq<T>, f: T -> int)
    requires multiset(a) == multiset(b)
    ensures Sum(a, f) == Sum(b, f)
  {
    if a != [] {
      var k := PermutationStep(a, b);
      SumPermutation(a[1..], b[..k] + b[k + 1..], f);
      SumSplit(a, 0, f);
      SumSplit(b, k, f);
      assert a[..0] + a[1..] == a[1..];
    } else {
      assert b == [];
    }
  }

  /** `ms.flatMap(f)`. */
  function FlatMap<M, T>(ms: seq<M>, f: M -> seq<T>): seq<T> {
    if ms == [] then [] else FlatMap(ms[..|ms| - 1], f) + f(ms[|ms| - 1])
  }

  lemma {:induction false} FlatMapConcat<M, T>(a: seq<M>, b: seq<M>, f: M -> seq<T>)
    ensures FlatMap(a + b, f) == FlatMap(a, f) + FlatMap(b, f)
  {
    if b == [] {
      assert a + b == a;
    } else {
      assert (a + b)[..|a + b| - 1] == a + b[..|b| - 1];
      FlatMapConcat(a, b[..|b| - 1], f);
    }
  }

  /** Taking one element out of the outer list takes its part out of the
      flattened list. */
  lemma FlatMapSplit<M, T>(b: seq<M>, k: nat, f: M -> seq<T>)
    requires k < |b|
    ensures multiset(FlatMap(b, f)) == multiset(f(b[k])) + multiset(FlatMap(b[..k] + b[k + 1..], f))
  {
    SplitAt(b, k);
    FlatMapConcat(b[..k] + [b[k]], b[k + 1..], f);
    FlatMapConcat(b[..k], [b[k]], f);
    FlatMapConcat(b[..k], b[k + 1..], f);
    assert FlatMap([b[k]], f) == f(b[k]) by {
      assert [b[k]][..0] == [];
    }
  }

  /** Reordering the outer list reorders the flattened list and nothing more. */
  lemma {:induction false} FlatMapPermutation<M, T>(a: seq<M>, b: seq<M>, f: M -> seq<T>)
    requires multiset(a) == multiset(b)
    ensures multiset(FlatMap(a, f)) == multiset(FlatMap(b, f))
  {
    if a != [] {
      var k := PermutationStep(a, b);
      FlatMapPermutation(a[1..], b[..k] + b[k + 1..], f);
      FlatMapSplit(a, 0, f);
      FlatMapSplit(b, k, f);
      assert a[..0] + a[1..] == a[1..];
    } else {
      assert b == [];
    }
  }
}
