/** The stable sort every engine relies on, specified by a relation `le` ("may come before"). */
module Sorting {
  ghost predicate TotalPreorder<T(!new)>(le: (T, T) -> bool) {
    && (forall x, y :: le(x, y) || le(y, x))
    && (forall x, y, z :: le(x, y) && le(y, z) ==> le(x, z))
  }

  ghost predicate Sorted<T>(xs: seq<T>, le: (T, T) -> bool) {
    forall i, j :: 0 <= i < j < |xs| ==> le(xs[i], xs[j])
  }

  function Insert<T>(x: T, xs: seq<T>, le: (T, T) -> bool): (r: seq<T>)
    ensures multiset(r) == multiset{x} + multiset(xs)
  {
    if |xs| == 0 || le(x, xs[0]) then
      [x] + xs
    else
      assert xs == [xs[0]] + xs[1..];
      [xs[0]] + Insert(x, xs[1..], le)
  }

  /** Sorts by `le`; elements that `le` does not separate keep their input order. */
  function Sort<T>(xs: seq<T>, le: (T, T) -> bool): (r: seq<T>)
    ensures multiset(r) == multiset(xs)
  {
    if |xs| == 0 then
      []
    else
      assert xs == [xs[0]] + xs[1..];
      Insert(xs[0], Sort(xs[1..], le), le)
  }

  function Filter<T>(xs: seq<T>, p: T -> bool): (r: seq<T>)
    ensures forall x :: x in r ==> x in xs && p(x)
    ensures forall x :: x in xs && p(x) ==> x in r
    ensures |r| <= |xs|
  {
    if |xs| == 0 then []
    else if p(xs[0]) then [xs[0]] + Filter(xs[1..], p)
    else Filter(xs[1..], p)
  }

  lemma {:induction false} InsertSorted<T(!new)>(x: T, xs: seq<T>, le: (T, T) -> bool)
    requires TotalPreorder(le) && Sorted(xs, le)
    ensures Sorted(Insert(x, xs, le), le)
  {
    if |xs| == 0 || le(x, xs[0]) {
    } else {
      InsertSorted(x, xs[1..], le);
      var rest := Insert(x, xs[1..], le);
      forall k | 0 <= k < |rest| ensures le(xs[0], rest[k]) {
        assert rest[k] in multiset(rest);
        assert rest[k] == x || rest[k] in xs[1..];
      }
    }
  }

  lemma {:induction false} SortSorted<T(!new)>(xs: seq<T>, le: (T, T) -> bool)
    requires TotalPreorder(le)
    ensures Sorted(Sort(xs, le), le)
  {
    if |xs| > 0 {
      SortSorted(xs[1..], le);
      InsertSorted(xs[0], Sort(xs[1..], le), le);
    }
  }

  /** Membership survives sorting. */
  lemma SortMembers<T>(xs: seq<T>, le: (T, T) -> bool)
    ensures |Sort(xs, le)| == |xs|
    ensures forall x :: x in Sort(xs, le) ==> x in xs
    ensures forall x :: x in xs ==> x in Sort(xs, le)
  {
    var r := Sort(xs, le);
    assert |multiset(r)| == |multiset(xs)|;
    forall x | x in r ensures x in xs {
      assert x in multiset(r);
    }
    forall x | x in xs ensures x in r {
      assert x in multiset(xs);
    }
  }

  lemma {:induction false} InsertStable<T>(x: T, xs: seq<T>, le: (T, T) -> bool, p: T -> bool)
    requires forall y, z :: y in [x] + xs && z in [x] + xs && p(y) && p(z) ==> le(y, z)
    ensures Filter(Insert(x, xs, le), p) == Filter([x] + xs, p)
  {
    assert ([x] + xs)[1..] == xs;
    if |xs| == 0 || le(x, xs[0]) {
    } else {
      assert xs[0] in [x] + xs && x in [x] + xs;
      forall y | y in [x] + xs[1..] ensures y in [x] + xs {}
      InsertStable(x, xs[1..], le, p);
      assert ([x] + xs[1..])[1..] == xs[1..];
      assert ([xs[0]] + Insert(x, xs[1..], le))[1..] == Insert(x, xs[1..], le);
    }
  }

  /** Stability: any class of elements that `le` does not separate appears in its input order. */
  lemma {:induction false} SortStable<T>(xs: seq<T>, le: (T, T) -> bool, p: T -> bool)
    requires forall y, z :: y in xs && z in xs && p(y) && p(z) ==> le(y, z)
    ensures Filter(Sort(xs, le), p) == Filter(xs, p)
  {
    if |xs| > 0 {
      var rest := Sort(xs[1..], le);
      SortMembers(xs[1..], le);
      SortStable(xs[1..], le, p);
      forall y | y in [xs[0]] + rest ensures y in xs {}
      InsertStable(xs[0], rest, le, p);
      assert ([xs[0]] + rest)[1..] == rest;
    }
  }

  /** `xs` without its first `x`. */
  function Without<T(==)>(x: T, xs: seq<T>): (r: seq<T>)
    requires x in xs
    ensures multiset(xs) == multiset(r) + multiset{x}
    ensures |r| == |xs| - 1
  {
    assert xs == [xs[0]] + xs[1..];
    if xs[0] == x then xs[1..] else [xs[0]] + Without(x, xs[1..])
  }

  lemma {:induction false} FilterWithout<T>(x: T, xs: seq<T>, p: T -> bool)
    requires x in xs
    ensures |Filter(xs, p)| == |Filter(Without(x, xs), p)| + if p(x) then 1 else 0
  {
    if xs[0] != x {
      FilterWithout(x, xs[1..], p);
      assert ([xs[0]] + Without(x, xs[1..]))[1..] == Without(x, xs[1..]);
    }
  }

  lemma SubMultisetTail<T>(xs: seq<T>, ys: seq<T>)
    requires |xs| > 0 && multiset(xs) <= multiset(ys)
    ensures xs[0] in ys && multiset(xs[1..]) <= multiset(Without(xs[0], ys))
    ensures multiset(xs) == multiset(ys) ==> multiset(xs[1..]) == multiset(Without(xs[0], ys))
  {
    assert xs == [xs[0]] + xs[1..];
    assert xs[0] in multiset(xs) && xs[0] in multiset(ys);
    assert multiset(xs[1..]) == multiset(xs) - multiset{xs[0]};
    assert multiset(Without(xs[0], ys)) == multiset(ys) - multiset{xs[0]};
  }

  /** Adding elements, in any places, never lowers how many satisfy `p`. */
  lemma {:induction false} FilterCountMonotone<T>(xs: seq<T>, ys: seq<T>, p: T -> bool)
    requires multiset(xs) <= multiset(ys)
    ensures |Filter(xs, p)| <= |Filter(ys, p)|
  {
    if |xs| > 0 {
      SubMultisetTail(xs, ys);
      FilterCountMonotone(xs[1..], Without(xs[0], ys), p);
      FilterWithout(xs[0], ys, p);
    }
  }

  lemma SameMultisetSameElements<T>(xs: seq<T>, ys: seq<T>)
    requires multiset(xs) == multiset(ys)
    ensures |xs| == |ys|
    ensures forall x :: x in xs ==> x in ys
  {
    assert |xs| == |multiset(xs)| && |ys| == |multiset(ys)|;
    forall x | x in xs ensures x in ys {
      assert x in multiset(xs);
    }
  }

  /** A sorted arrangement is unique when `le` separates all distinct elements. */
  lemma {:induction false} SortedUnique<T>(xs: seq<T>, ys: seq<T>, le: (T, T) -> bool)
    requires Sorted(xs, le) && Sorted(ys, le) && multiset(xs) == multiset(ys)
    requires forall x, y :: x in xs && y in xs && le(x, y) && le(y, x) ==> x == y
    ensures xs == ys
  {
    SameMultisetSameElements(xs, ys);
    SameMultisetSameElements(ys, xs);
    if |xs| > 0 {
      assert xs[0] in ys && ys[0] in xs;
      assert xs[0] == ys[0];
      SubMultisetTail(xs, ys);
      SortedUnique(xs[1..], ys[1..], le);
      assert xs == [xs[0]] + xs[1..] && ys == [ys[0]] + ys[1..];
    }
  }

  /** Whatever of a sorted list is not among the first `n` comes after all of these. */
  lemma FrontOfSorted<T(!new)>(sorted: seq<T>, n: nat, le: (T, T) -> bool)
    requires Sorted(sorted, le) && n <= |sorted|
    ensures forall x, y | x in sorted[..n] && y in sorted && y !in sorted[..n] :: le(x, y)
  {
    var front := sorted[..n];
    assert forall m | 0 <= m < n :: front[m] == sorted[m] && sorted[m] in front;
    forall x, y | x in front && y in sorted && y !in front ensures le(x, y) {
      var i :| 0 <= i < n && sorted[i] == x;
      var k :| 0 <= k < |sorted| && sorted[k] == y;
      assert k >= n;
    }
  }

  lemma RepeatedElement<T>(s: seq<T>, i: nat, j: nat)
    requires i < j < |s| && s[i] == s[j]
    ensures multiset(s)[s[i]] >= 2
  {
    assert s == s[..i] + [s[i]] + s[i + 1..j] + [s[j]] + s[j + 1..];
  }

  lemma {:induction false} FilterAppend<T>(xs: seq<T>, x: T, p: T -> bool)
    ensures Filter(xs + [x], p) == Filter(xs, p) + if p(x) then [x] else []
  {
    if xs == [] {
      assert xs + [x] == [x];
    } else {
      assert (xs + [x])[1..] == xs[1..] + [x];
      FilterAppend(xs[1..], x, p);
    }
  }
}
