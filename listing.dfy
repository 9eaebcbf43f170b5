/**
 * The query shapes the API and the pages use: filter, sort by a key, and limit.
 * A descending sort is a sort on the negated key.
 */
module Listing {

  predicate SortedBy<T>(s: seq<T>, key: T -> int) {
    forall i, j :: 0 <= i < j < |s| ==> key(s[i]) <= key(s[j])
  }

  /** The elements of `s` that satisfy `p`, in their original order. */
  function Filter<T(!new)>(s: seq<T>, p: T -> bool): (r: seq<T>)
    ensures |r| <= |s|
    ensures forall x :: x in r <==> x in s && p(x)
    ensures multiset(r) <= multiset(s)
  {
    if s == [] then []
    else
      assert s == [s[0]] + s[1..];
      (if p(s[0]) then [s[0]] else []) + Filter(s[1..], p)
  }

  /** Filtering distributes over concatenation: an earlier part stays earlier. */
  lemma {:induction false} FilterAppend<T(!new)>(s: seq<T>, t: seq<T>, p: T -> bool)
    ensures Filter(s + t, p) == Filter(s, p) + Filter(t, p)
  {
    if s == [] {
      assert s + t == t;
    } else {
      assert (s + t)[1..] == s[1..] + t;
      FilterAppend(s[1..], t, p);
    }
  }

  /** Filtering a list that starts with a passing element keeps that element in front. */
  lemma FilterCons<T(!new)>(x: T, t: seq<T>, p: T -> bool)
    requires p(x)
    ensures Filter([x] + t, p) == [x] + Filter(t, p)
  {
    var u := [x] + t;
    assert u[0] == x && u[1..] == t;
  }

  /** Splitting the input at a passing element splits the output there too. */
  lemma FilterSplitAt<T(!new)>(s: seq<T>, p: T -> bool, k: nat)
    requires k < |s| && p(s[k])
    ensures Filter(s, p) == Filter(s[..k], p) + ([s[k]] + Filter(s[k + 1..], p))
  {
    var a, b, c := s[..k], s[k + 1..], s[k..];
    assert c == [s[k]] + b;
    assert s == a + c;
    FilterAppend(a, c, p);
    FilterCons(s[k], b, p);
  }

  /** A passing element sits in the output just after what its prefix contributes. */
  lemma FilterPlace<T(!new)>(s: seq<T>, p: T -> bool, k: nat)
    requires k < |s| && p(s[k])
    ensures var r, a := Filter(s, p), Filter(s[..k], p);
            |a| < |r| && r[|a|] == s[k] && r[..|a|] == a
  {
    FilterSplitAt(s, p, k);
  }

  /** Two elements that both pass the filter keep their relative order. */
  lemma FilterKeepsOrder<T(!new)>(s: seq<T>, p: T -> bool, i: nat, j: nat)
    requires i < j < |s| && p(s[i]) && p(s[j])
    ensures var r := Filter(s, p);
            var a := |Filter(s[..i], p)|;
            var b := |Filter(s[..j], p)|;
            a < b < |r| && r[a] == s[i] && r[b] == s[j]
  {
    var t := s[..j];
    FilterPlace(s, p, j);
    assert t[..i] == s[..i] && t[i] == s[i];
    FilterPlace(t, p, i);
    var r, ft := Filter(s, p), Filter(t, p);
    var a := |Filter(s[..i], p)|;
    assert r[..|ft|] == ft;
    assert r[a] == r[..|ft|][a];
  }

  /** The first element that passes the filter is the first matching element of the input. */
  lemma {:induction false} FilterHead<T(!new)>(s: seq<T>, p: T -> bool)
    requires Filter(s, p) != []
    ensures exists k :: 0 <= k < |s| && s[k] == Filter(s, p)[0] && p(s[k])
                        && forall j :: 0 <= j < k ==> !p(s[j])
  {
    if p(s[0]) {
      assert s[0] == Filter(s, p)[0];
    } else {
      FilterHead(s[1..], p);
      var k :| 0 <= k < |s[1..]| && s[1..][k] == Filter(s[1..], p)[0] && p(s[1..][k])
               && forall j :: 0 <= j < k ==> !p(s[1..][j]);
      assert s[k + 1] == Filter(s, p)[0];
      forall j | 0 <= j < k + 1
        ensures !p(s[j])
      {
        if j > 0 { assert s[j] == s[1..][j - 1]; }
      }
    }
  }

  /** Two filters with complementary tests split the input between them. */
  lemma {:induction false} FilterPartition<T(!new)>(s: seq<T>, p: T -> bool, q: T -> bool)
    requires forall x :: p(x) <==> !q(x)
    ensures multiset(Filter(s, p)) + multiset(Filter(s, q)) == multiset(s)
  {
    if s != [] {
      var t := s[1..];
      FilterPartition(t, p, q);
      PartitionStep(s, p, q);
    }
  }

  /** So the two filters' lengths add up to the input's. */
  lemma FilterPartitionSizes<T(!new)>(s: seq<T>, p: T -> bool, q: T -> bool)
    requires forall x :: p(x) <==> !q(x)
    ensures |Filter(s, p)| + |Filter(s, q)| == |s|
  {
    FilterPartition(s, p, q);
    assert |multiset(Filter(s, p)) + multiset(Filter(s, q))| == |multiset(s)|;
  }

  /** One element goes to exactly one of two complementary filters. */
  lemma PartitionStep<T(!new)>(s: seq<T>, p: T -> bool, q: T -> bool)
    requires s != [] && (p(s[0]) <==> !q(s[0]))
    ensures multiset(s) == multiset{s[0]} + multiset(s[1..])
    ensures var fp, fq, t := Filter(s, p), Filter(s, q), s[1..];
            if p(s[0]) then fp == [s[0]] + Filter(t, p) && fq == Filter(t, q)
            else fp == Filter(t, p) && fq == [s[0]] + Filter(t, q)
  {
    assert s == [s[0]] + s[1..];
  }

  /** Prepending a key no larger than the head keeps a sorted sequence sorted. */
  lemma SortedCons<T>(h: T, t: seq<T>, key: T -> int)
    requires SortedBy(t, key)
    requires t != [] ==> key(h) <= key(t[0])
    ensures SortedBy([h] + t, key)
  {
    var r := [h] + t;
    forall i, j | 0 <= i < j < |r|
      ensures key(r[i]) <= key(r[j])
    {
      if i == 0 && j > 1 {
        assert key(t[0]) <= key(t[j - 1]);
      }
    }
  }

  /** Inserts `x` before the first element whose key is not smaller. */
  function Insert<T>(x: T, s: seq<T>, key: T -> int): (r: seq<T>)
    requires SortedBy(s, key)
    ensures SortedBy(r, key)
    ensures multiset(r) == multiset(s) + multiset{x}
    ensures r[0] == x || (s != [] && r[0] == s[0])
  {
    if s == [] then [x]
    else if key(x) <= key(s[0]) then
      SortedCons(x, s, key);
      [x] + s
    else
      assert s == [s[0]] + s[1..];
      var t := Insert(x, s[1..], key);
      assert key(s[0]) <= key(t[0]);
      SortedCons(s[0], t, key);
      [s[0]] + t
  }

  /** An insertion sort: the result is ordered by `key` and is a permutation of `s`. */
  function SortBy<T>(s: seq<T>, key: T -> int): (r: seq<T>)
    ensures SortedBy(r, key)
    ensures multiset(r) == multiset(s)
    ensures |r| == |s|
  {
    if s == [] then []
    else
      assert s == [s[0]] + s[1..];
      Insert(s[0], SortBy(s[1..], key), key)
  }

  /** The first `n` elements, or all of them when there are fewer (a query's `limit`). */
  function Take<T>(s: seq<T>, n: nat): (r: seq<T>)
    ensures |r| == if |s| < n then |s| else n
    ensures r == s[..|r|]
  {
    if |s| < n then s else s[..n]
  }

  /** A limit keeps each element at most as often as the list holds it. */
  lemma TakeIsSub<T>(s: seq<T>, n: nat)
    ensures multiset(Take(s, n)) <= multiset(s)
  {
    var r := Take(s, n);
    assert s == r + s[|r|..];
  }

  /** A limited sorted query returns smallest keys: anything it leaves out is at least every key it keeps. */
  lemma TakeOfSorted<T>(s: seq<T>, key: T -> int, n: nat)
    requires SortedBy(s, key)
    ensures forall y :: y in s && y !in Take(s, n) ==>
              |Take(s, n)| == n && forall x :: x in Take(s, n) ==> key(x) <= key(y)
  {
    forall y | y in s && y !in Take(s, n)
      ensures |Take(s, n)| == n && forall x :: x in Take(s, n) ==> key(x) <= key(y)
    {
      var k :| 0 <= k < |s| && s[k] == y;
      assert k >= |Take(s, n)|;
    }
  }

  /** `find(p).sort(key)`: exactly the matching elements, ordered by `key`. */
  function Select<T(!new)>(s: seq<T>, p: T -> bool, key: T -> int): (r: seq<T>)
    ensures SortedBy(r, key)
    ensures multiset(r) == multiset(Filter(s, p))
    ensures forall x :: x in r <==> x in s && p(x)
  {
    var matching := Filter(s, p);
    var sorted := SortBy(matching, key);
    assert forall x :: x in sorted <==> x in matching by {
      forall x ensures x in sorted <==> x in matching {
        assert x in sorted <==> x in multiset(sorted);
        assert x in matching <==> x in multiset(matching);
      }
    }
    sorted
  }

  /** `find(p).sort(key).limit(n)`: at most `n` matching elements, the ones with the smallest keys. */
  function Query<T(!new)>(s: seq<T>, p: T -> bool, key: T -> int, n: nat): (r: seq<T>)
    ensures |r| <= n
    ensures SortedBy(r, key)
    ensures forall x :: x in r ==> x in s && p(x)
    ensures forall y :: y in s && p(y) && y !in r ==>
              |r| == n && forall x :: x in r ==> key(x) <= key(y)
    ensures multiset(r) <= multiset(Filter(s, p))
  {
    var sorted := Select(s, p, key);
    TakeOfSorted(sorted, key, n);
    var r := Take(sorted, n);
    assert forall x :: x in r ==> x in sorted;
    TakeIsSub(sorted, n);
    r
  }

  /** No element occurs twice. */
  predicate Distinct<T(==)>(s: seq<T>) {
    forall i, j :: 0 <= i < j < |s| ==> s[i] != s[j]
  }

  /** In a list without repeats, every element is counted at most once. */
  lemma {:induction false} DistinctCountsOnce<T>(s: seq<T>, x: T)
    requires Distinct(s)
    ensures multiset(s)[x] <= 1
  {
    if s != [] {
      var t := s[1..];
      assert s == [s[0]] + t;
      assert forall k :: 0 <= k < |t| ==> t[k] == s[k + 1];
      DistinctCountsOnce(t, x);
      assert s[0] !in t;
    }
  }

  /** An element counted at most once cannot sit at two positions. */
  lemma CountedOnceNotRepeated<T>(s: seq<T>, i: nat, j: nat)
    requires i < j < |s| && multiset(s)[s[i]] <= 1
    ensures s[i] != s[j]
  {
    assert s == s[..j] + s[j..];
    assert s[i] in s[..j];
    assert s[j..][0] == s[j];
  }

  /** Whatever is drawn from a list without repeats has no repeats. */
  lemma DistinctSub<T>(a: seq<T>, b: seq<T>)
    requires Distinct(b) && multiset(a) <= multiset(b)
    ensures Distinct(a)
  {
    forall i, j | 0 <= i < j < |a|
      ensures a[i] != a[j]
    {
      DistinctCountsOnce(b, a[i]);
      CountedOnceNotRepeated(a, i, j);
    }
  }
}
