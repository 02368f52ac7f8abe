/**
 * The sequence operations the two listings are built from: the order in which
 * a dictionary keyed 1..n yields its values, `filter`, and `itertools.islice`.
 */
module Paging {

  function Min(a: int, b: int): (m: int)
  {
    if a < b then a else b
  }

  /**
   * `list(d.values())` for a dictionary whose keys were inserted as 1, 2, ..., n
   * and never removed: a dictionary iterates in insertion order, and assigning
   * to a key that is already present keeps its position.
   */
  function InOrder<V>(m: map<int, V>, n: nat): (vs: seq<V>)
    requires forall i :: 1 <= i <= n ==> i in m
    ensures |vs| == n
    ensures forall j :: 0 <= j < n ==> vs[j] == m[j + 1]
  {
    if n == 0 then [] else InOrder(m, n - 1) + [m[n]]
  }

  /** The builtin `filter(p, s)`, taken to a list. */
  function Filter<T>(p: T -> bool, s: seq<T>): (r: seq<T>)
    ensures |r| <= |s|
    ensures forall j :: 0 <= j < |r| ==> r[j] in s && p(r[j])
    ensures forall i :: 0 <= i < |s| && p(s[i]) ==> s[i] in r
  {
    if s == [] then []
    else if p(s[0]) then [s[0]] + Filter(p, s[1..])
    else Filter(p, s[1..])
  }

  /**
   * `itertools.islice(s, start, stop)`: the elements at positions
   * start <= i < stop. The window ends at `stop` itself, and it is empty
   * when `stop <= start`.
   */
  function Islice<T>(s: seq<T>, start: nat, stop: nat): (r: seq<T>)
    ensures |r| == if start < Min(stop, |s|) then Min(stop, |s|) - start else 0
    ensures forall j :: 0 <= j < |r| ==> r[j] == s[start + j]
  {
    var end := Min(stop, |s|);
    if start < end then s[start..end] else []
  }

  /** The elements of `s` are in strictly increasing order of `key`. */
  ghost predicate IncreasingBy<T>(s: seq<T>, key: T -> int)
  {
    forall i, j :: 0 <= i < j < |s| ==> key(s[i]) < key(s[j])
  }

  /** Filtering keeps the relative order of what it keeps. */
  lemma {:induction false} FilterIncreasing<T>(p: T -> bool, s: seq<T>, key: T -> int)
    requires IncreasingBy(s, key)
    ensures IncreasingBy(Filter(p, s), key)
  {
    if s != [] {
      var rest := Filter(p, s[1..]);
      assert IncreasingBy(s[1..], key);
      FilterIncreasing(p, s[1..], key);
      if p(s[0]) {
        var r := [s[0]] + rest;
        forall j | 0 < j < |r|
          ensures key(r[0]) < key(r[j])
        {
          var k :| 0 <= k < |s[1..]| && s[1..][k] == r[j];
          assert s[k + 1] == r[j];
        }
      }
    }
  }

  /** Filtering with two predicates that agree on every element gives the same list. */
  lemma {:induction false} FilterCongruent<T>(p: T -> bool, q: T -> bool, s: seq<T>)
    requires forall i :: 0 <= i < |s| ==> p(s[i]) == q(s[i])
    ensures Filter(p, s) == Filter(q, s)
  {
    if s != [] {
      FilterCongruent(p, q, s[1..]);
    }
  }

  /** A window of `start..stop` holds at most `stop - start` elements. */
  lemma IsliceAtMost<T>(s: seq<T>, start: nat, stop: nat)
    ensures |Islice(s, start, stop)| <= if start < stop then stop - start else 0
    ensures |Islice(s, start, stop)| <= |s|
  {
  }

  /** Filtering distributes over concatenation: it keeps the order of what it keeps. */
  lemma {:induction false} FilterAppend<T>(p: T -> bool, s: seq<T>, t: seq<T>)
    ensures Filter(p, s + t) == Filter(p, s) + Filter(p, t)
  {
    if s == [] {
      assert s + t == t;
    } else {
      assert (s + t)[1..] == s[1..] + t;
      FilterAppend(p, s[1..], t);
    }
  }

  /** Every passing element is kept as many times as it occurs, and no other element is kept. */
  lemma {:induction false} FilterMultiplicity<T>(p: T -> bool, s: seq<T>)
    ensures forall x :: multiset(Filter(p, s))[x] == if p(x) then multiset(s)[x] else 0
  {
    if s != [] {
      FilterMultiplicity(p, s[1..]);
      assert s == [s[0]] + s[1..];
    }
  }

  /** When every element passes, filtering keeps the whole sequence. */
  lemma {:induction false} FilterKeepsAll<T>(p: T -> bool, s: seq<T>)
    requires forall i :: 0 <= i < |s| ==> p(s[i])
    ensures Filter(p, s) == s
  {
    if s != [] {
      FilterKeepsAll(p, s[1..]);
    }
  }

  /** The keys 1 <= k < below of `m` whose value passes `p`. */
  ghost function MatchingBelow<V>(m: map<int, V>, p: V -> bool, below: int): (keys: set<int>)
  {
    set k | 1 <= k < below && k in m && p(m[k])
  }

  /** Filtering the first j values of a dictionary keyed 1..n keeps as many as there are passing keys up to j. */
  lemma {:induction false} FilterInOrderLength<V>(m: map<int, V>, p: V -> bool, j: nat)
    requires forall i :: 1 <= i <= j ==> i in m
    ensures |Filter(p, InOrder(m, j))| == |MatchingBelow(m, p, j + 1)|
  {
    if j == 0 {
      assert MatchingBelow(m, p, 1) == {};
    } else {
      FilterInOrderLength(m, p, j - 1);
      FilterAppend(p, InOrder(m, j - 1), [m[j]]);
      if p(m[j]) {
        assert MatchingBelow(m, p, j + 1) == MatchingBelow(m, p, j) + {j};
      } else {
        assert MatchingBelow(m, p, j + 1) == MatchingBelow(m, p, j);
      }
    }
  }

  /** A passing value with key k sits, in the filtered values, at the number of passing keys below k. */
  lemma FilterInOrderAt<V>(m: map<int, V>, p: V -> bool, n: nat, k: int)
    requires forall i :: 1 <= i <= n ==> i in m
    requires 1 <= k <= n && p(m[k])
    ensures |MatchingBelow(m, p, k)| < |Filter(p, InOrder(m, n))|
    ensures Filter(p, InOrder(m, n))[|MatchingBelow(m, p, k)|] == m[k]
  {
    var vs := InOrder(m, n);
    var before := InOrder(m, k - 1);
    assert vs == before + [m[k]] + vs[k..];
    FilterAppend(p, before + [m[k]], vs[k..]);
    FilterAppend(p, before, [m[k]]);
    FilterInOrderLength(m, p, k - 1);
  }

  /**
   * The exact window over the passing values of a dictionary keyed 1..n whose
   * values carry their key: it holds `min(stop, total) - start` of them, and a
   * value is in it exactly when it passes and the number of passing keys below
   * its own lies in `start..stop`.
   */
  lemma WindowExact<V>(m: map<int, V>, n: nat, p: V -> bool, key: V -> int, start: nat, stop: nat)
    requires forall i :: 1 <= i <= n ==> i in m && key(m[i]) == i
    ensures var total := |MatchingBelow(m, p, n + 1)|;
      |Islice(Filter(p, InOrder(m, n)), start, stop)|
        == if start < Min(stop, total) then Min(stop, total) - start else 0
    ensures forall k :: 1 <= k <= n ==>
      (m[k] in Islice(Filter(p, InOrder(m, n)), start, stop) <==>
       (p(m[k]) && start <= |MatchingBelow(m, p, k)| < stop))
  {
    var vs := InOrder(m, n);
    var f := Filter(p, vs);
    var w := Islice(f, start, stop);
    FilterInOrderLength(m, p, n);
    assert IncreasingBy(vs, key);
    FilterIncreasing(p, vs, key);
    forall k | 1 <= k <= n
      ensures m[k] in w <==> p(m[k]) && start <= |MatchingBelow(m, p, k)| < stop
    {
      if p(m[k]) {
        FilterInOrderAt(m, p, n, k);
        var rank := |MatchingBelow(m, p, k)|;
        if start <= rank < stop {
          assert w[rank - start] == m[k];
        }
        forall j | 0 <= j < |w| && w[j] == m[k]
          ensures start + j == rank
        {
          assert f[start + j] == f[rank];
        }
      } else {
        forall j | 0 <= j < |w|
          ensures w[j] != m[k]
        {
          assert p(f[start + j]);
        }
      }
    }
  }
}
