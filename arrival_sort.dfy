/**
 * The nested loop that orders the first n not-arrived processes by arrival: n passes, each a
 * full sweep over neighbours 0..n-2 that exchanges a pair exactly when the first arrives
 * strictly later than the second.
 */
module ArrivalSort {
  import opened Processes

  /** One step of a sweep at index i. */
  function Exchange(s: seq<Process>, i: int): (r: seq<Process>)
    requires 0 <= i && i + 1 < |s|
    ensures |r| == |s|
  {
    if s[i].arrival > s[i + 1].arrival then s[i := s[i + 1]][i + 1 := s[i]] else s
  }

  /** The sweep from index i on, over s[0..n). */
  function PassFrom(s: seq<Process>, n: int, i: int): (r: seq<Process>)
    requires 0 <= i && 0 <= n <= |s|
    ensures |r| == |s|
    decreases n - i
  {
    if i >= n - 1 then s else PassFrom(Exchange(s, i), n, i + 1)
  }

  /** Passes j, j+1, ..., n-1, each a whole sweep over s[0..n). */
  function PassesFrom(s: seq<Process>, n: int, j: int): (r: seq<Process>)
    requires 0 <= n <= |s|
    ensures |r| == |s|
    decreases n - j
  {
    if j >= n then s else PassesFrom(PassFrom(s, n, 0), n, j + 1)
  }

  /** An exchange only permutes, and only inside s[0..n). */
  lemma ExchangePermutes(s: seq<Process>, n: int, i: int)
    requires 0 <= i && i + 1 < n <= |s|
    ensures multiset(Exchange(s, i)) == multiset(s)
    ensures forall k :: n <= k < |s| ==> Exchange(s, i)[k] == s[k]
  {
    SwapPermutes(s, i, i + 1);
  }

  lemma {:induction false} PassPermutes(s: seq<Process>, n: int, i: int)
    requires 0 <= i && 0 <= n <= |s|
    ensures multiset(PassFrom(s, n, i)) == multiset(s)
    ensures forall k :: n <= k < |s| ==> PassFrom(s, n, i)[k] == s[k]
    decreases n - i
  {
    if i < n - 1 {
      var s1 := Exchange(s, i);
      ExchangePermutes(s, n, i);
      PassPermutes(s1, n, i + 1);
      assert PassFrom(s, n, i) == PassFrom(s1, n, i + 1);
    }
  }

  lemma {:induction false} PassesPermute(s: seq<Process>, n: int, j: int)
    requires 0 <= n <= |s|
    ensures multiset(PassesFrom(s, n, j)) == multiset(s)
    ensures forall k :: n <= k < |s| ==> PassesFrom(s, n, j)[k] == s[k]
    decreases n - j
  {
    if j < n {
      var s1 := PassFrom(s, n, 0);
      PassPermutes(s, n, 0);
      PassesPermute(s1, n, j + 1);
      assert PassesFrom(s, n, j) == PassesFrom(s1, n, j + 1);
    }
  }

  /** A permutation that keeps the tail from n in place permutes s[0..n) and keeps s[n..]. */
  lemma PrefixPermutes(r: seq<Process>, s: seq<Process>, n: int)
    requires 0 <= n <= |s| == |r| && multiset(r) == multiset(s)
    requires forall k :: n <= k < |s| ==> r[k] == s[k]
    ensures r[n..] == s[n..]
    ensures multiset(r[..n]) == multiset(s[..n])
  {
    assert r[n..] == s[n..];
    assert r == r[..n] + r[n..] && s == s[..n] + s[n..];
    assert multiset(r) == multiset(r[..n]) + multiset(r[n..]);
    assert multiset(s) == multiset(s[..n]) + multiset(s[n..]);
    assert multiset(r[..n]) == multiset(r) - multiset(r[n..]);
    assert multiset(s[..n]) == multiset(s) - multiset(s[n..]);
  }

  /** Every element at an index at least m is no earlier than every element before it. */
  predicate SortedFrom(s: seq<Process>, n: int, m: int)
    requires n <= |s|
  {
    forall k, l :: 0 <= k < l < n && m <= l ==> s[k].arrival <= s[l].arrival
  }

  predicate ArrivalSorted(s: seq<Process>, n: int)
    requires n <= |s|
  {
    SortedFrom(s, n, 0)
  }

  /** The processes among s with arrival t, in their order in s. */
  function WithArrival(s: seq<Process>, t: int): seq<Process>
  {
    if s == [] then []
    else WithArrival(s[..|s| - 1], t) + (if s[|s| - 1].arrival == t then [s[|s| - 1]] else [])
  }

  /** The whole nested loop over s[0..n). */
  function BubbleSorted(s: seq<Process>, n: int): (r: seq<Process>)
    requires 0 <= n <= |s|
    ensures |r| == |s|
  {
    PassesFrom(s, n, 0)
  }

  /** The nested loop sorts s[0..n) by arrival, only permutes it, and touches nothing past n. */
  lemma BubbleSortSorts(s: seq<Process>, n: int)
    requires 0 <= n <= |s|
    ensures var r := BubbleSorted(s, n);
      ArrivalSorted(r, n) && multiset(r[..n]) == multiset(s[..n]) && r[n..] == s[n..]
  {
    RoundsSort(s, n, 0);
    PassesPermute(s, n, 0);
    PrefixPermutes(BubbleSorted(s, n), s, n);
  }

  /** An exchange inside s[0..m) keeps the tail from m in place. */
  lemma ExchangeKeepsTail(s: seq<Process>, n: int, m: int, i: int)
    requires 1 <= m <= n <= |s| && 0 <= i < n - 1
    requires SortedFrom(s, n, m)
    ensures SortedFrom(Exchange(s, i), n, m)
  {
    var s' := Exchange(s, i);
    if s[i].arrival > s[i + 1].arrival {
      assert i + 1 < m;
      forall k, l | 0 <= k < l < n && m <= l
        ensures s'[k].arrival <= s'[l].arrival
      {
        assert s'[l] == s[l];
        if k == i {
          assert s'[k] == s[i + 1];
        } else if k == i + 1 {
          assert s'[k] == s[i];
        } else {
          assert s'[k] == s[k];
        }
      }
    }
  }

  /** After an exchange at i, s[i + 1] is the latest of s[0..i + 1]. */
  lemma ExchangeCarriesLatest(s: seq<Process>, n: int, i: int)
    requires n <= |s| && 0 <= i < n - 1
    requires forall k :: 0 <= k <= i ==> s[k].arrival <= s[i].arrival
    ensures var s' := Exchange(s, i);
      forall k :: 0 <= k <= i + 1 ==> s'[k].arrival <= s'[i + 1].arrival
  {
  }

  /** If s[m - 1] is the latest of s[0..m), the tail from m - 1 is in place. */
  lemma ExtendSorted(s: seq<Process>, n: int, m: int)
    requires 1 <= m <= n <= |s|
    requires SortedFrom(s, n, m)
    requires forall k :: 0 <= k <= m - 1 ==> s[k].arrival <= s[m - 1].arrival
    ensures SortedFrom(s, n, m - 1)
  {
  }

  /**
   * A sweep from i, where s[i] is the latest of s[0..i] and the tail from m is in place,
   * puts one more element in place.
   */
  lemma {:induction false} PassSorts(s: seq<Process>, n: int, m: int, i: int)
    requires 1 <= m <= n <= |s| && 0 <= i < n
    requires SortedFrom(s, n, m)
    requires forall k :: 0 <= k <= i ==> s[k].arrival <= s[i].arrival
    requires i >= m - 1 ==> SortedFrom(s, n, m - 1)
    ensures SortedFrom(PassFrom(s, n, i), n, m - 1)
    decreases n - i
  {
    if i < n - 1 {
      var s' := Exchange(s, i);
      ExchangeKeepsTail(s, n, m, i);
      ExchangeCarriesLatest(s, n, i);
      if i >= m - 1 {
        assert s[i].arrival <= s[i + 1].arrival;
        assert s' == s;
      } else if i + 1 == m - 1 {
        ExtendSorted(s', n, m);
      }
      PassSorts(s', n, m, i + 1);
    }
  }

  /** Passes j..n-1 finish the sort when the tail from n - j is already in place. */
  lemma {:induction false} RoundsSort(s: seq<Process>, n: int, j: int)
    requires 0 <= j <= n <= |s|
    requires SortedFrom(s, n, n - j)
    ensures SortedFrom(PassesFrom(s, n, j), n, 0)
    decreases n - j
  {
    if j < n {
      PassSorts(s, n, n - j, 0);
      RoundsSort(PassFrom(s, n, 0), n, j + 1);
    }
  }

  lemma {:induction false} WithArrivalConcat(a: seq<Process>, b: seq<Process>, t: int)
    ensures WithArrival(a + b, t) == WithArrival(a, t) + WithArrival(b, t)
    decreases |b|
  {
    if b == [] {
      assert a + b == a;
    } else {
      assert (a + b)[..|a + b| - 1] == a + b[..|b| - 1];
      WithArrivalConcat(a, b[..|b| - 1], t);
    }
  }

  /** An exchange never reorders two processes with the same arrival. */
  lemma ExchangeStable(s: seq<Process>, i: int, t: int)
    requires 0 <= i && i + 1 < |s|
    ensures WithArrival(Exchange(s, i), t) == WithArrival(s, t)
  {
    if s[i].arrival > s[i + 1].arrival {
      var x, y := s[i], s[i + 1];
      assert s == s[..i] + [x, y] + s[i + 2..];
      assert Exchange(s, i) == s[..i] + [y, x] + s[i + 2..];
      WithArrivalConcat(s[..i] + [x, y], s[i + 2..], t);
      WithArrivalConcat(s[..i] + [y, x], s[i + 2..], t);
      WithArrivalConcat(s[..i], [x, y], t);
      WithArrivalConcat(s[..i], [y, x], t);
      assert [x, y][..1] == [x] && [y, x][..1] == [y];
      assert [x][..0] == [] && [y][..0] == [];
      assert WithArrival([x, y], t) == WithArrival([y, x], t);
    }
  }

  lemma {:induction false} PassStable(s: seq<Process>, n: int, i: int, t: int)
    requires 0 <= i && 0 <= n <= |s|
    ensures WithArrival(PassFrom(s, n, i), t) == WithArrival(s, t)
    decreases n - i
  {
    if i < n - 1 {
      ExchangeStable(s, i, t);
      PassStable(Exchange(s, i), n, i + 1, t);
    }
  }

  lemma {:induction false} PassesStable(s: seq<Process>, n: int, j: int, t: int)
    requires 0 <= n <= |s|
    ensures WithArrival(PassesFrom(s, n, j), t) == WithArrival(s, t)
    decreases n - j
  {
    if j < n {
      PassStable(s, n, 0, t);
      PassesStable(PassFrom(s, n, 0), n, j + 1, t);
    }
  }

  /** The sort is stable: processes of equal arrival keep their relative order among the first n. */
  lemma BubbleSortStable(s: seq<Process>, n: int, t: int)
    requires 0 <= n <= |s|
    ensures WithArrival(BubbleSorted(s, n)[..n], t) == WithArrival(s[..n], t)
  {
    var r := PassesFrom(s, n, 0);
    PassesStable(s, n, 0, t);
    PassesPermute(s, n, 0);
    PrefixPermutes(r, s, n);
    assert r == r[..n] + s[n..] && s == s[..n] + s[n..];
    WithArrivalConcat(r[..n], s[n..], t);
    WithArrivalConcat(s[..n], s[n..], t);
    var x, y, z := WithArrival(r[..n], t), WithArrival(s[..n], t), WithArrival(s[n..], t);
    assert x + z == y + z;
    assert |x| == |y|;
    assert forall k :: 0 <= k < |x| ==> x[k] == (x + z)[k] == (y + z)[k] == y[k];
  }

  /** The nested arrival loop, run in place on a[0..n). */
  method SortByArrival(a: array<Process>, n: int)
    requires 0 <= n <= a.Length
    modifies a
    ensures a[..] == BubbleSorted(old(a[..]), n)
  {
    ghost var target := BubbleSorted(a[..], n);
    for j := 0 to n
      invariant PassesFrom(a[..], n, j) == target
    {
      ghost var before := a[..];
      var i := 0;
      while i < n - 1
        invariant 0 <= i
        invariant PassFrom(a[..], n, i) == PassFrom(before, n, 0)
      {
        ghost var cur := a[..];
        if a[i].arrival > a[i + 1].arrival {
          a[i], a[i + 1] := a[i + 1], a[i];
        }
        assert a[..] == Exchange(cur, i);
        i := i + 1;
      }
      assert PassFrom(a[..], n, i) == a[..];
    }
  }
}
