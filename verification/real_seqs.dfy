/** Sums, maxima, means and sorting of sequences of reals. */
module RealSeqs {

  /** Sum of the elements, folded from the front. */
  function Sum(s: seq<real>): real
  {
    if |s| == 0 then 0.0 else s[0] + Sum(s[1..])
  }

  /** Adding one more element at the back adds it to the sum. */
  lemma {:induction false} SumSnoc(s: seq<real>, x: real)
    ensures Sum(s + [x]) == Sum(s) + x
  {
    if |s| == 0 {
      assert s + [x] == [x];
    } else {
      assert (s + [x])[1..] == s[1..] + [x];
      SumSnoc(s[1..], x);
    }
  }

  /** The sum of a prefix one element longer. */
  lemma SumPrefixStep(s: seq<real>, i: nat)
    requires i < |s|
    ensures Sum(s[..i + 1]) == Sum(s[..i]) + s[i]
  {
    assert s[..i + 1] == s[..i] + [s[i]];
    SumSnoc(s[..i], s[i]);
  }

  /** A sequence of elements each at most `b` sums to at most `|s| * b`. */
  lemma {:induction false} SumAtMost(s: seq<real>, b: real)
    requires forall i :: 0 <= i < |s| ==> s[i] <= b
    ensures Sum(s) <= |s| as real * b
  {
    if |s| > 0 {
      SumAtMost(s[1..], b);
    }
  }

  /** A sequence of elements each at least `b` sums to at least `|s| * b`. */
  lemma {:induction false} SumAtLeast(s: seq<real>, b: real)
    requires forall i :: 0 <= i < |s| ==> b <= s[i]
    ensures |s| as real * b <= Sum(s)
  {
    if |s| > 0 {
      SumAtLeast(s[1..], b);
    }
  }

  /** The largest element. */
  function Maximum(s: seq<real>): (m: real)
    requires |s| > 0
    ensures m in s
    ensures forall i :: 0 <= i < |s| ==> s[i] <= m
  {
    if |s| == 1 then s[0]
    else
      var rest := Maximum(s[1..]);
      assert forall i :: 1 <= i < |s| ==> s[i] == s[1..][i - 1];
      if s[0] < rest then rest else s[0]
  }

  /** Arithmetic mean. */
  function Mean(s: seq<real>): real
    requires |s| > 0
  {
    Sum(s) / |s| as real
  }

  /** The mean times the count gives back the sum. */
  lemma MeanTimesCount(s: seq<real>, n: nat)
    requires n == |s| > 0
    ensures Mean(s) * n as real == Sum(s)
  {
    QuotientTimesDivisor(Sum(s), n as real);
  }

  lemma QuotientTimesDivisor(x: real, y: real)
    requires y != 0.0
    ensures x / y * y == x
  {
  }

  /** The mean of `n` elements, `n` being their count: times `n` it gives back the sum. */
  function Average(s: seq<real>, n: nat): (a: real)
    requires n == |s| > 0
    ensures a * n as real == Sum(s)
  {
    MeanTimesCount(s, n);
    Mean(s)
  }

  /** `x / y`: times `y` it gives back `x`. */
  function Ratio(x: real, y: real): (q: real)
    requires y != 0.0
    ensures q * y == x
  {
    x / y
  }

  /** The mean lies between any lower and upper bound of the elements. */
  lemma MeanBetween(s: seq<real>, low: real, high: real)
    requires |s| > 0
    requires forall i :: 0 <= i < |s| ==> low <= s[i] <= high
    ensures low <= Mean(s) <= high
  {
    SumAtMost(s, high);
    SumAtLeast(s, low);
    DivideBounds(Sum(s), |s| as real, low, high);
  }

  /** A non-empty sequence of positive elements has a positive sum. */
  lemma SumPositive(s: seq<real>)
    requires |s| > 0
    requires forall i :: 0 <= i < |s| ==> 0.0 < s[i]
    ensures 0.0 < Sum(s)
  {
    SumAtLeast(s[1..], 0.0);
  }

  /** A value that, times the number of elements, gives their sum (so: their mean) lies
      between any lower and upper bound of the elements. */
  lemma ScaledBetween(a: real, s: seq<real>, low: real, high: real)
    requires |s| > 0
    requires a * |s| as real == Sum(s)
    requires forall i :: 0 <= i < |s| ==> low <= s[i] <= high
    ensures low <= a <= high
  {
    MeanBetween(s, low, high);
    MeanTimesCount(s, |s|);
    Cancel(a, Mean(s), |s| as real);
  }

  /** A part `x` of a positive whole `y`, taken as the ratio `q` with `q * y == x`, is a
      fraction in (0, 1]. */
  lemma FractionInUnit(q: real, x: real, y: real)
    requires q * y == x
    requires 0.0 < x <= y
    ensures 0.0 < q <= 1.0
  {
    DivideBounds(x, y, 0.0, 1.0);
    Cancel(q, x / y, y);
  }

  lemma Cancel(a: real, b: real, n: real)
    requires n != 0.0
    requires a * n == b * n
    ensures a == b
  {
    assert (a - b) * n == 0.0;
  }

  /** `low * n <= x <= high * n` with `n > 0` bounds `x / n` by `low` and `high`. */
  lemma DivideBounds(x: real, n: real, low: real, high: real)
    requires 0.0 < n
    requires n * low <= x <= n * high
    ensures low <= x / n <= high
  {
    assert x / n * n == x;
  }

  predicate Sorted(s: seq<real>)
  {
    forall i, j :: 0 <= i <= j < |s| ==> s[i] <= s[j]
  }

  /** Inserts `x` into a sorted sequence before the first element not smaller than it. */
  function Insert(x: real, s: seq<real>): (r: seq<real>)
    requires Sorted(s)
    ensures Sorted(r)
    ensures multiset(r) == multiset(s) + multiset{x}
  {
    if |s| == 0 then [x]
    else if x <= s[0] then [x] + s
    else
      var tail := Insert(x, s[1..]);
      assert s == [s[0]] + s[1..];
      BoundedByMembers(s[0], tail, s[1..], x);
      SortedCons(s[0], tail);
      [s[0]] + tail
  }

  /** A lower bound of `x` and of every element of `t` bounds every permutation of `t`
      with `x` added. */
  lemma BoundedByMembers(low: real, r: seq<real>, t: seq<real>, x: real)
    requires multiset(r) == multiset(t) + multiset{x}
    requires forall i :: 0 <= i < |t| ==> low <= t[i]
    requires low <= x
    ensures forall i :: 0 <= i < |r| ==> low <= r[i]
  {
    forall i | 0 <= i < |r|
      ensures low <= r[i]
    {
      assert r[i] in multiset(r);
      if r[i] != x {
        assert r[i] in multiset(t);
      }
    }
  }

  lemma SortedCons(a: real, t: seq<real>)
    requires Sorted(t)
    requires forall i :: 0 <= i < |t| ==> a <= t[i]
    ensures Sorted([a] + t)
  {
  }

  /** Ascending sort (insertion sort); the result is the unique sorted permutation. */
  function Sort(s: seq<real>): (r: seq<real>)
    ensures Sorted(r)
    ensures multiset(r) == multiset(s)
  {
    if |s| == 0 then []
    else
      assert s == [s[0]] + s[1..];
      Insert(s[0], Sort(s[1..]))
  }

  /** A sorted permutation is unique: two sorted sequences with the same elements are
      equal. */
  lemma {:induction false} SortedUnique(a: seq<real>, b: seq<real>)
    requires Sorted(a) && Sorted(b)
    requires multiset(a) == multiset(b)
    ensures a == b
  {
    assert |a| == |multiset(a)| == |multiset(b)| == |b|;
    if |a| > 0 {
      SameHead(a, b);
      SortedTail(a);
      SortedTail(b);
      SortedUnique(a[1..], b[1..]);
      assert a == [a[0]] + a[1..];
      assert b == [b[0]] + b[1..];
    }
  }

  /** Two sorted sequences with the same elements start alike, and what follows holds the
      same elements again. */
  lemma SameHead(a: seq<real>, b: seq<real>)
    requires Sorted(a) && Sorted(b)
    requires multiset(a) == multiset(b) && |a| > 0 && |b| > 0
    ensures a[0] == b[0]
    ensures multiset(a[1..]) == multiset(b[1..])
  {
    assert a == [a[0]] + a[1..];
    assert b == [b[0]] + b[1..];
    assert a[0] in multiset(b) && b[0] in multiset(a);
    FirstIsLeast(a, b[0]);
    FirstIsLeast(b, a[0]);
    assert multiset(a[1..]) == multiset(a) - multiset{a[0]};
    assert multiset(b[1..]) == multiset(b) - multiset{b[0]};
  }

  lemma SortedTail(s: seq<real>)
    requires Sorted(s) && |s| > 0
    ensures Sorted(s[1..])
  {
  }

  /** The first element of a sorted sequence is no larger than any of its members. */
  lemma FirstIsLeast(s: seq<real>, x: real)
    requires Sorted(s) && x in multiset(s)
    ensures s[0] <= x
  {
    var j :| 0 <= j < |s| && s[j] == x;
  }
}
