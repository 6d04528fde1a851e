/** What the queue-length sweep counts. Its running count after a time point is the
    number of customers in the bank at that moment (arrived, not yet left), provided a
    time point shared by several entries never has arrivals and departures that fail to
    cancel out. A finished run over generated customers has that shape, since no two
    arrivals and no two departures coincide. */
module QueueLevel {
  import opened Customers
  import opened RealSeqs
  import opened Schedule
  import opened Metrics

  /** How many entries of `ts` are at most `t`. */
  function CountUpTo(ts: seq<real>, t: real): nat
  {
    if |ts| == 0 then 0 else (if ts[0] <= t then 1 else 0) + CountUpTo(ts[1..], t)
  }

  /** The number of customers in the bank just after time `t`: arrived by then and not
      yet left. */
  function Present(cs: seq<Customer>, t: real): nat
  {
    if |cs| == 0 then 0
    else (if cs[0].arrivalTime <= t < cs[0].departureTime then 1 else 0) + Present(cs[1..], t)
  }

  /** Nobody leaves before arriving. */
  ghost predicate LeavesAfterArriving(cs: seq<Customer>)
  {
    forall i :: 0 <= i < |cs| ==> cs[i].arrivalTime <= cs[i].departureTime
  }

  /** A time point that occurs more than once in the sweep brings as many departures as
      arrivals. */
  ghost predicate RepeatsCancel(cs: seq<Customer>, pts: seq<real>)
  {
    forall j, l :: 0 <= j < l < |pts| && pts[j] == pts[l] ==> Net(cs, pts[j]) == 0
  }

  /** Those in the bank are those who arrived minus those who left. */
  lemma {:induction false} PresentIsArrivedMinusLeft(cs: seq<Customer>, t: real)
    requires LeavesAfterArriving(cs)
    ensures Present(cs, t) == CountUpTo(Arrivals(cs), t) - CountUpTo(Departures(cs), t)
  {
    if |cs| > 0 {
      assert Arrivals(cs)[1..] == Arrivals(cs[1..]);
      assert Departures(cs)[1..] == Departures(cs[1..]);
      PresentIsArrivedMinusLeft(cs[1..], t);
    }
  }

  /** Moving from `t1` to a later `t2` with no entry strictly in between adds exactly
      the entries equal to `t2`. */
  lemma {:induction false} CountUpToStep(ts: seq<real>, t1: real, t2: real)
    requires t1 < t2
    requires forall k :: 0 <= k < |ts| ==> ts[k] <= t1 || t2 <= ts[k]
    ensures CountUpTo(ts, t2) == CountUpTo(ts, t1) + CountAt(ts, t2)
  {
    if |ts| > 0 {
      CountUpToStep(ts[1..], t1, t2);
    }
  }

  /** Below the least entry only the entries equal to it count. */
  lemma {:induction false} CountUpToLeast(ts: seq<real>, t: real)
    requires forall k :: 0 <= k < |ts| ==> t <= ts[k]
    ensures CountUpTo(ts, t) == CountAt(ts, t)
  {
    if |ts| > 0 {
      CountUpToLeast(ts[1..], t);
    }
  }

  /** No member of a sorted sequence lies strictly between two neighbours. */
  lemma NothingBetween(pts: seq<real>, i: nat, x: real)
    requires Sorted(pts) && 0 < i < |pts|
    requires x in multiset(pts)
    ensures x <= pts[i - 1] || pts[i] <= x
  {
    var m :| 0 <= m < |pts| && pts[m] == x;
  }

  /** No arrival or departure time lies strictly between two neighbouring time points. */
  lemma NeighboursAdjacent(cs: seq<Customer>, pts: seq<real>, i: nat)
    requires Sorted(pts) && 0 < i < |pts|
    requires multiset(pts) == multiset(Arrivals(cs) + Departures(cs))
    ensures forall k :: 0 <= k < |cs| ==>
      Arrivals(cs)[k] <= pts[i - 1] || pts[i] <= Arrivals(cs)[k]
    ensures forall k :: 0 <= k < |cs| ==>
      Departures(cs)[k] <= pts[i - 1] || pts[i] <= Departures(cs)[k]
  {
    var both := Arrivals(cs) + Departures(cs);
    forall k | 0 <= k < |cs|
      ensures Arrivals(cs)[k] <= pts[i - 1] || pts[i] <= Arrivals(cs)[k]
      ensures Departures(cs)[k] <= pts[i - 1] || pts[i] <= Departures(cs)[k]
    {
      assert both[k] == Arrivals(cs)[k] && both[|cs| + k] == Departures(cs)[k];
      assert both[k] in multiset(both) && both[|cs| + k] in multiset(both);
      NothingBetween(pts, i, Arrivals(cs)[k]);
      NothingBetween(pts, i, Departures(cs)[k]);
    }
  }

  /** The first time point is the earliest arrival or departure time. */
  lemma FirstIsEarliest(cs: seq<Customer>, pts: seq<real>)
    requires Sorted(pts) && |pts| > 0
    requires multiset(pts) == multiset(Arrivals(cs) + Departures(cs))
    ensures forall k :: 0 <= k < |cs| ==> pts[0] <= Arrivals(cs)[k]
    ensures forall k :: 0 <= k < |cs| ==> pts[0] <= Departures(cs)[k]
  {
    var both := Arrivals(cs) + Departures(cs);
    forall k | 0 <= k < |cs|
      ensures pts[0] <= Arrivals(cs)[k] && pts[0] <= Departures(cs)[k]
    {
      assert both[k] == Arrivals(cs)[k] && both[|cs| + k] == Departures(cs)[k];
      assert both[k] in multiset(pts) && both[|cs| + k] in multiset(pts);
      FirstIsLeast(pts, Arrivals(cs)[k]);
      FirstIsLeast(pts, Departures(cs)[k]);
    }
  }

  /** The sweep's running count after the `i`-th time point is the number of customers in
      the bank at that time point. */
  lemma {:induction false} LevelCountsPresent(cs: seq<Customer>, pts: seq<real>, i: nat)
    requires LeavesAfterArriving(cs)
    requires Sorted(pts)
    requires multiset(pts) == multiset(Arrivals(cs) + Departures(cs))
    requires RepeatsCancel(cs, pts)
    requires 0 < i <= |pts|
    ensures Level(cs, pts, i) == Present(cs, pts[i - 1])
  {
    var t := pts[i - 1];
    PresentIsArrivedMinusLeft(cs, t);
    if i == 1 {
      FirstIsEarliest(cs, pts);
      CountUpToLeast(Arrivals(cs), t);
      CountUpToLeast(Departures(cs), t);
      assert Level(cs, pts, 0) == 0;
    } else {
      var t0 := pts[i - 2];
      LevelCountsPresent(cs, pts, i - 1);
      PresentIsArrivedMinusLeft(cs, t0);
      if t0 == t {
        assert Net(cs, t) == 0;
      } else {
        NeighboursAdjacent(cs, pts, i - 1);
        CountUpToStep(Arrivals(cs), t0, t);
        CountUpToStep(Departures(cs), t0, t);
      }
    }
  }

  /** Nobody is counted twice: at most every customer is in the bank at once. */
  lemma {:induction false} PresentAtMostAll(cs: seq<Customer>, t: real)
    ensures Present(cs, t) <= |cs|
  {
    if |cs| > 0 {
      PresentAtMostAll(cs[1..], t);
    }
  }

  /** An entry occurring twice in `ts` has multiplicity at least 2. */
  lemma Twice(ts: seq<real>, j: nat, l: nat)
    requires j < l < |ts| && ts[j] == ts[l]
    ensures 2 <= multiset(ts)[ts[j]]
  {
    var x := ts[j];
    assert ts == ts[..l] + ts[l..];
    assert ts[..l][j] == x;
    assert ts[l..][0] == x;
    assert x in multiset(ts[..l]) && x in multiset(ts[l..]);
  }

  /** Entries of a sequence without repeats occur at most once. */
  lemma {:induction false} CountAtDistinct(ts: seq<real>, t: real)
    requires forall j, l :: 0 <= j < l < |ts| ==> ts[j] != ts[l]
    ensures CountAt(ts, t) <= 1
  {
    if |ts| > 0 {
      CountAtDistinct(ts[1..], t);
      if ts[0] == t {
        CountAtAbsent(ts[1..], t);
      }
    }
  }

  /** When no two arrivals and no two departures coincide, a repeated time point is one
      arrival together with one departure, so repeats cancel. */
  lemma DistinctTimesCancel(cs: seq<Customer>, pts: seq<real>)
    requires forall j, l :: 0 <= j < l < |cs| ==> cs[j].arrivalTime != cs[l].arrivalTime
    requires forall j, l :: 0 <= j < l < |cs| ==> cs[j].departureTime != cs[l].departureTime
    requires multiset(pts) == multiset(Arrivals(cs) + Departures(cs))
    ensures RepeatsCancel(cs, pts)
  {
    forall j, l | 0 <= j < l < |pts| && pts[j] == pts[l]
      ensures Net(cs, pts[j]) == 0
    {
      var t := pts[j];
      Twice(pts, j, l);
      assert multiset(pts)[t] == multiset(Arrivals(cs))[t] + multiset(Departures(cs))[t];
      CountAtMultiplicity(Arrivals(cs), t);
      CountAtMultiplicity(Departures(cs), t);
      CountAtDistinct(Arrivals(cs), t);
      CountAtDistinct(Departures(cs), t);
    }
  }

  /** Read through the customers in the bank, the sweep's result is the largest number
      present at any time point (or 0), and never more than all customers. */
  lemma PeakIsMostPresent(cs: seq<Customer>, pts: seq<real>, maxQueue: int)
    requires forall i :: 0 < i <= |pts| ==> Level(cs, pts, i) == Present(cs, pts[i - 1])
    requires 0 <= maxQueue
    requires forall j :: 0 <= j <= |pts| ==> Level(cs, pts, j) <= maxQueue
    requires exists j :: 0 <= j <= |pts| && Level(cs, pts, j) == maxQueue
    ensures forall i :: 0 <= i < |pts| ==> Present(cs, pts[i]) <= maxQueue
    ensures maxQueue == 0 || exists i :: 0 <= i < |pts| && Present(cs, pts[i]) == maxQueue
    ensures maxQueue <= |cs|
  {
    forall i | 0 <= i < |pts|
      ensures Present(cs, pts[i]) <= maxQueue
    {
      assert Level(cs, pts, i + 1) == Present(cs, pts[i]);
    }
    var j :| 0 <= j <= |pts| && Level(cs, pts, j) == maxQueue;
    if j > 0 {
      assert Present(cs, pts[j - 1]) == maxQueue;
      PresentAtMostAll(cs, pts[j - 1]);
    } else {
      assert Level(cs, pts, 0) == 0;
    }
  }

  /** On the reference schedule of customers who never arrive together, the sweep counts
      the customers in the bank: departures never coincide either, since the server
      finishes one customer at a time. */
  lemma ScheduleSweepCounts(cs: seq<Customer>)
    requires WellFormed(cs)
    requires forall j, l :: 0 <= j < l < |cs| ==> cs[j].arrivalTime != cs[l].arrivalTime
    ensures var f := ScheduleOf(cs); var pts := TimePoints(f);
      forall i :: 0 < i <= |pts| ==> Level(f, pts, i) == Present(f, pts[i - 1])
  {
    var f := ScheduleOf(cs);
    var pts := TimePoints(f);
    ScheduleCausal(cs);
    assert LeavesAfterArriving(f);
    forall j, l | 0 <= j < l < |f|
      ensures f[j].departureTime != f[l].departureTime
    {
      ScheduleSingleServer(cs, j, l);
    }
    DistinctTimesCancel(f, pts);
    forall i | 0 < i <= |pts|
      ensures Level(f, pts, i) == Present(f, pts[i - 1])
    {
      LevelCountsPresent(f, pts, i);
    }
  }
}
