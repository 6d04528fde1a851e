/** The statistics reported after a run: waiting and system times, server utilization and
    the queue-length sweep over all arrival and departure timestamps. */
module Metrics {
  import opened Customers
  import opened RealSeqs

  /** Why no report could be produced: the maximum of an empty list of times, or the
      utilization divided by a clock still at zero. */
  datatype MetricsError = NoCustomers | ZeroElapsedTime

  datatype Report = Report(
    averageWaitingTime: real,
    maxWaitingTime: real,
    averageSystemTime: real,
    maxSystemTime: real,
    serverUtilization: real,
    averageQueueLength: real,
    maxQueueLength: int)

  datatype MetricsResult = Measured(report: Report) | Failed(error: MetricsError)

  /** Every arrival and every departure timestamp, ascending, one entry per timestamp
      (equal timestamps are kept, not merged). */
  function TimePoints(cs: seq<Customer>): (r: seq<real>)
    ensures |r| == 2 * |cs|
    ensures Sorted(r)
    ensures multiset(r) == multiset(Arrivals(cs) + Departures(cs))
  {
    Sort(Arrivals(cs) + Departures(cs))
  }

  /** The time points are the only sorted arrangement of the arrival and departure
      timestamps, so how the sort orders equal timestamps does not matter. */
  lemma TimePointsUnique(cs: seq<Customer>, r: seq<real>)
    requires Sorted(r)
    requires multiset(r) == multiset(Arrivals(cs) + Departures(cs))
    ensures r == TimePoints(cs)
  {
    SortedUnique(r, TimePoints(cs));
  }

  /** How many entries of `ts` equal `t`. */
  function CountAt(ts: seq<real>, t: real): nat
  {
    if |ts| == 0 then 0 else (if ts[0] == t then 1 else 0) + CountAt(ts[1..], t)
  }

  /** Counting the entries equal to `t` is taking the multiplicity of `t`. */
  lemma {:induction false} CountAtMultiplicity(ts: seq<real>, t: real)
    ensures CountAt(ts, t) == multiset(ts)[t]
  {
    if |ts| > 0 {
      assert ts == [ts[0]] + ts[1..];
      CountAtMultiplicity(ts[1..], t);
    }
  }

  lemma CountAtMember(ts: seq<real>, i: nat)
    requires i < |ts|
    ensures 1 <= CountAt(ts, ts[i])
  {
    CountAtMultiplicity(ts, ts[i]);
    assert ts[i] in multiset(ts);
  }

  lemma CountAtAbsent(ts: seq<real>, t: real)
    requires forall i :: 0 <= i < |ts| ==> ts[i] != t
    ensures CountAt(ts, t) == 0
  {
    CountAtMultiplicity(ts, t);
    assert t !in multiset(ts);
  }

  /** The change in the number of customers in the bank at one time point: the customers
      arriving then minus the customers leaving then. */
  function Net(cs: seq<Customer>, t: real): int
  {
    CountAt(Arrivals(cs), t) - CountAt(Departures(cs), t)
  }

  /** The running count after the first `i` time points of the sweep. */
  function Level(cs: seq<Customer>, pts: seq<real>, i: nat): int
    requires i <= |pts|
  {
    if i == 0 then 0 else Level(cs, pts, i - 1) + Net(cs, pts[i - 1])
  }

  /** The sweep loop: for each time point in order, add the arrivals at that time, take
      away the departures at that time, and remember the largest running count. */
  method QueueSweep(cs: seq<Customer>, pts: seq<real>) returns (maxQueue: int)
    ensures 0 <= maxQueue
    ensures forall j :: 0 <= j <= |pts| ==> Level(cs, pts, j) <= maxQueue
    ensures exists j :: 0 <= j <= |pts| && Level(cs, pts, j) == maxQueue
  {
    var current := 0;
    maxQueue := 0;
    ghost var at := 0;
    var i := 0;
    while i < |pts|
      invariant 0 <= i <= |pts|
      invariant current == Level(cs, pts, i)
      invariant 0 <= at <= i && Level(cs, pts, at) == maxQueue
      invariant forall j :: 0 <= j <= i ==> Level(cs, pts, j) <= maxQueue
    {
      var arrivals := CountAt(Arrivals(cs), pts[i]);
      var departures := CountAt(Departures(cs), pts[i]);
      current := current + arrivals - departures;
      if current > maxQueue {
        maxQueue := current;
        at := i + 1;
      }
      i := i + 1;
    }
  }

  /** The largest of `times` is attained and bounds every element, and the average
      times the number of elements gives their total. */
  ghost predicate TimeFigures(average: real, maximum: real, times: seq<real>)
  {
    && maximum in times
    && (forall i :: 0 <= i < |times| ==> times[i] <= maximum)
    && average * |times| as real == Sum(times)
  }

  /** The maximum queue length is the largest running count of the sweep over `pts`
      (0 if it never rises above 0), and its "average" is that maximum spread over the
      number of time points. */
  ghost predicate QueueFigures(m: Report, cs: seq<Customer>, pts: seq<real>)
  {
    && 0 <= m.maxQueueLength
    && (forall j :: 0 <= j <= |pts| ==> Level(cs, pts, j) <= m.maxQueueLength)
    && (exists j :: 0 <= j <= |pts| && Level(cs, pts, j) == m.maxQueueLength)
    && m.averageQueueLength * |pts| as real == m.maxQueueLength as real
  }

  /** What each figure of a report means for customers `cs`, the sweep's time points `pts`
      and a run that ended at `currentTime`; utilization is the total service time over the
      elapsed time. */
  ghost predicate Summarizes(m: Report, cs: seq<Customer>, pts: seq<real>, currentTime: real)
  {
    && TimeFigures(m.averageWaitingTime, m.maxWaitingTime, Waits(cs))
    && TimeFigures(m.averageSystemTime, m.maxSystemTime, SystemTimes(cs))
    && m.serverUtilization * currentTime == Sum(ServiceTimes(cs))
    && QueueFigures(m, cs, pts)
  }

  /** The statistics of a finished run, from the customers and the clock at the end. An
      empty customer list has no maximum waiting time, and a clock at zero leaves
      utilization undefined; both are errors, checked in the order the figures are
      computed. */
  method CalculateMetrics(cs: seq<Customer>, currentTime: real) returns (r: MetricsResult)
    ensures r.Failed? <==> |cs| == 0 || currentTime == 0.0
    ensures |cs| == 0 ==> r == Failed(NoCustomers)
    ensures |cs| > 0 && currentTime == 0.0 ==> r == Failed(ZeroElapsedTime)
    ensures r.Measured? ==> Summarizes(r.report, cs, TimePoints(cs), currentTime)
  {
    var pts := TimePoints(cs);
    var maxQueue := QueueSweep(cs, pts);
    if |cs| == 0 {
      return Failed(NoCustomers);
    }
    if currentTime == 0.0 {
      return Failed(ZeroElapsedTime);
    }
    var waits, systems := Waits(cs), SystemTimes(cs);
    var m := Report(
      Average(waits, |cs|),
      Maximum(waits),
      Average(systems, |cs|),
      Maximum(systems),
      Ratio(Sum(ServiceTimes(cs)), currentTime),
      Ratio(maxQueue as real, |pts| as real),
      maxQueue);
    ReportMeaning(m, cs, pts, currentTime);
    return Measured(m);
  }

  /** The report assembled from the figures has the meaning `Summarizes` gives it. */
  lemma ReportMeaning(m: Report, cs: seq<Customer>, pts: seq<real>, currentTime: real)
    requires |cs| > 0 && currentTime != 0.0 && |pts| > 0
    requires m.averageWaitingTime == Average(Waits(cs), |cs|)
    requires m.maxWaitingTime == Maximum(Waits(cs))
    requires m.averageSystemTime == Average(SystemTimes(cs), |cs|)
    requires m.maxSystemTime == Maximum(SystemTimes(cs))
    requires m.serverUtilization == Ratio(Sum(ServiceTimes(cs)), currentTime)
    requires m.averageQueueLength == Ratio(m.maxQueueLength as real, |pts| as real)
    requires 0 <= m.maxQueueLength
    requires forall j :: 0 <= j <= |pts| ==> Level(cs, pts, j) <= m.maxQueueLength
    requires exists j :: 0 <= j <= |pts| && Level(cs, pts, j) == m.maxQueueLength
    ensures Summarizes(m, cs, pts, currentTime)
  {
    TimeFiguresOfReport(m, cs, currentTime);
    QueueFiguresHold(m, cs, pts);
  }

  lemma TimeFiguresOfReport(m: Report, cs: seq<Customer>, currentTime: real)
    requires |cs| > 0 && currentTime != 0.0
    requires m.averageWaitingTime == Average(Waits(cs), |cs|)
    requires m.maxWaitingTime == Maximum(Waits(cs))
    requires m.averageSystemTime == Average(SystemTimes(cs), |cs|)
    requires m.maxSystemTime == Maximum(SystemTimes(cs))
    requires m.serverUtilization == Ratio(Sum(ServiceTimes(cs)), currentTime)
    ensures TimeFigures(m.averageWaitingTime, m.maxWaitingTime, Waits(cs))
    ensures TimeFigures(m.averageSystemTime, m.maxSystemTime, SystemTimes(cs))
    ensures m.serverUtilization * currentTime == Sum(ServiceTimes(cs))
  {
    TimeFiguresHold(Waits(cs), |cs|);
    TimeFiguresHold(SystemTimes(cs), |cs|);
    RatioScales(m.serverUtilization, Sum(ServiceTimes(cs)), currentTime);
  }

  lemma TimeFiguresHold(s: seq<real>, n: nat)
    requires n == |s| > 0
    ensures TimeFigures(Average(s, n), Maximum(s), s)
  {
    var a, top := Average(s, n), Maximum(s);
    assert a * |s| as real == Sum(s);
    TimeFiguresOf(s, a, top);
  }

  /** An attained upper bound and a value that times the count gives the sum are the
      figures of `s`. */
  lemma TimeFiguresOf(s: seq<real>, a: real, top: real)
    requires a * |s| as real == Sum(s)
    requires top in s && forall i :: 0 <= i < |s| ==> s[i] <= top
    ensures TimeFigures(a, top, s)
  {
  }

  lemma RatioScales(q: real, x: real, y: real)
    requires y != 0.0
    requires q == Ratio(x, y)
    ensures q * y == x
  {
  }

  lemma QueueFiguresHold(m: Report, cs: seq<Customer>, pts: seq<real>)
    requires |pts| > 0
    requires 0 <= m.maxQueueLength
    requires forall j :: 0 <= j <= |pts| ==> Level(cs, pts, j) <= m.maxQueueLength
    requires exists j :: 0 <= j <= |pts| && Level(cs, pts, j) == m.maxQueueLength
    requires m.averageQueueLength == Ratio(m.maxQueueLength as real, |pts| as real)
    ensures QueueFigures(m, cs, pts)
  {
  }

  /** When every wait is non-negative and below the same customer's time in the bank, the
      averages lie within their maxima and the longest wait is shorter than the longest
      stay. */
  lemma FiguresOrdered(m: Report, waits: seq<real>, systems: seq<real>)
    requires |waits| == |systems| > 0
    requires TimeFigures(m.averageWaitingTime, m.maxWaitingTime, waits)
    requires TimeFigures(m.averageSystemTime, m.maxSystemTime, systems)
    requires forall i :: 0 <= i < |waits| ==> 0.0 <= waits[i] < systems[i]
    ensures 0.0 <= m.averageWaitingTime <= m.maxWaitingTime
    ensures m.averageSystemTime <= m.maxSystemTime
    ensures m.maxWaitingTime < m.maxSystemTime
  {
    ScaledBetween(m.averageWaitingTime, waits, 0.0, m.maxWaitingTime);
    ScaledBetween(m.averageSystemTime, systems, 0.0, m.maxSystemTime);
    var w :| 0 <= w < |waits| && waits[w] == m.maxWaitingTime;
    assert waits[w] < systems[w];
  }

  /** Positive service times that all fit into the elapsed time make a utilization in
      (0, 1]. */
  lemma UtilizationInUnit(utilization: real, services: seq<real>, elapsed: real)
    requires |services| > 0
    requires forall i :: 0 <= i < |services| ==> 0.0 < services[i]
    requires Sum(services) <= elapsed
    requires utilization * elapsed == Sum(services)
    ensures 0.0 < utilization <= 1.0
  {
    SumPositive(services);
    FractionInUnit(utilization, Sum(services), elapsed);
  }
}
