/** One whole simulation as the program drives it: build the customers, run the event loop
    until no event is left, and summarize the finished records. */
module Simulation {
  import opened Customers
  import opened RealSeqs
  import opened Generation
  import opened EventList
  import opened Engine
  import opened Schedule
  import opened EngineProofs
  import opened Metrics
  import opened QueueLevel

  /** A run leaves every customer's own fields alone and stamps them in FIFO order. */
  lemma {:induction false} RunServesInOrder(cs: seq<Customer>, rule: TieBreak)
    requires WellFormed(cs)
    ensures var f := Run(Initial(cs), rule).final.customers;
      && |f| == |cs|
      && (forall i :: 0 <= i < |cs| ==>
            && f[i].customerId == cs[i].customerId
            && f[i].arrivalTime == cs[i].arrivalTime
            && f[i].serviceTime == cs[i].serviceTime)
      && ServedInOrder(f)
  {
    RunMatchesSchedule(cs, rule);
    ScheduleServedInOrder(cs);
  }

  /** Causality after a run: nobody is served before arriving, everybody leaves exactly
      one service time after being served, at a positive time, and spends in the bank
      their wait plus their service time. */
  lemma {:induction false} RunCausal(cs: seq<Customer>, rule: TieBreak)
    requires WellFormed(cs)
    ensures var f := Run(Initial(cs), rule).final.customers;
      forall i :: 0 <= i < |f| ==>
        && f[i].arrivalTime <= f[i].serviceStartTime
        && f[i].departureTime == f[i].serviceStartTime + f[i].serviceTime
        && 0.0 < f[i].departureTime
        && SystemTime(f[i]) == WaitingTime(f[i]) + f[i].serviceTime
  {
    RunMatchesSchedule(cs, rule);
    ScheduledCausal(cs, Run(Initial(cs), rule).final.customers);
  }

  /** The causality facts of the reference schedule, read on its records. */
  lemma {:induction false} ScheduledCausal(cs: seq<Customer>, f: seq<Customer>)
    requires WellFormed(cs)
    requires f == ScheduleOf(cs)
    ensures forall i :: 0 <= i < |f| ==>
      && f[i].arrivalTime <= f[i].serviceStartTime
      && f[i].departureTime == f[i].serviceStartTime + f[i].serviceTime
      && 0.0 < f[i].departureTime
      && SystemTime(f[i]) == WaitingTime(f[i]) + f[i].serviceTime
  {
    ScheduleCausal(cs);
  }

  /** A single FIFO server after a run: a later customer starts service only after every
      earlier one has left, and strictly later than every earlier one started. */
  lemma {:induction false} RunSingleServer(cs: seq<Customer>, rule: TieBreak, i: nat, j: nat)
    requires WellFormed(cs)
    requires i < j < |cs|
    ensures var f := Run(Initial(cs), rule).final.customers;
      && |f| == |cs|
      && f[i].departureTime <= f[j].serviceStartTime
      && f[i].serviceStartTime < f[j].serviceStartTime
  {
    RunMatchesSchedule(cs, rule);
    ScheduleSingleServer(cs, i, j);
  }

  /** Both the arrivals and the departures of a finished run lie no earlier than the
      first arrival, and every departure lies strictly after it. */
  lemma {:induction false} TimesAfterFirstArrival(cs: seq<Customer>)
    requires WellFormed(cs) && |cs| > 0
    ensures var f := ScheduleOf(cs);
      && (forall i :: 0 <= i < |cs| ==> cs[0].arrivalTime <= f[i].arrivalTime)
      && (forall i :: 0 <= i < |cs| ==> cs[0].arrivalTime < f[i].departureTime)
  {
    ScheduleCausal(cs);
  }

  /** The first time point of the sweep over a finished run is the first arrival, and
      nobody leaves then, so the running count reaches at least 1. */
  lemma {:induction false} FirstPointRaisesQueue(cs: seq<Customer>)
    requires WellFormed(cs) && |cs| > 0
    ensures var f := ScheduleOf(cs); 1 <= Level(f, TimePoints(f), 1)
  {
    var f := ScheduleOf(cs);
    var a0 := cs[0].arrivalTime;
    var both := Arrivals(f) + Departures(f);
    var pts := TimePoints(f);
    TimesAfterFirstArrival(cs);
    assert forall k :: 0 <= k < |both| ==> a0 <= both[k];
    assert pts[0] in multiset(both);
    assert a0 <= pts[0];
    assert both[0] == a0;
    assert a0 in multiset(pts);
    assert pts[0] <= a0;
    CountAtMember(Arrivals(f), 0);
    CountAtAbsent(Departures(f), a0);
    assert Level(f, pts, 1) == Level(f, pts, 0) + Net(f, a0);
  }

  /** After a complete run the report's figures are what a single FIFO server makes
      inevitable: nobody waits a negative time, everybody spends longer in the bank than
      in the queue, the server is busy for a positive share of the run and never more than
      all of it, and at least one customer is counted in the bank at some time point. */
  lemma {:induction false} MetricsAfterRun(cs: seq<Customer>, rule: TieBreak, m: Report)
    requires WellFormed(cs) && |cs| > 0
    requires var f := Run(Initial(cs), rule).final;
      Summarizes(m, f.customers, TimePoints(f.customers), f.currentTime)
    ensures 0.0 <= m.averageWaitingTime <= m.maxWaitingTime
    ensures m.averageSystemTime <= m.maxSystemTime
    ensures m.maxWaitingTime < m.maxSystemTime
    ensures 0.0 < m.serverUtilization <= 1.0
    ensures 1 <= m.maxQueueLength
  {
    RunMatchesSchedule(cs, rule);
    var fin := Run(Initial(cs), rule).final;
    MetricsOfSchedule(cs, m, fin.currentTime);
  }

  /** The same bounds for a report on the reference schedule itself. */
  lemma {:induction false} MetricsOfSchedule(cs: seq<Customer>, m: Report, elapsed: real)
    requires WellFormed(cs) && |cs| > 0
    requires elapsed == Finish(cs, |cs| - 1)
    requires Summarizes(m, ScheduleOf(cs), TimePoints(ScheduleOf(cs)), elapsed)
    ensures 0.0 <= m.averageWaitingTime <= m.maxWaitingTime
    ensures m.averageSystemTime <= m.maxSystemTime
    ensures m.maxWaitingTime < m.maxSystemTime
    ensures 0.0 < m.serverUtilization <= 1.0
    ensures 1 <= m.maxQueueLength
  {
    TimesOfSchedule(cs, m);
    UtilizationOfSchedule(cs, m, elapsed);
    QueueOfSchedule(cs, m);
  }

  lemma {:induction false} TimesOfSchedule(cs: seq<Customer>, m: Report)
    requires WellFormed(cs) && |cs| > 0
    requires TimeFigures(m.averageWaitingTime, m.maxWaitingTime, Waits(ScheduleOf(cs)))
    requires TimeFigures(m.averageSystemTime, m.maxSystemTime, SystemTimes(ScheduleOf(cs)))
    ensures 0.0 <= m.averageWaitingTime <= m.maxWaitingTime
    ensures m.averageSystemTime <= m.maxSystemTime
    ensures m.maxWaitingTime < m.maxSystemTime
  {
    var f := ScheduleOf(cs);
    ScheduleWaitsBelowSystemTimes(cs);
    FiguresOrdered(m, Waits(f), SystemTimes(f));
  }

  lemma {:induction false} UtilizationOfSchedule(cs: seq<Customer>, m: Report, elapsed: real)
    requires WellFormed(cs) && |cs| > 0
    requires elapsed == Finish(cs, |cs| - 1)
    requires m.serverUtilization * elapsed == Sum(ServiceTimes(ScheduleOf(cs)))
    ensures 0.0 < m.serverUtilization <= 1.0
  {
    var f := ScheduleOf(cs);
    ScheduleBusyTime(cs);
    UtilizationInUnit(m.serverUtilization, ServiceTimes(f), elapsed);
  }

  lemma {:induction false} QueueOfSchedule(cs: seq<Customer>, m: Report)
    requires WellFormed(cs) && |cs| > 0
    requires QueueFigures(m, ScheduleOf(cs), TimePoints(ScheduleOf(cs)))
    ensures 1 <= m.maxQueueLength
  {
    FirstPointRaisesQueue(cs);
    assert 1 <= |TimePoints(ScheduleOf(cs))|;
  }

  /** When no two customers arrive together, the report's maximum queue length is the
      largest number of customers in the bank at any arrival or departure time, and so
      never more than the number of customers. */
  lemma {:induction false} QueueAfterRun(cs: seq<Customer>, rule: TieBreak, m: Report)
    requires WellFormed(cs)
    requires forall j, l :: 0 <= j < l < |cs| ==> cs[j].arrivalTime != cs[l].arrivalTime
    requires var f := Run(Initial(cs), rule).final.customers;
      QueueFigures(m, f, TimePoints(f))
    ensures var f := Run(Initial(cs), rule).final.customers; var pts := TimePoints(f);
      && (forall i :: 0 <= i < |pts| ==> Present(f, pts[i]) <= m.maxQueueLength)
      && (m.maxQueueLength == 0 ||
          exists i :: 0 <= i < |pts| && Present(f, pts[i]) == m.maxQueueLength)
      && m.maxQueueLength <= |cs|
  {
    RunMatchesSchedule(cs, rule);
    var f := ScheduleOf(cs);
    ScheduleSweepCounts(cs);
    PeakIsMostPresent(f, TimePoints(f), m.maxQueueLength);
  }

  /** The example run with interarrival samples 2 and 5 and service samples 3, 4 and 2:
      arrivals at 0, 2 and 7; the second customer waits for the first; the third arrives
      exactly when the second leaves and is served at once. */
  lemma {:induction false} ThreeCustomerScenario(cs: seq<Customer>)
    requires |cs| == 3
    requires IsGenerated(cs, [2.0, 5.0], [3.0, 4.0, 2.0])
    ensures var f := Run(Initial(cs), InsertionOrder).final;
      && Arrivals(f.customers) == [0.0, 2.0, 7.0]
      && Waits(f.customers) == [0.0, 1.0, 0.0]
      && Departures(f.customers) == [3.0, 7.0, 9.0]
      && f.currentTime == 9.0
  {
    var inter := [2.0, 5.0];
    assert inter[..0] == [] && inter[..1] == [2.0] && inter[..2] == inter;
    GeneratedWellFormed(cs, inter, [3.0, 4.0, 2.0]);
    RunMatchesSchedule(cs, InsertionOrder);
    ThreeCustomerSchedule(cs);
  }

  lemma {:induction false} ThreeCustomerSchedule(cs: seq<Customer>)
    requires |cs| == 3
    requires cs[0].arrivalTime == 0.0 && cs[1].arrivalTime == 2.0 && cs[2].arrivalTime == 7.0
    requires cs[0].serviceTime == 3.0 && cs[1].serviceTime == 4.0 && cs[2].serviceTime == 2.0
    ensures Arrivals(ScheduleOf(cs)) == [0.0, 2.0, 7.0]
    ensures Waits(ScheduleOf(cs)) == [0.0, 1.0, 0.0]
    ensures Departures(ScheduleOf(cs)) == [3.0, 7.0, 9.0]
    ensures Finish(cs, 2) == 9.0
  {
    assert Finish(cs, 0) == 3.0;
    assert Finish(cs, 1) == 7.0;
    assert Finish(cs, 2) == 9.0;
  }

  /** A single customer never waits, and the server is busy for the whole run. */
  lemma {:induction false} SingleCustomer(cs: seq<Customer>, inter: seq<real>, service: seq<real>, m: Report)
    requires |cs| == 1
    requires IsGenerated(cs, inter, service)
    requires InterarrivalsInRange(inter) && ServiceTimesInRange(service)
    requires var f := Run(Initial(cs), InsertionOrder).final;
      Summarizes(m, f.customers, TimePoints(f.customers), f.currentTime)
    ensures m.averageWaitingTime == 0.0 && m.maxWaitingTime == 0.0
    ensures m.serverUtilization == 1.0
  {
    assert inter[..0] == [];
    GeneratedWellFormed(cs, inter, service);
    RunMatchesSchedule(cs, InsertionOrder);
    var fin := Run(Initial(cs), InsertionOrder).final;
    AloneFigures(cs, fin.customers, m, fin.currentTime);
  }

  /** The report on the schedule of one customer who arrives at 0. */
  lemma {:induction false} AloneFigures(cs: seq<Customer>, f: seq<Customer>, m: Report, elapsed: real)
    requires |cs| == 1 && cs[0].arrivalTime == 0.0 && 0.0 < cs[0].serviceTime
    requires f == ScheduleOf(cs) && elapsed == Finish(cs, 0)
    requires Summarizes(m, f, TimePoints(f), elapsed)
    ensures m.averageWaitingTime == 0.0 && m.maxWaitingTime == 0.0
    ensures m.serverUtilization == 1.0
  {
    AloneNoWait(cs, m);
    AloneBusy(cs, f, m, elapsed);
  }

  lemma {:induction false} AloneNoWait(cs: seq<Customer>, m: Report)
    requires |cs| == 1
    requires TimeFigures(m.averageWaitingTime, m.maxWaitingTime, Waits(ScheduleOf(cs)))
    ensures m.averageWaitingTime == 0.0 && m.maxWaitingTime == 0.0
  {
    var waits := Waits(ScheduleOf(cs));
    assert waits == [0.0];
    assert Sum(waits) == 0.0;
    assert m.averageWaitingTime * 1.0 == 0.0;
  }

  lemma {:induction false} AloneBusy(cs: seq<Customer>, f: seq<Customer>, m: Report, elapsed: real)
    requires |cs| == 1 && cs[0].arrivalTime == 0.0 && 0.0 < cs[0].serviceTime
    requires f == ScheduleOf(cs) && elapsed == Finish(cs, 0)
    requires m.serverUtilization * elapsed == Sum(ServiceTimes(f))
    ensures m.serverUtilization == 1.0
  {
    var services := ServiceTimes(f);
    assert services == [cs[0].serviceTime];
    assert Sum(services) == cs[0].serviceTime;
    Cancel(m.serverUtilization, 1.0, elapsed);
  }

  /** A run over generated customers keeps the generated ids, arrivals and service
      times, stamps them in FIFO order, and ends at the last departure, after a positive
      time. */
  lemma {:induction false} RunOfGenerated(cs: seq<Customer>, inter: seq<real>, service: seq<real>, rule: TieBreak)
    requires IsGenerated(cs, inter, service)
    requires InterarrivalsInRange(inter) && ServiceTimesInRange(service)
    ensures var f := Run(Initial(cs), rule).final;
      && |f.customers| == |cs|
      && (forall i :: 0 <= i < |cs| ==>
            && f.customers[i].customerId == i + 1
            && f.customers[i].arrivalTime == Sum(inter[..i])
            && f.customers[i].serviceTime == service[i])
      && ServedInOrder(f.customers)
      && (|cs| > 0 ==>
            && f.currentTime == f.customers[|cs| - 1].departureTime
            && 0.0 < f.currentTime)
  {
    GeneratedWellFormed(cs, inter, service);
    RunServesInOrder(cs, rule);
    RunMatchesSchedule(cs, rule);
    if |cs| > 0 {
      ScheduleCausal(cs);
    }
  }

  /** The report on a run over generated customers: the bounds of `MetricsAfterRun`, and
      a maximum queue length of at most one per customer, since generated customers never
      arrive together. */
  lemma {:induction false} MetricsOfGenerated(cs: seq<Customer>, inter: seq<real>, service: seq<real>, m: Report)
    requires IsGenerated(cs, inter, service) && |cs| > 0
    requires InterarrivalsInRange(inter) && ServiceTimesInRange(service)
    requires var f := Run(Initial(cs), InsertionOrder).final;
      Summarizes(m, f.customers, TimePoints(f.customers), f.currentTime)
    ensures 0.0 <= m.averageWaitingTime <= m.maxWaitingTime
    ensures 0.0 < m.serverUtilization <= 1.0
    ensures 1 <= m.maxQueueLength <= |cs|
  {
    GeneratedWellFormed(cs, inter, service);
    MetricsAfterRun(cs, InsertionOrder, m);
    GeneratedArrivalsDistinct(cs, inter, service);
    QueueAfterRun(cs, InsertionOrder, m);
  }

  lemma GeneratedArrivalsDistinct(cs: seq<Customer>, inter: seq<real>, service: seq<real>)
    requires IsGenerated(cs, inter, service)
    requires InterarrivalsInRange(inter)
    ensures forall j, l :: 0 <= j < l < |cs| ==> cs[j].arrivalTime != cs[l].arrivalTime
  {
    ArrivalsIncreasing(cs, inter, service);
  }

  /** The program end to end: build `n` customers from the samples, run the event loop
      (ties broken in insertion order, as the loop's stable sort does), then compute the
      report from the finished customers and the final clock. */
  method Simulate(n: int, inter: seq<real>, service: seq<real>)
      returns (final: State, trace: seq<Event>, metrics: MetricsResult)
    requires EnoughSamples(n, inter, service)
    requires InterarrivalsInRange(inter) && ServiceTimesInRange(service)
    ensures var cs := final.customers;
      && |cs| == (if n <= 0 then 0 else n)
      && (forall i :: 0 <= i < |cs| ==>
            && cs[i].customerId == i + 1
            && cs[i].arrivalTime == Sum(inter[..i])
            && cs[i].serviceTime == service[i])
      && ServedInOrder(cs)
    ensures final.events == [] && final.queue == [] && !final.serverBusy
    ensures |trace| == 2 * |final.customers|
    ensures CountArrivals(trace) == |final.customers|
    ensures TimesNondecreasing(0.0, trace)
    ensures |final.customers| > 0 ==>
      final.currentTime == final.customers[|final.customers| - 1].departureTime
    ensures metrics.Failed? <==> n <= 0
    ensures metrics.Measured? ==>
      && Summarizes(metrics.report, final.customers, TimePoints(final.customers), final.currentTime)
      && 0.0 <= metrics.report.averageWaitingTime <= metrics.report.maxWaitingTime
      && 0.0 < metrics.report.serverUtilization <= 1.0
      && 1 <= metrics.report.maxQueueLength <= n
  {
    var cs := GenerateCustomers(n, inter, service);
    GeneratedWellFormed(cs, inter, service);
    var outcome := Run(Initial(cs), InsertionOrder);
    RunMatchesSchedule(cs, InsertionOrder);
    RunOfGenerated(cs, inter, service, InsertionOrder);
    final, trace := outcome.final, outcome.trace;
    metrics := CalculateMetrics(final.customers, final.currentTime);
    if metrics.Measured? {
      MetricsOfGenerated(cs, inter, service, metrics.report);
    }
  }
}
