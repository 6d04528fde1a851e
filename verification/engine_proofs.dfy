/** What a run of the event loop computes. The invariant `InvAt(cs, s, k, d)` describes
    the state after the first `k` arrivals and the first `d` departures have been
    processed: customers `0 .. d-1` are done, customer `d` is in service when `d < k`,
    customers `d+1 .. k-1` wait in the queue in arrival order, and the rest have not
    arrived. Every step keeps it with `k` or `d` one larger, so a run processes exactly
    `2 * |cs|` events and ends with every customer stamped as the reference schedule says. */
module EngineProofs {
  import opened Customers
  import opened EventList
  import opened Engine
  import opened Schedule

  /** The indices `lo, lo + 1, ..., hi - 1`. */
  function Range(lo: nat, hi: nat): (r: seq<nat>)
    requires lo <= hi
    ensures |r| == hi - lo
    ensures forall j :: 0 <= j < |r| ==> r[j] == lo + j
  {
    seq(hi - lo, j requires 0 <= j < hi - lo => lo + j)
  }

  /** The departure event of customer `d` at its scheduled departure time. */
  function DepartureOf(cs: seq<Customer>, d: nat): Event
    requires d < |cs|
  {
    Event(Departure, Finish(cs, d), d)
  }

  /** The record of customer `i` after `k` arrivals and `d` departures. */
  function Expected(cs: seq<Customer>, k: nat, d: nat, i: nat): Customer
    requires i < |cs|
  {
    if i < d then Scheduled(cs, i)
    else if i == d && d < k then cs[i].(serviceStartTime := Start(cs, i))
    else cs[i]
  }

  ghost predicate InvAt(cs: seq<Customer>, s: State, k: nat, d: nat)
  {
    && d <= k <= |cs|
    && |s.customers| == |cs|
    && Valid(s)
    && (s.serverBusy <==> d < k)
    && s.queue == (if d < k then Range(d + 1, k) else [])
    && s.events == ArrivalEvents(cs, k) + (if d < k then [DepartureOf(cs, d)] else [])
    && (forall i :: 0 <= i < |cs| ==> s.customers[i] == Expected(cs, k, d, i))
    // every pending event lies in the future of the clock
    && (k < |cs| ==> s.currentTime <= cs[k].arrivalTime)
    && (d < k ==> s.currentTime <= Finish(cs, d))
    // every processed event lies in its past
    && (0 < k ==> cs[k - 1].arrivalTime <= s.currentTime)
    && (0 < d ==> Finish(cs, d - 1) <= s.currentTime)
    // and the clock stands at the last processed event
    && (k == 0 ==> s.currentTime == 0.0)
    && (0 < k ==> s.currentTime == cs[k - 1].arrivalTime || (0 < d && s.currentTime == Finish(cs, d - 1)))
  }

  /** The loop starts in the invariant with nothing processed. */
  lemma {:induction false} InitialInv(cs: seq<Customer>)
    requires WellFormed(cs)
    ensures InvAt(cs, Initial(cs), 0, 0)
  {
    var s := Initial(cs);
    assert s.events == ArrivalEvents(cs, 0) + [];
    forall i | 0 <= i < |cs|
      ensures s.customers[i] == Expected(cs, 0, 0, i)
    {
    }
  }

  /** Taking the first arrival off the list leaves the arrivals of the later customers. */
  lemma {:induction false} RemoveFirstArrival(cs: seq<Customer>, k: nat, tail: seq<Event>)
    requires k < |cs|
    ensures Remove(ArrivalEvents(cs, k) + tail, 0) == ArrivalEvents(cs, k + 1) + tail
  {
    var es := ArrivalEvents(cs, k) + tail;
    assert Remove(es, 0) == es[1..];
    assert es[1..] == ArrivalEvents(cs, k + 1) + tail;
  }

  /** What one step does when the next event is a departure. */
  lemma {:induction false} StepDeparture(s: State, rule: TieBreak)
    requires Valid(s) && |s.events| > 0
    requires NextEvent(s, rule).kind == Departure
    ensures var r := Pick(s.events, rule);
      var e := s.events[r];
      var done := s.customers[e.who := s.customers[e.who].(departureTime := e.time)];
      Step(s, rule) ==
        if |s.queue| > 0 then
          State(e.time, s.serverBusy, s.queue[1..],
                Remove(s.events, r) + [Event(Departure, e.time + done[s.queue[0]].serviceTime, s.queue[0])],
                done[s.queue[0] := done[s.queue[0]].(serviceStartTime := e.time)])
        else
          State(e.time, false, s.queue, Remove(s.events, r), done)
  {
  }
  /** What one step does when the next event is an arrival. */
  lemma {:induction false} StepArrival(s: State, rule: TieBreak)
    requires Valid(s) && |s.events| > 0
    requires NextEvent(s, rule).kind == Arrival
    ensures var r := Pick(s.events, rule);
      var e := s.events[r];
      Step(s, rule) ==
        if !s.serverBusy then
          State(e.time, true, s.queue,
                Remove(s.events, r) + [Event(Departure, e.time + s.customers[e.who].serviceTime, e.who)],
                s.customers[e.who := s.customers[e.who].(serviceStartTime := e.time)])
        else
          State(e.time, true, s.queue + [e.who], Remove(s.events, r), s.customers)
  {
  }

  /** An arrival that finds the server idle starts service at once, at its scheduled start. */
  lemma {:induction false} ArrivalWhileIdle(cs: seq<Customer>, s: State, k: nat, rule: TieBreak)
    requires WellFormed(cs)
    requires InvAt(cs, s, k, k)
    requires k < |cs|
    requires Pick(s.events, rule) == 0
    ensures InvAt(cs, Step(s, rule), k + 1, k)
    ensures s.currentTime <= Step(s, rule).currentTime
  {
    var t := cs[k].arrivalTime;
    assert Start(cs, k) == t by {
      if k > 0 {
        assert Finish(cs, k - 1) <= t;
      }
    }
    ArrivalWhileIdleState(cs, s, k, rule);
    StartedArrivalInv(cs, s, k, Step(s, rule));
  }

  /** Starting customer `k` at once on an idle server keeps the invariant. */
  lemma {:induction false} StartedArrivalInv(cs: seq<Customer>, s: State, k: nat, s2: State)
    requires WellFormed(cs)
    requires InvAt(cs, s, k, k)
    requires k < |cs|
    requires Start(cs, k) == cs[k].arrivalTime
    requires s2 == State(cs[k].arrivalTime, true, [], ArrivalEvents(cs, k + 1) + [DepartureOf(cs, k)],
                    s.customers[k := cs[k].(serviceStartTime := cs[k].arrivalTime)])
    ensures InvAt(cs, s2, k + 1, k)
    ensures s.currentTime <= s2.currentTime
  {
    assert s2.queue == Range(k + 1, k + 1);
    forall i | 0 <= i < |cs|
      ensures s2.customers[i] == Expected(cs, k + 1, k, i)
    {
    }
  }

  /** The state after an arrival that finds the server idle. */
  lemma {:induction false} ArrivalWhileIdleState(cs: seq<Customer>, s: State, k: nat, rule: TieBreak)
    requires WellFormed(cs)
    requires InvAt(cs, s, k, k)
    requires k < |cs|
    requires Pick(s.events, rule) == 0
    requires Start(cs, k) == cs[k].arrivalTime
    ensures Step(s, rule) == State(cs[k].arrivalTime, true, [], ArrivalEvents(cs, k + 1) + [DepartureOf(cs, k)],
                    s.customers[k := cs[k].(serviceStartTime := cs[k].arrivalTime)])
  {
    var t := cs[k].arrivalTime;
    assert s.events == ArrivalEvents(cs, k) + [];
    assert s.events[0] == Event(Arrival, t, k);
    RemoveFirstArrival(cs, k, []);
    assert s.customers[k] == cs[k];
    StepArrival(s, rule);
  }

  /** An arrival that finds the server busy joins the tail of the queue. */
  lemma {:induction false} ArrivalWhileBusy(cs: seq<Customer>, s: State, k: nat, d: nat, rule: TieBreak)
    requires WellFormed(cs)
    requires InvAt(cs, s, k, d)
    requires d < k < |cs|
    requires Pick(s.events, rule) == 0
    ensures InvAt(cs, Step(s, rule), k + 1, d)
    ensures s.currentTime <= Step(s, rule).currentTime
  {
    var t := cs[k].arrivalTime;
    var es := s.events;
    assert es[0] == Event(Arrival, t, k);
    assert es[|es| - 1] == DepartureOf(cs, d);
    PickIsEarliest(es, rule);
    ArrivalWhileBusyState(cs, s, k, d, rule);
    QueuedArrivalInv(cs, s, k, d, Step(s, rule));
  }

  /** Queueing customer `k` behind customer `d` in service keeps the invariant. */
  lemma {:induction false} QueuedArrivalInv(cs: seq<Customer>, s: State, k: nat, d: nat, s2: State)
    requires WellFormed(cs)
    requires InvAt(cs, s, k, d)
    requires d < k < |cs|
    requires cs[k].arrivalTime <= Finish(cs, d)
    requires s2 == s.(currentTime := cs[k].arrivalTime, queue := Range(d + 1, k) + [k],
      events := ArrivalEvents(cs, k + 1) + [DepartureOf(cs, d)])
    ensures InvAt(cs, s2, k + 1, d)
    ensures s.currentTime <= s2.currentTime
  {
    assert s2.queue == Range(d + 1, k + 1);
    forall i | 0 <= i < |cs|
      ensures s2.customers[i] == Expected(cs, k + 1, d, i)
    {
    }
  }

  /** The state after an arrival that finds the server busy. */
  lemma {:induction false} ArrivalWhileBusyState(cs: seq<Customer>, s: State, k: nat, d: nat, rule: TieBreak)
    requires WellFormed(cs)
    requires InvAt(cs, s, k, d)
    requires d < k < |cs|
    requires Pick(s.events, rule) == 0
    ensures Step(s, rule) == s.(currentTime := cs[k].arrivalTime, queue := Range(d + 1, k) + [k],
      events := ArrivalEvents(cs, k + 1) + [DepartureOf(cs, d)])
  {
    var es := s.events;
    assert es[0] == Event(Arrival, cs[k].arrivalTime, k);
    RemoveFirstArrival(cs, k, [DepartureOf(cs, d)]);
    StepArrival(s, rule);
  }

  /** The departure picked next is due no later than the next arrival. */
  lemma {:induction false} DepartureDueFirst(cs: seq<Customer>, s: State, k: nat, d: nat, rule: TieBreak)
    requires InvAt(cs, s, k, d)
    requires d < k
    requires Pick(s.events, rule) == |s.events| - 1
    ensures k < |cs| ==> Finish(cs, d) <= cs[k].arrivalTime
  {
    var es := s.events;
    assert es[|es| - 1] == DepartureOf(cs, d);
    PickIsEarliest(es, rule);
    if k < |cs| {
      assert es[0] == Event(Arrival, cs[k].arrivalTime, k);
    }
  }

  /** A departure with customers queueing stamps the leaving customer with its scheduled
      departure and starts the head of the queue at its scheduled start. */
  lemma {:induction false} DepartureServesNext(cs: seq<Customer>, s: State, k: nat, d: nat, rule: TieBreak)
    requires WellFormed(cs)
    requires InvAt(cs, s, k, d)
    requires d + 1 < k
    requires Pick(s.events, rule) == |s.events| - 1
    ensures InvAt(cs, Step(s, rule), k, d + 1)
    ensures s.currentTime <= Step(s, rule).currentTime
  {
    DepartureDueFirst(cs, s, k, d, rule);
    assert cs[d + 1].arrivalTime <= cs[k - 1].arrivalTime;
    assert Start(cs, d + 1) == Finish(cs, d);
    QueuedDeparture(cs, s, k, d);
    StepDepartureQueued(s, rule, d, d + 1);
    ServedNextState(cs, s, k, d, Step(s, rule));
    ServedNextInv(cs, s, k, d, Step(s, rule));
  }

  /** Finishing customer `d` and starting customer `d + 1` from the queue keeps the
      invariant. */
  lemma {:induction false} ServedNextInv(cs: seq<Customer>, s: State, k: nat, d: nat, s2: State)
    requires WellFormed(cs)
    requires InvAt(cs, s, k, d)
    requires d + 1 < k
    requires Start(cs, d + 1) == Finish(cs, d)
    requires k < |cs| ==> Finish(cs, d) <= cs[k].arrivalTime
    requires s2 == State(Finish(cs, d), true, Range(d + 2, k),
      ArrivalEvents(cs, k) + [DepartureOf(cs, d + 1)],
      s.customers[d := Scheduled(cs, d)][d + 1 := cs[d + 1].(serviceStartTime := Finish(cs, d))])
    ensures InvAt(cs, s2, k, d + 1)
    ensures s.currentTime <= s2.currentTime
  {
    forall i | 0 <= i < |cs|
      ensures s2.customers[i] == Expected(cs, k, d + 1, i)
    {
    }
  }

  /** A departure with nobody queueing stamps the leaving customer and idles the server. */
  lemma {:induction false} DepartureIdles(cs: seq<Customer>, s: State, k: nat, d: nat, rule: TieBreak)
    requires WellFormed(cs)
    requires InvAt(cs, s, k, d)
    requires d + 1 == k
    requires Pick(s.events, rule) == |s.events| - 1
    ensures InvAt(cs, Step(s, rule), k, d + 1)
    ensures s.currentTime <= Step(s, rule).currentTime
  {
    DepartureDueFirst(cs, s, k, d, rule);
    DepartureIdlesState(cs, s, k, d, rule);
    IdledInv(cs, s, k, d, Step(s, rule));
  }

  /** Finishing the last customer who has arrived and idling the server keeps the
      invariant. */
  lemma {:induction false} IdledInv(cs: seq<Customer>, s: State, k: nat, d: nat, s2: State)
    requires WellFormed(cs)
    requires InvAt(cs, s, k, d)
    requires d + 1 == k
    requires k < |cs| ==> Finish(cs, d) <= cs[k].arrivalTime
    requires s2 == State(Finish(cs, d), false, [], ArrivalEvents(cs, k) + [],
      s.customers[d := Scheduled(cs, d)])
    ensures InvAt(cs, s2, k, d + 1)
    ensures s.currentTime <= s2.currentTime
  {
    forall i | 0 <= i < |cs|
      ensures s2.customers[i] == Expected(cs, k, d + 1, i)
    {
    }
  }

  /** The departure of customer `d` at its scheduled time, with customer `d + 1` taken
      from the head of the queue, in the invariant's terms. */
  lemma {:induction false} ServedNextState(cs: seq<Customer>, s: State, k: nat, d: nat, s2: State)
    requires InvAt(cs, s, k, d)
    requires d + 1 < k
    requires |s.queue| > 0 && |s.events| > 0 && d + 1 < |s.customers|
    requires var t := s.events[|s.events| - 1].time;
      s2 == State(t, s.serverBusy, s.queue[1..],
        Remove(s.events, |s.events| - 1) + [Event(Departure, t + s.customers[d + 1].serviceTime, d + 1)],
        s.customers[d := s.customers[d].(departureTime := t)][d + 1 := s.customers[d + 1].(serviceStartTime := t)])
    requires Start(cs, d + 1) == Finish(cs, d)
    ensures s2 == State(Finish(cs, d), true, Range(d + 2, k),
      ArrivalEvents(cs, k) + [DepartureOf(cs, d + 1)],
      s.customers[d := Scheduled(cs, d)][d + 1 := cs[d + 1].(serviceStartTime := Finish(cs, d))])
  {
    QueuedDeparture(cs, s, k, d);
  }

  /** What the invariant says about the state while customer `d` is being served and
      customer `d + 1` heads the queue. */
  lemma {:induction false} QueuedDeparture(cs: seq<Customer>, s: State, k: nat, d: nat)
    requires InvAt(cs, s, k, d)
    requires d + 1 < k
    ensures |s.events| > 0 && s.events[|s.events| - 1] == DepartureOf(cs, d)
    ensures Remove(s.events, |s.events| - 1) == ArrivalEvents(cs, k)
    ensures s.serverBusy && |s.queue| > 0 && s.queue[0] == d + 1
    ensures s.queue[1..] == Range(d + 2, k)
    ensures s.customers[d] == cs[d].(serviceStartTime := Start(cs, d))
    ensures s.customers[d + 1] == cs[d + 1]
  {
    var es := s.events;
    assert es[|es| - 1] == DepartureOf(cs, d);
    assert Remove(es, |es| - 1) == ArrivalEvents(cs, k);
    assert s.customers[d] == Expected(cs, k, d, d);
    assert s.customers[d + 1] == Expected(cs, k, d, d + 1);
    assert s.queue[1..] == Range(d + 2, k);
  }

  /** A departure of customer `who` while customer `next` heads the queue. */
  lemma {:induction false} StepDepartureQueued(s: State, rule: TieBreak, who: nat, next: nat)
    requires Valid(s) && |s.events| > 0
    requires Pick(s.events, rule) == |s.events| - 1
    requires s.events[|s.events| - 1].kind == Departure && s.events[|s.events| - 1].who == who
    requires |s.queue| > 0 && s.queue[0] == next && who != next
    ensures var t := s.events[|s.events| - 1].time;
      Step(s, rule) == State(t, s.serverBusy, s.queue[1..],
        Remove(s.events, |s.events| - 1) + [Event(Departure, t + s.customers[next].serviceTime, next)],
        s.customers[who := s.customers[who].(departureTime := t)][next := s.customers[next].(serviceStartTime := t)])
  {
    StepDeparture(s, rule);
  }

  /** The state after a departure that leaves nobody queueing. */
  lemma {:induction false} DepartureIdlesState(cs: seq<Customer>, s: State, k: nat, d: nat, rule: TieBreak)
    requires WellFormed(cs)
    requires InvAt(cs, s, k, d)
    requires d + 1 == k
    requires Pick(s.events, rule) == |s.events| - 1
    ensures Step(s, rule) == State(Finish(cs, d), false, [], ArrivalEvents(cs, k) + [],
      s.customers[d := Scheduled(cs, d)])
  {
    var es := s.events;
    var t := Finish(cs, d);
    assert es[|es| - 1] == DepartureOf(cs, d);
    assert Remove(es, |es| - 1) == ArrivalEvents(cs, k) + [];
    StepDeparture(s, rule);
    assert s.customers[d] == cs[d].(serviceStartTime := Start(cs, d));
    assert s.queue == [];
  }

  /** Every step keeps the invariant, with one more arrival or one more departure
      processed, and never moves the clock backwards. */
  lemma {:induction false} StepInv(cs: seq<Customer>, s: State, k: nat, d: nat, rule: TieBreak)
    returns (k': nat, d': nat)
    requires WellFormed(cs)
    requires InvAt(cs, s, k, d)
    requires |s.events| > 0
    ensures (k' == k + 1 && d' == d) || (k' == k && d' == d + 1)
    ensures InvAt(cs, Step(s, rule), k', d')
    ensures s.currentTime <= Step(s, rule).currentTime
  {
    var r := PickedEvent(cs, s, k, d, rule);
    var arrival := r == 0 && k < |cs|;
    k', d' := if arrival then k + 1 else k, if arrival then d else d + 1;
    if arrival {
      if d < k {
        ArrivalWhileBusy(cs, s, k, d, rule);
      } else {
        IdleInv(cs, s, k, d);
        ArrivalWhileIdle(cs, s, k, rule);
      }
    } else if d + 1 < k {
      DepartureServesNext(cs, s, k, d, rule);
    } else {
      DepartureIdles(cs, s, k, d, rule);
    }
  }

  /** With as many departures as arrivals processed, nobody is in the bank. */
  lemma IdleInv(cs: seq<Customer>, s: State, k: nat, d: nat)
    requires InvAt(cs, s, k, d)
    requires k <= d
    ensures d == k && InvAt(cs, s, k, k)
  {
  }

  /** The loop takes either the next customer's arrival, at the head of the list, or the
      pending departure, at its end: never a later arrival, which is no earlier than the
      next one. */
  lemma {:induction false} PickedEvent(cs: seq<Customer>, s: State, k: nat, d: nat, rule: TieBreak)
    returns (r: nat)
    requires WellFormed(cs)
    requires InvAt(cs, s, k, d)
    requires |s.events| > 0
    ensures r == Pick(s.events, rule)
    ensures (r == 0 && k < |cs|) || (d < k && r == |s.events| - 1)
  {
    var es := s.events;
    var arrivals := ArrivalEvents(cs, k);
    r := Pick(es, rule);
    if r < |arrivals| && r > 0 {
      assert Before(es[r], es[0], rule);
      ArrivalsOrderedByTime(es[r], es[0], rule);
      assert false;
    }
  }

  /** The clock readings of processed events, starting from `t0`, never go backwards. */
  ghost predicate TimesNondecreasing(t0: real, trace: seq<Event>)
  {
    && (forall i :: 0 <= i < |trace| ==> t0 <= trace[i].time)
    && (forall i, j :: 0 <= i <= j < |trace| ==> trace[i].time <= trace[j].time)
  }

  /** An event list that has run dry means every arrival and departure was processed. */
  lemma {:induction false} InvDone(cs: seq<Customer>, s: State, k: nat, d: nat)
    requires InvAt(cs, s, k, d)
    requires |s.events| == 0
    ensures k == |cs| && d == k
  {
    assert |ArrivalEvents(cs, k)| == 0;
  }

  /** A non-empty run is one step followed by the run from the next state. */
  lemma {:induction false} RunUnfold(s: State, rule: TieBreak)
    requires Valid(s) && |s.events| > 0
    ensures Run(s, rule).final == Run(Step(s, rule), rule).final
    ensures Run(s, rule).trace == [NextEvent(s, rule)] + Run(Step(s, rule), rule).trace
    ensures NextEvent(s, rule).time == Step(s, rule).currentTime
  {
  }

  lemma {:induction false} TimesCons(t0: real, e: Event, trace: seq<Event>)
    requires t0 <= e.time
    requires TimesNondecreasing(e.time, trace)
    ensures TimesNondecreasing(t0, [e] + trace)
  {
  }

  /** Running from a state in the invariant ends with every arrival and every departure
      processed, and processes events in non-decreasing time order. */
  lemma {:induction false} RunInv(cs: seq<Customer>, s: State, k: nat, d: nat, rule: TieBreak)
    requires WellFormed(cs)
    requires InvAt(cs, s, k, d)
    ensures InvAt(cs, Run(s, rule).final, |cs|, |cs|)
    ensures TimesNondecreasing(s.currentTime, Run(s, rule).trace)
    decreases Measure(s)
  {
    if |s.events| == 0 {
      InvDone(cs, s, k, d);
    } else {
      var s' := Step(s, rule);
      var k', d' := StepInv(cs, s, k, d, rule);
      RunInv(cs, s', k', d', rule);
      RunUnfold(s, rule);
      TimesCons(s.currentTime, NextEvent(s, rule), Run(s', rule).trace);
    }
  }

  /** A state in the invariant has the server busy exactly when one departure is pending,
      never more than one departure pending, and customers queue only behind a busy server. */
  lemma {:induction false} BusyIffDeparturePending(cs: seq<Customer>, s: State, k: nat, d: nat)
    requires InvAt(cs, s, k, d)
    ensures |s.events| - CountArrivals(s.events) <= 1
    ensures s.serverBusy <==> |s.events| - CountArrivals(s.events) == 1
    ensures |s.queue| > 0 ==> s.serverBusy
  {
    var tail := if d < k then [DepartureOf(cs, d)] else [];
    CountArrivalsAppend(ArrivalEvents(cs, k), tail);
    CountArrivalEvents(cs, k);
    if d < k {
      assert CountArrivals(tail) == CountArrivals(tail[1..]);
    }
  }

  /** Every state the loop passes through satisfies the invariant, and the clock only
      moves forward from one iteration to the next. */
  lemma {:induction false} StepsInv(cs: seq<Customer>, rule: TieBreak, m: nat) returns (k: nat, d: nat)
    requires WellFormed(cs)
    ensures InvAt(cs, Steps(Initial(cs), rule, m), k, d)
  {
    if m == 0 {
      InitialInv(cs);
      k, d := 0, 0;
    } else {
      var k0, d0 := StepsInv(cs, rule, m - 1);
      var p := Steps(Initial(cs), rule, m - 1);
      if |p.events| == 0 {
        k, d := k0, d0;
      } else {
        k, d := StepInv(cs, p, k0, d0, rule);
      }
    }
  }

  /** What holds at every iteration of the loop: at most one departure is pending, the
      server is busy exactly when one is, a customer waits only while the server is busy,
      and the next iteration does not move the clock backwards. */
  lemma {:induction false} LoopInvariant(cs: seq<Customer>, rule: TieBreak, m: nat)
    requires WellFormed(cs)
    ensures var s := Steps(Initial(cs), rule, m);
      && |s.events| - CountArrivals(s.events) <= 1
      && (s.serverBusy <==> |s.events| - CountArrivals(s.events) == 1)
      && (|s.queue| > 0 ==> s.serverBusy)
      && s.currentTime <= Steps(Initial(cs), rule, m + 1).currentTime
  {
    var s := Steps(Initial(cs), rule, m);
    var k, d := StepsInv(cs, rule, m);
    BusyIffDeparturePending(cs, s, k, d);
    if |s.events| > 0 {
      var k1, d1 := StepInv(cs, s, k, d, rule);
    }
  }

  /** The main theorem: a complete run from the initial state processes exactly one
      arrival and one departure per customer in non-decreasing time order, stops with no
      pending event, an empty queue and an idle server, leaves every customer with the
      timestamps of the FIFO single-server schedule, and stops the clock at the last
      departure. It holds for either tie-break rule. */
  lemma {:induction false} RunMatchesSchedule(cs: seq<Customer>, rule: TieBreak)
    requires WellFormed(cs)
    ensures var r := Run(Initial(cs), rule);
      && r.final.customers == ScheduleOf(cs)
      && r.final.events == []
      && r.final.queue == []
      && !r.final.serverBusy
      && |r.trace| == 2 * |cs|
      && CountArrivals(r.trace) == |cs|
      && TimesNondecreasing(0.0, r.trace)
      && (|cs| > 0 ==> r.final.currentTime == Finish(cs, |cs| - 1))
  {
    InitialInv(cs);
    RunInv(cs, Initial(cs), 0, 0, rule);
    FinalState(cs, Run(Initial(cs), rule).final);
  }

  /** The state in which every arrival and departure has been processed holds the
      reference schedule, has nothing pending and shows the last departure on the clock. */
  lemma {:induction false} FinalState(cs: seq<Customer>, f: State)
    requires WellFormed(cs)
    requires InvAt(cs, f, |cs|, |cs|)
    ensures f.customers == ScheduleOf(cs)
    ensures f.events == [] && f.queue == [] && !f.serverBusy
    ensures Measure(f) == 0
    ensures |cs| > 0 ==> f.currentTime == Finish(cs, |cs| - 1)
  {
    var n := |cs|;
    assert f.events == ArrivalEvents(cs, n) + [];
    assert forall i :: 0 <= i < n ==> f.customers[i] == Scheduled(cs, i);
    if n > 0 {
      ScheduleCausal(cs);
    }
  }

  /** Breaking ties departures-first instead of in insertion order, as the loop does,
      stamps every customer identically. */
  lemma {:induction false} TieBreakIrrelevant(cs: seq<Customer>)
    requires WellFormed(cs)
    ensures Run(Initial(cs), InsertionOrder).final.customers
         == Run(Initial(cs), DeparturesFirst).final.customers
  {
    RunMatchesSchedule(cs, InsertionOrder);
    RunMatchesSchedule(cs, DeparturesFirst);
  }
}
