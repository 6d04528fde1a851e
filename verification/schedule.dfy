/** The timetable a single FIFO server must produce, defined directly by recurrence and
    independently of any event list: customer `i` starts at its arrival or when customer
    `i - 1` leaves, whichever is later, and leaves after its service time. */
module Schedule {
  import opened Customers
  import opened RealSeqs

  function Max(a: real, b: real): real
  {
    if a < b then b else a
  }

  function Start(cs: seq<Customer>, i: nat): real
    requires i < |cs|
    decreases i, 0
  {
    if i == 0 then cs[0].arrivalTime else Max(cs[i].arrivalTime, Finish(cs, i - 1))
  }

  function Finish(cs: seq<Customer>, i: nat): real
    requires i < |cs|
    decreases i, 1
  {
    Start(cs, i) + cs[i].serviceTime
  }

  /** Customer `i` with the scheduled timestamps filled in. */
  function Scheduled(cs: seq<Customer>, i: nat): Customer
    requires i < |cs|
  {
    cs[i].(serviceStartTime := Start(cs, i), departureTime := Finish(cs, i))
  }

  function ScheduleOf(cs: seq<Customer>): (r: seq<Customer>)
    ensures |r| == |cs|
    ensures forall i :: 0 <= i < |cs| ==> r[i] == Scheduled(cs, i)
  {
    seq(|cs|, i requires 0 <= i < |cs| => Scheduled(cs, i))
  }

  /** Causality: nobody is served before arriving, service lasts exactly the service time,
      and (for a well-formed arena) everybody leaves at a positive time. */
  lemma ScheduleCausal(cs: seq<Customer>)
    requires WellFormed(cs)
    ensures forall i :: 0 <= i < |cs| ==>
      && cs[i].arrivalTime <= Start(cs, i)
      && Finish(cs, i) == Start(cs, i) + cs[i].serviceTime
      && Start(cs, i) < Finish(cs, i)
      && 0.0 < Finish(cs, i)
  {
  }

  /** Single server, FIFO: a later customer starts no earlier than every earlier customer
      has left, so service intervals never overlap and starts come in customer order. */
  lemma {:induction false} ScheduleSingleServer(cs: seq<Customer>, i: nat, j: nat)
    requires WellFormed(cs)
    requires i < j < |cs|
    ensures Finish(cs, i) <= Start(cs, j)
    ensures Start(cs, i) < Start(cs, j)
    decreases j - i
  {
    if i + 1 < j {
      ScheduleSingleServer(cs, i + 1, j);
    }
  }

  /** The server's busy time up to the departure of customer `i` (the sum of the first
      `i + 1` service times) fits before that departure. */
  lemma {:induction false} BusyTimeFits(cs: seq<Customer>, i: nat)
    requires WellFormed(cs)
    requires i < |cs|
    ensures Sum(ServiceTimes(cs)[..i + 1]) <= Finish(cs, i)
  {
    SumPrefixStep(ServiceTimes(cs), i);
    if i > 0 {
      BusyTimeFits(cs, i - 1);
    }
  }

  /** The timestamps a single FIFO server gives: the first customer is served on arrival,
      every later one when it arrives or when the one before it leaves, whichever is
      later, and everybody leaves once their service time has passed. */
  ghost predicate ServedInOrder(cs: seq<Customer>)
  {
    && (|cs| > 0 ==> cs[0].serviceStartTime == cs[0].arrivalTime)
    && (forall i :: 0 < i < |cs| ==>
          cs[i].serviceStartTime == Max(cs[i].arrivalTime, cs[i - 1].departureTime))
    && (forall i :: 0 <= i < |cs| ==>
          cs[i].departureTime == cs[i].serviceStartTime + cs[i].serviceTime)
  }

  /** Filling in the schedule keeps every customer's own fields and stamps them in FIFO
      order. */
  lemma ScheduleServedInOrder(cs: seq<Customer>)
    ensures forall i :: 0 <= i < |cs| ==>
      && ScheduleOf(cs)[i].customerId == cs[i].customerId
      && ScheduleOf(cs)[i].arrivalTime == cs[i].arrivalTime
      && ScheduleOf(cs)[i].serviceTime == cs[i].serviceTime
    ensures ServedInOrder(ScheduleOf(cs))
  {
  }

  /** In the schedule nobody waits a negative time and everybody spends longer in the
      bank than in the queue. */
  lemma ScheduleWaitsBelowSystemTimes(cs: seq<Customer>)
    requires WellFormed(cs)
    ensures forall i :: 0 <= i < |cs| ==>
      0.0 <= Waits(ScheduleOf(cs))[i] < SystemTimes(ScheduleOf(cs))[i]
  {
    ScheduleCausal(cs);
  }

  /** The schedule keeps the (positive) service times, and all of them together fit
      before the last departure. */
  lemma ScheduleBusyTime(cs: seq<Customer>)
    requires WellFormed(cs) && |cs| > 0
    ensures forall i :: 0 <= i < |cs| ==> 0.0 < ServiceTimes(ScheduleOf(cs))[i]
    ensures Sum(ServiceTimes(ScheduleOf(cs))) <= Finish(cs, |cs| - 1)
  {
    BusyTimeFits(cs, |cs| - 1);
    assert ServiceTimes(cs)[..|cs|] == ServiceTimes(cs) == ServiceTimes(ScheduleOf(cs));
  }
}
