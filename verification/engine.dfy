/** The discrete-event loop of the bank simulation: an immutable state and a pure step
    that pops the earliest event, advances the clock to it and dispatches to the arrival
    or departure handler. */
module Engine {
  import opened Customers
  import opened EventList

  /** Simulation state. The queue and the events hold indices into `customers`. */
  datatype State = State(
    currentTime: real,
    serverBusy: bool,
    queue: seq<nat>,
    events: seq<Event>,
    customers: seq<Customer>)

  /** Final state of a run and the events it processed, in processing order. */
  datatype Outcome = Outcome(final: State, trace: seq<Event>)

  /** Every index held by the queue or by an event names a customer. */
  predicate Valid(s: State)
  {
    && (forall j :: 0 <= j < |s.events| ==> s.events[j].who < |s.customers|)
    && (forall j :: 0 <= j < |s.queue| ==> s.queue[j] < |s.customers|)
  }

  /** Events still to be processed: two per pending arrival (its own and the later
      departure), one per queued customer and one per pending departure. */
  function Measure(s: State): nat
  {
    |s.events| + CountArrivals(s.events) + |s.queue|
  }

  /** One arrival event per customer from index `k` on, in customer order. */
  function ArrivalEvents(cs: seq<Customer>, k: nat): (es: seq<Event>)
    requires k <= |cs|
    ensures |es| == |cs| - k
    ensures forall j :: 0 <= j < |es| ==> es[j].kind == Arrival && es[j].who == k + j
  {
    seq(|cs| - k, j requires 0 <= j < |cs| - k => Event(Arrival, cs[k + j].arrivalTime, k + j))
  }

  lemma {:induction false} CountArrivalEvents(cs: seq<Customer>, k: nat)
    requires k <= |cs|
    ensures CountArrivals(ArrivalEvents(cs, k)) == |cs| - k
    decreases |cs| - k
  {
    if k < |cs| {
      assert ArrivalEvents(cs, k)[1..] == ArrivalEvents(cs, k + 1);
      CountArrivalEvents(cs, k + 1);
    }
  }

  /** The state before the loop: clock at 0, server idle, empty queue, one arrival event
      per customer in customer order. */
  function Initial(cs: seq<Customer>): (s: State)
    ensures Valid(s)
    ensures Measure(s) == 2 * |cs|
    ensures CountArrivals(s.events) == |cs|
  {
    CountArrivalEvents(cs, 0);
    State(0.0, false, [], ArrivalEvents(cs, 0), cs)
  }

  /** Customer `c` arrives at the current time: an idle server starts serving it and
      schedules its departure, a busy one leaves it at the tail of the queue. */
  function HandleArrival(s: State, c: nat): (r: State)
    requires Valid(s) && c < |s.customers|
    ensures Valid(r)
    ensures Measure(r) == Measure(s) + 1
    ensures CountArrivals(r.events) == CountArrivals(s.events)
    ensures r.currentTime == s.currentTime && r.serverBusy
    ensures |r.customers| == |s.customers|
    ensures forall i :: 0 <= i < |s.customers| && i != c ==> r.customers[i] == s.customers[i]
    ensures !s.serverBusy ==>
      && r.customers[c].serviceStartTime == s.currentTime
      && r.events == s.events + [Event(Departure, s.currentTime + s.customers[c].serviceTime, c)]
      && r.queue == s.queue
    ensures s.serverBusy ==>
      r.customers == s.customers && r.events == s.events && r.queue == s.queue + [c]
  {
    if !s.serverBusy then
      var cust := s.customers[c];
      var departure := Event(Departure, s.currentTime + cust.serviceTime, c);
      CountArrivalsAppend(s.events, [departure]);
      s.(serverBusy := true,
         customers := s.customers[c := cust.(serviceStartTime := s.currentTime)],
         events := s.events + [departure])
    else
      s.(queue := s.queue + [c])
  }

  /** Customer `c` leaves at the current time: the head of the queue, if any, starts
      service and has its departure scheduled; otherwise the server goes idle. */
  function HandleDeparture(s: State, c: nat): (r: State)
    requires Valid(s) && c < |s.customers|
    ensures Valid(r)
    ensures Measure(r) == Measure(s)
    ensures CountArrivals(r.events) == CountArrivals(s.events)
    ensures r.currentTime == s.currentTime
    ensures |r.customers| == |s.customers|
    ensures r.customers[c].departureTime == s.currentTime
    ensures r.serverBusy == (s.serverBusy && |s.queue| > 0)
    ensures |s.queue| > 0 ==>
      && r.customers[s.queue[0]].serviceStartTime == s.currentTime
      && r.events == s.events + [Event(Departure, s.currentTime + s.customers[s.queue[0]].serviceTime, s.queue[0])]
      && r.queue == s.queue[1..]
    ensures |s.queue| == 0 ==> r.events == s.events && r.queue == s.queue
  {
    var s1 := s.(customers := s.customers[c := s.customers[c].(departureTime := s.currentTime)]);
    if |s1.queue| > 0 then
      var next := s1.queue[0];
      var cust := s1.customers[next];
      var departure := Event(Departure, s1.currentTime + cust.serviceTime, next);
      CountArrivalsAppend(s1.events, [departure]);
      s1.(queue := s1.queue[1..],
          customers := s1.customers[next := cust.(serviceStartTime := s1.currentTime)],
          events := s1.events + [departure])
    else
      s1.(serverBusy := false)
  }

  /** The event the next step processes. */
  function NextEvent(s: State, rule: TieBreak): Event
    requires |s.events| > 0
  {
    s.events[Pick(s.events, rule)]
  }

  /** One iteration of the loop: remove the next event, move the clock to its time and
      dispatch on its kind. Each step uses up exactly one event of the run. */
  function Step(s: State, rule: TieBreak): (r: State)
    requires Valid(s) && |s.events| > 0
    ensures Valid(r)
    ensures Measure(r) + 1 == Measure(s)
    ensures CountArrivals(r.events) + (if NextEvent(s, rule).kind == Arrival then 1 else 0)
            == CountArrivals(s.events)
    ensures r.currentTime == NextEvent(s, rule).time
  {
    var k := Pick(s.events, rule);
    var e := s.events[k];
    CountArrivalsRemove(s.events, k);
    var s1 := s.(events := Remove(s.events, k), currentTime := e.time);
    match e.kind
    case Arrival => HandleArrival(s1, e.who)
    case Departure => HandleDeparture(s1, e.who)
  }

  /** Runs the loop until the event list is empty. */
  function Run(s: State, rule: TieBreak): (r: Outcome)
    requires Valid(s)
    ensures r.final.events == []
    ensures Valid(r.final)
    ensures |r.trace| + Measure(r.final) == Measure(s)
    ensures CountArrivals(r.trace) == CountArrivals(s.events)
    decreases Measure(s)
  {
    if |s.events| == 0 then
      Outcome(s, [])
    else
      var e := NextEvent(s, rule);
      var rest := Run(Step(s, rule), rule);
      assert ([e] + rest.trace)[1..] == rest.trace;
      Outcome(rest.final, [e] + rest.trace)
  }

  /** The state after `m` iterations of the loop (or after fewer, once no event is left). */
  function Steps(s: State, rule: TieBreak, m: nat): (r: State)
    requires Valid(s)
    ensures Valid(r)
    ensures Measure(r) <= Measure(s)
  {
    if m == 0 then s
    else
      var p := Steps(s, rule, m - 1);
      if |p.events| == 0 then p else Step(p, rule)
  }
}
