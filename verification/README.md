# Single-teller bank queue: a Dafny model

This project models the core of a discrete-event simulation of a bank with one teller and
one FIFO waiting line (`bank_simulation/simulation.py`). It also proves what that code
promises. The program has four parts, and the model follows them.

- **Customer generation.** `N` customer records get ids `1..N`. Arrival times are running
  sums of interarrival samples and start at 0. Each record gets a service-time sample when
  it is created.
- **Event loop.** The loop starts with one arrival event per customer. It repeatedly
  sorts the event list by time, pops its head, moves the clock to that event, and
  dispatches it.
- **Server/queue state machine.** An arrival takes an idle server or joins the tail of the
  queue. A departure stamps the leaving customer, then starts the head of the queue or
  idles the server.
- **Metrics pass.** It computes waiting and system times with their averages and maxima,
  and the server utilization (total service time over the final clock). It also runs a
  sweep over every arrival and departure timestamp that keeps a running count of
  customers and records its maximum as the "maximum queue length". The "average queue
  length" is that maximum divided by the number of time points.

Times are exact `real`s. The random samplers become input sequences (`inter`, `service`)
with the program's ranges as preconditions: [1, 8] for interarrivals, [1, 6] for service
times. The state is an immutable datatype holding the clock, the busy flag, the queue of
customer indices, the insertion-ordered event list and the customer arena. One loop
iteration is a pure function `Step`, and `Run` iterates it until the event list is empty.

The event list's `sort` is stable and keyed on time only, followed by `pop(0)`. So among
events with equal times the one inserted first is processed first. `Pick` models this as
"the first event of minimal time" (`TieBreak.InsertionOrder`). The model also has a
departures-first rule (`TieBreak.DeparturesFirst`): at equal times departures go before
arrivals, otherwise insertion order. The main theorem holds for both rules, so they give
every customer the same timestamps.

The main theorem is `EngineProofs.RunMatchesSchedule`. A run from the initial state:

- processes exactly `2 * N` events in non-decreasing time order;
- stops with no pending event, an empty queue and an idle server;
- leaves every customer stamped exactly as the single-server FIFO recurrence
  (`Schedule.Start`/`Schedule.Finish`) says: start = max(arrival, previous departure), and
  departure = start + service time;
- stops the clock at the last departure.

The metrics results build on that theorem. The sweep's running count is the number of
customers in the bank at each time point. Utilization lies in (0, 1]. The maximum queue
length lies between 1 and `N`.

Modules, one per file: `Customers`, `RealSeqs` (sums, maxima, means, insertion sort),
`Generation`, `EventList`, `Engine`, `Schedule` (the reference recurrence),
`EngineProofs`, `Metrics`, `QueueLevel` (what the sweep counts) and `Simulation` (whole
runs and scenarios).

Behaviours of the code worth knowing:

- The code does not reject `N <= 0`. Generation builds no customers, and the metrics pass
  then fails at the maximum of an empty list (`Metrics.MetricsError.NoCustomers`).
- The code breaks ties in insertion order, not departures-first. `TieBreakIrrelevant`
  shows this changes no timestamp.
- The code draws only `N - 1` interarrival samples, because the first arrival is at 0
  without a draw. The three-customer scenario therefore takes the samples `[2, 5]`.
- The code does not merge equal time points in the sweep. It adds all arrivals and
  subtracts all departures at a time point once per occurrence of that time point.
  `QueueLevel.LevelCountsPresent` shows this still counts the customers in the bank
  whenever a repeated time point has as many arrivals as departures.
  Generated customers never arrive together (`Simulation.GeneratedArrivalsDistinct`), and
  on such customers the schedule's sweep counts the customers in the bank
  (`QueueLevel.ScheduleSweepCounts`); `Simulation.MetricsOfGenerated` combines the two.
- "Average queue length" is `max_queue / len(time_points)`, as the code computes it. It is
  not a time average.

## Model

| member | source | states |
|---|---|---|
| Generation.GenerateCustomers | bank_simulation/simulation.py:33-40 | builds `max(n, 0)` records; record `i` has id `i + 1`, arrival equal to the sum of the first `i` interarrival samples (0 for the first), the `i`-th service sample, and unset (0) start and departure times |
| Generation.ArrivalsNondecreasing | bank_simulation/simulation.py:34-37 | the first arrival is at 0 and arrivals never decrease along the ids when samples are non-negative |
| Generation.ArrivalsIncreasing | tests/test_simulation.py:19-25 | with samples of at least 1, customer `j` arrives at least `j - i` minutes after customer `i < j`, so arrivals strictly increase |
| Generation.GeneratedWellFormed | bank_simulation/simulation.py:33-40 | generated customers have non-negative, ordered arrivals and positive service times, which is what the event loop relies on |
| EventList.Pick | bank_simulation/simulation.py:51-52 | the popped event: no pending event comes before it, and it comes strictly before every event inserted earlier |
| EventList.PickIsEarliest | bank_simulation/simulation.py:51-52 | under either rule the popped event has the minimal time of the list |
| EventList.PickInsertionOrder | bank_simulation/simulation.py:51-52 | under the stable sort and `pop(0)`, the popped event is the first one whose time is minimal |
| EventList.CountArrivalsRemove | bank_simulation/simulation.py:52 | popping an event removes one arrival exactly when the popped event is an arrival |
| Engine.Initial | bank_simulation/simulation.py:43-47 | the loop starts with clock 0, an idle server, an empty queue and one arrival event per customer, so `2 * N` events are to be processed |
| Engine.HandleArrival | bank_simulation/simulation.py:62-71 | the server is busy afterwards and no other customer changes; on an idle server the customer's service starts now and its departure at now plus its service time is appended, with the queue unchanged; on a busy server it joins the tail of the queue and nothing else changes |
| Engine.HandleDeparture | bank_simulation/simulation.py:73-84 | the leaving customer's departure is the current time; the server stays busy exactly when someone was queueing; then the head of the queue leaves the queue, starts service now and has its departure at now plus its service time appended; otherwise no event is added and the queue stays empty |
| Engine.Step | bank_simulation/simulation.py:50-60 | one iteration moves the clock to the popped event's time and uses up exactly one of the events still to be processed |
| Engine.Run | bank_simulation/simulation.py:42-60 | the loop terminates with an empty event list after processing as many events as were still to come, with one arrival in the trace per pending arrival |
| EngineProofs.StepInv | bank_simulation/simulation.py:50-84 | each iteration keeps the loop invariant with one more arrival or one more departure processed and never moves the clock backwards |
| EngineProofs.LoopInvariant | bank_simulation/simulation.py:63-84 | in every state the loop reaches, at most one departure is pending, the server is busy exactly when one is pending, customers queue only behind a busy server, and the next iteration does not move the clock back |
| EngineProofs.BusyIffDeparturePending | bank_simulation/simulation.py:63-68 | in a state in the invariant, the server is busy exactly when one departure is pending, and never more than one is |
| EngineProofs.RunMatchesSchedule | bank_simulation/simulation.py:42-84 | a run processes exactly `2N` events (`N` arrivals) in non-decreasing time, ends with no event, an empty queue and an idle server, stamps every customer as the FIFO single-server recurrence says, and stops the clock at the last departure |
| EngineProofs.TieBreakIrrelevant | bank_simulation/simulation.py:51-52 | insertion-order and departures-first tie-breaking give every customer the same timestamps |
| Schedule.ScheduleCausal | bank_simulation/simulation.py:66-68 | in the FIFO schedule nobody starts before arriving, service lasts the service time, and every departure is positive |
| Schedule.ScheduleSingleServer | bank_simulation/simulation.py:71-81 | a later customer starts no earlier than every earlier one leaves, and strictly after every earlier one starts |
| Schedule.BusyTimeFits | bank_simulation/simulation.py:112 | the first `i + 1` service times together fit before customer `i` leaves |
| Simulation.RunServesInOrder | bank_simulation/simulation.py:62-84 | a run keeps every customer's id, arrival and service time, and stamps them in FIFO order |
| Simulation.RunCausal | tests/test_simulation.py:31-37 | after a run every customer starts no earlier than arriving, leaves one service time after starting, at a positive time, and spends wait plus service in the bank |
| Simulation.RunSingleServer | tests/test_simulation.py:39-43 | after a run a later customer starts only after every earlier one has left and strictly after every earlier one started |
| Metrics.TimePoints | bank_simulation/simulation.py:95-96 | the time points are a sorted permutation of all arrival and departure times, `2N` of them |
| RealSeqs.SortedUnique | bank_simulation/simulation.py:95-96 | two sorted sequences holding the same elements are equal |
| Metrics.TimePointsUnique | bank_simulation/simulation.py:95-96 | every sorted arrangement of all arrival and departure times is the time-point list, so how `sorted` orders equal times does not matter |
| Metrics.CountAtMultiplicity | bank_simulation/simulation.py:101-102 | counting the customers whose time equals a time point gives that time's multiplicity among the times |
| Metrics.QueueSweep | bank_simulation/simulation.py:97-105 | the sweep's maximum is non-negative, bounds the running count after every prefix of time points, and is reached by one of them |
| Metrics.CalculateMetrics | bank_simulation/simulation.py:89-115 | it fails exactly on no customers (maximum of an empty list) or a zero clock (division by zero), in that order; otherwise the averages times `N` are the totals, the maxima are attained upper bounds, utilization times the clock is the total service time, and the maximum queue length comes from the sweep, with the average queue length equal to it divided by `2N` |
| QueueLevel.LevelCountsPresent | bank_simulation/simulation.py:100-105 | when a repeated time point always has as many arrivals as departures, the running count after each time point is the number of customers in the bank at that time |
| QueueLevel.DistinctTimesCancel | bank_simulation/simulation.py:101-103 | when no two arrivals and no two departures coincide, a repeated time point brings one arrival and one departure, which cancel |
| QueueLevel.PeakIsMostPresent | bank_simulation/simulation.py:104-105 | read through the customers in the bank, the sweep's maximum is the largest number present at any time point (or 0) and at most `N` |
| Simulation.QueueAfterRun | bank_simulation/simulation.py:95-114 | when no two customers arrive together, the reported maximum queue length after a run is the largest number of customers in the bank at any time point, hence at most `N` |
| Simulation.MetricsAfterRun | bank_simulation/simulation.py:89-115 | after a complete run waits are non-negative on average and at most their maximum, the longest wait is shorter than the longest stay, utilization is in (0, 1], and the maximum queue length is at least 1 |
| Simulation.ThreeCustomerScenario | bank_simulation/simulation.py:33-84 | interarrival samples 2, 5 and service samples 3, 4, 2 give arrivals 0, 2, 7, waits 0, 1, 0, departures 3, 7, 9, and a final clock of 9 |
| Simulation.SingleCustomer | bank_simulation/simulation.py:89-112 | a single customer never waits and utilization is exactly 1 |
| Simulation.Simulate | main.py:15-19 | generate, run and measure: the customers carry the generated ids, arrivals and service times in FIFO order; the run ends empty and idle after `2N` events at the last departure; metrics fail exactly when `n <= 0`, and otherwise mean what `Summarizes` says, with non-negative waits, utilization in (0, 1] and a maximum queue length between 1 and `n` |

## Left out

- The samplers `np.random.uniform(1, 8)` and `np.random.uniform(1, 6)` (`bank_simulation/simulation.py:27-31`) become input sequences bounded by those ranges. Their statistical means are not modelled.
- Floating-point rounding: times are exact reals. Timestamp equality (line 101) is therefore exact, and accumulated sums do not drift.
- `Customer.__str__` is not modelled, because it only formats text.
- The `BankSimulation` object is not modelled. The model starts every run from clock 0 with an idle server and an empty queue, as the first call of `run_simulation` does. A second call of `run_simulation` on the same object would reuse the clock, the busy flag and the queue without resetting them; that is not modelled.
- `np.mean` of an empty list is NaN, not an error. It is not modelled separately, because the next figure, `np.max`, raises on the same input, which is `NoCustomers`.
- Python's list order after each in-place `sort` is not modelled. The model keeps the event list in insertion order and removes the first earliest event instead. This is the same event as the stable sort followed by `pop(0)` would take, so the remaining events and every later step are the same.
- `main.py` imports `plot_metrics_summary` (line 6), which `bank_simulation/visualization.py` does not define, so the script as written stops at that import. `Simulation.Simulate` models the three calls at lines 15-19 as they would run once that import is removed.
- `bank_simulation/visualization.py`, `bank_simulation/metrics.py` and `main.py`'s printing and CSV output are left out; they are plotting and file I/O.
