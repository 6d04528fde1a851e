/** The customer record of the bank simulation and the shape the event loop expects of
    the customer arena it is handed. */
module Customers {

  /** One customer. `serviceStartTime` and `departureTime` start at the sentinel 0.0 and
      are filled in by the event loop; the other fields are fixed when the record is made. */
  datatype Customer = Customer(
    customerId: int,
    arrivalTime: real,
    serviceStartTime: real,
    serviceTime: real,
    departureTime: real)

  /** Time spent queueing before service starts. */
  function WaitingTime(c: Customer): real
  {
    c.serviceStartTime - c.arrivalTime
  }

  /** Time spent in the bank, queueing plus service. */
  function SystemTime(c: Customer): real
  {
    c.departureTime - c.arrivalTime
  }

  /** What the event loop relies on: arrivals are non-negative and listed in arrival
      order, and every service takes positive time. Generated customers have this shape. */
  ghost predicate WellFormed(cs: seq<Customer>)
  {
    && (forall i :: 0 <= i < |cs| ==> 0.0 <= cs[i].arrivalTime && 0.0 < cs[i].serviceTime)
    && (forall i, j :: 0 <= i <= j < |cs| ==> cs[i].arrivalTime <= cs[j].arrivalTime)
  }

  // Per-customer columns of a customer list, in customer order.

  function Waits(cs: seq<Customer>): (r: seq<real>)
    ensures |r| == |cs|
    ensures forall i :: 0 <= i < |cs| ==> r[i] == WaitingTime(cs[i])
  {
    seq(|cs|, i requires 0 <= i < |cs| => WaitingTime(cs[i]))
  }

  function SystemTimes(cs: seq<Customer>): (r: seq<real>)
    ensures |r| == |cs|
    ensures forall i :: 0 <= i < |cs| ==> r[i] == SystemTime(cs[i])
  {
    seq(|cs|, i requires 0 <= i < |cs| => SystemTime(cs[i]))
  }

  function ServiceTimes(cs: seq<Customer>): (r: seq<real>)
    ensures |r| == |cs|
    ensures forall i :: 0 <= i < |cs| ==> r[i] == cs[i].serviceTime
  {
    seq(|cs|, i requires 0 <= i < |cs| => cs[i].serviceTime)
  }

  function Arrivals(cs: seq<Customer>): (r: seq<real>)
    ensures |r| == |cs|
    ensures forall i :: 0 <= i < |cs| ==> r[i] == cs[i].arrivalTime
  {
    seq(|cs|, i requires 0 <= i < |cs| => cs[i].arrivalTime)
  }

  function Departures(cs: seq<Customer>): (r: seq<real>)
    ensures |r| == |cs|
    ensures forall i :: 0 <= i < |cs| ==> r[i] == cs[i].departureTime
  {
    seq(|cs|, i requires 0 <= i < |cs| => cs[i].departureTime)
  }
}
