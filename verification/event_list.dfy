/** The pending-event list of the simulation: an insertion-ordered sequence from which
    the loop removes the earliest event. */
module EventList {

  datatype Kind = Arrival | Departure

  /** A scheduled event for the customer at index `who` of the customer arena. */
  datatype Event = Event(kind: Kind, time: real, who: nat)

  /** How events with equal times are ordered. `InsertionOrder` is what sorting the list
      stably by time and popping its head does; `DeparturesFirst` puts departures before
      arrivals at the same instant and otherwise keeps insertion order. */
  datatype TieBreak = InsertionOrder | DeparturesFirst

  /** `a` is processed strictly before `b` under `rule`, whatever their positions. */
  predicate Before(a: Event, b: Event, rule: TieBreak)
  {
    || a.time < b.time
    || (rule == DeparturesFirst && a.time == b.time && a.kind == Departure && b.kind == Arrival)
  }

  /** Two arrivals are never ordered by the tie-break rule, only by time. */
  lemma ArrivalsOrderedByTime(a: Event, b: Event, rule: TieBreak)
    requires a.kind == Arrival && b.kind == Arrival
    ensures Before(a, b, rule) <==> a.time < b.time
  {
  }

  /** Index of the event processed next: no event precedes it, and it precedes every
      event inserted before it (so among equals the earliest inserted wins). */
  function Pick(es: seq<Event>, rule: TieBreak): (r: nat)
    requires |es| > 0
    ensures r < |es|
    ensures forall j :: 0 <= j < |es| ==> !Before(es[j], es[r], rule)
    ensures forall j :: 0 <= j < r ==> Before(es[r], es[j], rule)
    decreases |es|
  {
    if |es| == 1 then 0
    else
      var init := es[..|es| - 1];
      var m := Pick(init, rule);
      assert forall j :: 0 <= j < |init| ==> init[j] == es[j];
      if Before(es[|es| - 1], es[m], rule) then |es| - 1 else m
  }

  /** Under either rule the picked event has the minimum time. */
  lemma PickIsEarliest(es: seq<Event>, rule: TieBreak)
    requires |es| > 0
    ensures forall j :: 0 <= j < |es| ==> es[Pick(es, rule)].time <= es[j].time
  {
  }

  /** Under insertion order the picked event is the first one whose time is minimal. */
  lemma PickInsertionOrder(es: seq<Event>)
    requires |es| > 0
    ensures var r := Pick(es, InsertionOrder);
      && (forall j :: 0 <= j < |es| ==> es[r].time <= es[j].time)
      && (forall j :: 0 <= j < r ==> es[r].time < es[j].time)
  {
  }

  /** The list with the element at index `r` taken out, the rest in order. */
  function Remove(es: seq<Event>, r: nat): (rest: seq<Event>)
    requires r < |es|
    ensures |rest| == |es| - 1
    ensures forall j :: 0 <= j < r ==> rest[j] == es[j]
    ensures forall j :: r <= j < |rest| ==> rest[j] == es[j + 1]
  {
    es[..r] + es[r + 1..]
  }

  /** Number of arrival events in the list. */
  function CountArrivals(es: seq<Event>): nat
  {
    if |es| == 0 then 0
    else (if es[0].kind == Arrival then 1 else 0) + CountArrivals(es[1..])
  }

  lemma {:induction false} CountArrivalsAppend(a: seq<Event>, b: seq<Event>)
    ensures CountArrivals(a + b) == CountArrivals(a) + CountArrivals(b)
  {
    if |a| == 0 {
      assert a + b == b;
    } else {
      assert (a + b)[1..] == a[1..] + b;
      CountArrivalsAppend(a[1..], b);
    }
  }

  /** Removing one event removes one arrival exactly when that event was an arrival. */
  lemma CountArrivalsRemove(es: seq<Event>, r: nat)
    requires r < |es|
    ensures CountArrivals(Remove(es, r)) + (if es[r].kind == Arrival then 1 else 0) == CountArrivals(es)
  {
    assert es == es[..r] + ([es[r]] + es[r + 1..]);
    CountArrivalsAppend(es[..r], [es[r]] + es[r + 1..]);
    CountArrivalsAppend([es[r]], es[r + 1..]);
    CountArrivalsAppend(es[..r], es[r + 1..]);
  }
}
