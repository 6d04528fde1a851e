/** Customer generation: the arrival of customer `i` (counting from 0) is the sum of the
    first `i` interarrival samples, and each customer's service time is drawn when the
    record is created. The random samplers become explicit input sequences. */
module Generation {
  import opened Customers
  import opened RealSeqs

  /** Interarrival samples lie in [1, 8] minutes. */
  predicate InterarrivalsInRange(inter: seq<real>)
  {
    forall i :: 0 <= i < |inter| ==> 1.0 <= inter[i] <= 8.0
  }

  /** Service-time samples lie in [1, 6] minutes. */
  predicate ServiceTimesInRange(service: seq<real>)
  {
    forall i :: 0 <= i < |service| ==> 1.0 <= service[i] <= 6.0
  }

  /** Enough samples for `n` customers: every customer but the first draws an interarrival
      sample, and every customer draws a service sample. */
  predicate EnoughSamples(n: int, inter: seq<real>, service: seq<real>)
  {
    n <= 0 || (n - 1 <= |inter| && n <= |service|)
  }

  /** The `i`-th generated record (0-based): id `i + 1`, arrival after `i` interarrival
      samples, service time the `i`-th service sample, both result timestamps unset. */
  ghost predicate IsGenerated(cs: seq<Customer>, inter: seq<real>, service: seq<real>)
  {
    && |cs| <= |inter| + 1
    && |cs| <= |service|
    && forall i :: 0 <= i < |cs| ==>
         cs[i] == Customer(i + 1, Sum(inter[..i]), 0.0, service[i], 0.0)
  }

  /** Builds `n` customers in arrival order; a non-positive `n` builds none. */
  method GenerateCustomers(n: int, inter: seq<real>, service: seq<real>) returns (cs: seq<Customer>)
    requires EnoughSamples(n, inter, service)
    ensures |cs| == if n <= 0 then 0 else n
    ensures IsGenerated(cs, inter, service)
  {
    cs := [];
    var arrival := 0.0;
    var i := 0;
    while i < n
      invariant 0 <= i <= if n <= 0 then 0 else n
      invariant |cs| == i
      invariant arrival == Sum(inter[..if i == 0 then 0 else i - 1])
      invariant forall j :: 0 <= j < i ==> cs[j] == Customer(j + 1, Sum(inter[..j]), 0.0, service[j], 0.0)
    {
      if i > 0 {
        SumPrefixStep(inter, i - 1);
        arrival := arrival + inter[i - 1];
      }
      var c := Customer(i + 1, arrival, 0.0, 0.0, 0.0);
      c := c.(serviceTime := service[i]);
      cs := cs + [c];
      i := i + 1;
    }
  }

  /** With non-negative interarrival samples, arrivals never go backwards. */
  lemma {:induction false} ArrivalsNondecreasing(cs: seq<Customer>, inter: seq<real>, service: seq<real>)
    requires IsGenerated(cs, inter, service)
    requires forall i :: 0 <= i < |inter| ==> 0.0 <= inter[i]
    ensures cs == [] || cs[0].arrivalTime == 0.0
    ensures forall i, j :: 0 <= i <= j < |cs| ==> cs[i].arrivalTime <= cs[j].arrivalTime
  {
    forall i, j | 0 <= i <= j < |cs|
      ensures cs[i].arrivalTime <= cs[j].arrivalTime
    {
      SumGrowth(inter, i, j, 0.0);
    }
  }

  /** With interarrival samples of at least one minute, arrivals are strictly increasing,
      at least one minute apart per customer. */
  lemma ArrivalsIncreasing(cs: seq<Customer>, inter: seq<real>, service: seq<real>)
    requires IsGenerated(cs, inter, service)
    requires InterarrivalsInRange(inter)
    ensures forall i, j :: 0 <= i < j < |cs| ==> cs[i].arrivalTime + (j - i) as real <= cs[j].arrivalTime
  {
    forall i, j | 0 <= i < j < |cs|
      ensures cs[i].arrivalTime + (j - i) as real <= cs[j].arrivalTime
    {
      SumGrowth(inter, i, j, 1.0);
    }
  }

  /** A prefix sum grows by at least `low` per extra element when every sample is at least `low`. */
  lemma {:induction false} SumGrowth(inter: seq<real>, i: nat, j: nat, low: real)
    requires i <= j <= |inter|
    requires forall k :: 0 <= k < |inter| ==> low <= inter[k]
    ensures Sum(inter[..i]) + (j - i) as real * low <= Sum(inter[..j])
    decreases j - i
  {
    if i < j {
      SumGrowth(inter, i, j - 1, low);
      SumPrefixStep(inter, j - 1);
    }
  }

  /** Customers generated from in-range samples are what the event loop expects. */
  lemma GeneratedWellFormed(cs: seq<Customer>, inter: seq<real>, service: seq<real>)
    requires IsGenerated(cs, inter, service)
    requires InterarrivalsInRange(inter) && ServiceTimesInRange(service)
    ensures WellFormed(cs)
  {
    ArrivalsNondecreasing(cs, inter, service);
    forall i | 0 <= i < |cs|
      ensures 0.0 <= cs[i].arrivalTime
    {
      assert cs[0].arrivalTime <= cs[i].arrivalTime;
    }
  }
}
