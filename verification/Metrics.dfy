/** The latency histograms and the registry that keeps one per label combination. Durations are whole nanoseconds. */
module Metrics {
  import opened Census
  import opened Sequences

  const MILLISECOND: nat := 1_000_000

  /** The upper bounds of the buckets, in milliseconds. */
  const BOUNDS: seq<nat> := [5, 10, 25, 50, 100, 250, 500, 1000, 2500, 5000, 10000]

  function Bound(i: nat): nat
    requires i < |BOUNDS|
  {
    BOUNDS[i] * MILLISECOND
  }

  lemma BoundsIncrease(i: nat, j: nat)
    requires i <= j < |BOUNDS|
    ensures BOUNDS[i] <= BOUNDS[j] && Bound(i) <= Bound(j)
  {
  }

  datatype HistogramData = HistogramData(count: nat, sum: nat, buckets: seq<nat>)

  const EMPTY := HistogramData(0, 0, [0, 0, 0, 0, 0, 0, 0, 0, 0, 0, 0])

  type Histogram = h: HistogramData | |h.buckets| == |BOUNDS| witness EMPTY

  /** The buckets after one more observation: those whose bound is at or above it go up by one. */
  function Raised(buckets: seq<nat>, duration: nat): (r: seq<nat>)
    requires |buckets| <= |BOUNDS|
    ensures |r| == |buckets|
    ensures forall i :: 0 <= i < |r| ==> r[i] == buckets[i] + if duration <= Bound(i) then 1 else 0
  {
    if buckets == [] then [] else
      var last := |buckets| - 1;
      Raised(buckets[..last], duration) + [buckets[last] + if duration <= Bound(last) then 1 else 0]
  }

  /** The histogram with one more observation. */
  function Observed(h: Histogram, duration: nat): Histogram {
    HistogramData(h.count + 1, h.sum + duration, Raised(h.buckets, duration))
  }

  class HistogramValues {
    var count: nat
    var sum: nat
    const buckets: array<nat>

    ghost predicate Valid()
      reads this
    {
      buckets.Length == |BOUNDS|
    }

    ghost function View(): Histogram
      requires Valid()
      reads this, buckets
    {
      HistogramData(count, sum, buckets[..])
    }

    constructor ()
      ensures Valid() && fresh(buckets) && View() == EMPTY
    {
      count, sum := 0, 0;
      buckets := new nat[|BOUNDS|](i => 0);
    }

    method Observe(duration: nat)
      requires Valid()
      modifies this, buckets
      ensures Valid() && View() == Observed(old(View()), duration)
    {
      count := count + 1;
      sum := sum + duration;
      for index := 0 to |BOUNDS|
        invariant count == old(count) + 1 && sum == old(sum) + duration
        invariant forall i :: 0 <= i < index ==>
          buckets[i] == old(buckets[i]) + if duration <= Bound(i) then 1 else 0
        invariant forall i :: index <= i < |BOUNDS| ==> buckets[i] == old(buckets[i])
      {
        if duration <= Bound(index) {
          buckets[index] := buckets[index] + 1;
        }
      }
    }
  }

  // ---- What a histogram means ----

  function ObserveAll(durations: seq<nat>): Histogram {
    Fold<Histogram, nat>(Observed, EMPTY, durations)
  }

  /** How many durations are at or below a bound. */
  function AtMost(durations: seq<nat>, bound: nat): nat {
    |set i: nat | i < |durations| && durations[i] <= bound|
  }

  function Sum(durations: seq<nat>): nat {
    if durations == [] then 0 else durations[0] + Sum(durations[1..])
  }

  lemma AtMostSnoc(durations: seq<nat>, d: nat, bound: nat)
    ensures AtMost(durations + [d], bound) == AtMost(durations, bound) + if d <= bound then 1 else 0
  {
    var before := set i: nat | i < |durations| && durations[i] <= bound;
    var after := set i: nat | i < |durations + [d]| && (durations + [d])[i] <= bound;
    if d <= bound {
      assert after == before + {|durations|};
    } else {
      assert after == before;
    }
  }

  lemma {:induction false} SumAppend(a: seq<nat>, b: seq<nat>)
    ensures Sum(a + b) == Sum(a) + Sum(b)
  {
    if a == [] {
      assert a + b == b;
    } else {
      assert (a + b)[1..] == a[1..] + b;
      SumAppend(a[1..], b);
    }
  }

  /** Count, sum and every bucket are what the observed durations say. */
  lemma {:induction false} HistogramMeaning(durations: seq<nat>)
    ensures var h := ObserveAll(durations);
            && h.count == |durations| && h.sum == Sum(durations)
            && forall i :: 0 <= i < |BOUNDS| ==> h.buckets[i] == AtMost(durations, Bound(i))
  {
    if durations == [] {
      forall i | 0 <= i < |BOUNDS|
        ensures AtMost(durations, Bound(i)) == 0
      {
        AtMostGrows(durations, Bound(i), Bound(i));
      }
    } else {
      var init, last := durations[..|durations| - 1], durations[|durations| - 1];
      assert durations == init + [last];
      HistogramMeaning(init);
      FoldSnoc<Histogram, nat>(Observed, EMPTY, init, last);
      SumAppend(init, [last]);
      assert Sum([last]) == last;
      forall i | 0 <= i < |BOUNDS|
        ensures ObserveAll(durations).buckets[i] == AtMost(durations, Bound(i))
      {
        AtMostSnoc(init, last, Bound(i));
      }
    }
  }

  lemma AtMostGrows(durations: seq<nat>, low: nat, high: nat)
    requires low <= high
    ensures AtMost(durations, low) <= AtMost(durations, high) <= |durations|
  {
    var lows := set i: nat | i < |durations| && durations[i] <= low;
    var highs := set i: nat | i < |durations| && durations[i] <= high;
    SubsetSize(lows, highs);
    IntervalSize(highs, 0, |durations|);
  }

  /** Buckets are cumulative: they never decrease, and never exceed the count. */
  lemma BucketsAreCumulative(durations: seq<nat>, i: nat, j: nat)
    requires i <= j < |BOUNDS|
    ensures var h := ObserveAll(durations); h.buckets[i] <= h.buckets[j] <= h.count
  {
    HistogramMeaning(durations);
    BoundsIncrease(i, j);
    AtMostGrows(durations, Bound(i), Bound(j));
  }

  lemma ObservedCommutes(h: Histogram, a: nat, b: nat)
    ensures Observed(Observed(h, a), b) == Observed(Observed(h, b), a)
  {
    assert Raised(Raised(h.buckets, a), b) == Raised(Raised(h.buckets, b), a);
  }

  /** The order of observations does not matter. */
  lemma OrderDoesNotMatter(a: seq<nat>, b: seq<nat>)
    requires multiset(a) == multiset(b)
    ensures ObserveAll(a) == ObserveAll(b)
  {
    forall h: Histogram, x: nat, y: nat
      ensures Observed(Observed(h, x), y) == Observed(Observed(h, y), x)
    {
      ObservedCommutes(h, x, y);
    }
    FoldPermutation<Histogram, nat>(Observed, EMPTY, a, b);
  }

  // ---- The registry ----

  datatype ResolveMetricKey = ResolveMetricKey(outcome: string, errorKind: string, status: nat)

  type Registry = map<ResolveMetricKey, Histogram>

  /** `entry(key).or_default().observe(duration)`. */
  function Record(registry: Registry, key: ResolveMetricKey, duration: nat): Registry {
    registry[key := Observed(if key in registry then registry[key] else EMPTY, duration)]
  }

  class AppMetrics {
    var resolveRequests: Registry

    constructor ()
      ensures resolveRequests == map[]
    {
      resolveRequests := map[];
    }

    method RecordResolveRequest(status: nat, outcome: string, errorKind: string, duration: nat)
      modifies this
      ensures resolveRequests
           == Record(old(resolveRequests), ResolveMetricKey(outcome, errorKind, status), duration)
    {
      var key := ResolveMetricKey(outcome, errorKind, status);
      if key !in resolveRequests {
        resolveRequests := resolveRequests[key := EMPTY];
      }
      resolveRequests := resolveRequests[key := Observed(resolveRequests[key], duration)];
    }
  }

  datatype Recorded = Recorded(key: ResolveMetricKey, duration: nat)

  function RecordAll(log: seq<Recorded>): Registry {
    if log == [] then map[]
    else Record(RecordAll(log[..|log| - 1]), log[|log| - 1].key, log[|log| - 1].duration)
  }

  /** The durations recorded under one key. */
  function Under(log: seq<Recorded>, key: ResolveMetricKey): seq<nat> {
    if log == [] then []
    else
      var last := log[|log| - 1];
      Under(log[..|log| - 1], key) + if last.key == key then [last.duration] else []
  }

  lemma ObserveSnoc(durations: seq<nat>, duration: nat)
    ensures ObserveAll(durations + [duration]) == Observed(ObserveAll(durations), duration)
  {
    FoldSnoc<Histogram, nat>(Observed, EMPTY, durations, duration);
  }

  /** Each key's histogram is that of exactly the durations recorded under it. */
  lemma {:induction false} RegistryMeaning(log: seq<Recorded>, key: ResolveMetricKey)
    ensures key in RecordAll(log) <==> Under(log, key) != []
    ensures key in RecordAll(log) ==> RecordAll(log)[key] == ObserveAll(Under(log, key))
  {
    if log != [] {
      var init, last := log[..|log| - 1], log[|log| - 1];
      RegistryMeaning(init, key);
      if last.key == key {
        ObserveSnoc(Under(init, key), last.duration);
        assert Under(init, key) == [] ==> ObserveAll(Under(init, key)) == EMPTY;
      } else {
        assert Under(log, key) == Under(init, key);
      }
    }
  }

  /** The sum of all counts. */
  ghost function Total(registry: Registry): nat
    decreases |registry|
  {
    if registry == map[] then 0 else
      var key :| key in registry;
      registry[key].count + Total(registry - {key})
  }

  lemma {:induction false} TotalPick(registry: Registry, key: ResolveMetricKey)
    requires key in registry
    ensures Total(registry) == registry[key].count + Total(registry - {key})
    decreases |registry|
  {
    var other :| other in registry && Total(registry) == registry[other].count + Total(registry - {other});
    if other != key {
      TotalPick(registry - {other}, key);
      TotalPick(registry - {key}, other);
      assert registry - {other} - {key} == registry - {key} - {other};
    }
  }

  lemma TotalRecord(registry: Registry, key: ResolveMetricKey, duration: nat)
    ensures Total(Record(registry, key, duration)) == Total(registry) + 1
  {
    var after := Record(registry, key, duration);
    TotalPick(after, key);
    assert after - {key} == registry - {key};
    if key in registry {
      TotalPick(registry, key);
    } else {
      assert registry - {key} == registry;
    }
  }

  /** Nothing recorded is lost: the counts add up to the number of recordings. */
  lemma {:induction false} CountsAddUp(log: seq<Recorded>)
    ensures Total(RecordAll(log)) == |log|
  {
    if log != [] {
      var init, last := log[..|log| - 1], log[|log| - 1];
      CountsAddUp(init);
      TotalRecord(RecordAll(init), last.key, last.duration);
    }
  }
}
