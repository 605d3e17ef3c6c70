/** The cumulative latency histogram the metrics page shows per key: eleven
    fixed upper bounds plus an unbounded bucket. Durations and bounds are whole
    nanoseconds. */
module Histogram {
  import opened PathKey
  import opened Aggregator

  /** The finite upper bounds, 0.005 s up to 10 s, in nanoseconds. */
  const Bounds: seq<Nanos> := [
    5_000_000, 10_000_000, 25_000_000, 50_000_000, 100_000_000,
    250_000_000, 500_000_000, 1_000_000_000, 2_500_000_000,
    5_000_000_000, 10_000_000_000]

  /** The position of the unbounded (`+Inf`) bucket, after the finite ones. */
  const InfBucket: nat := |Bounds|

  /** The bounds are strictly ascending. */
  lemma BoundsAscending()
    ensures |Bounds| == 11
    ensures forall i, j :: 0 <= i < j < |Bounds| ==> Bounds[i] < Bounds[j]
  {
  }

  /** The number of durations at most `bound`. */
  function CountAtMost(ds: seq<Nanos>, bound: Nanos): (n: nat)
    decreases |ds|
  {
    if |ds| == 0 then 0
    else (if ds[0] <= bound then 1 else 0) + CountAtMost(ds[1..], bound)
  }

  /** The sum of the durations, the `_sum` of the histogram. */
  function Sum(ds: seq<Nanos>): (total: nat)
    decreases |ds|
  {
    if |ds| == 0 then 0 else ds[0] + Sum(ds[1..])
  }

  /** Counting splits over concatenation. */
  lemma {:induction false} CountAtMostAppend(a: seq<Nanos>, b: seq<Nanos>, bound: Nanos)
    ensures CountAtMost(a + b, bound) == CountAtMost(a, bound) + CountAtMost(b, bound)
    decreases |a|
  {
    if |a| > 0 {
      assert (a + b)[1..] == a[1..] + b;
      CountAtMostAppend(a[1..], b, bound);
    } else {
      assert a + b == b;
    }
  }

  /** One more observation raises exactly the counts whose bound it does not
      exceed, each by one. */
  lemma CountAtMostObserve(ds: seq<Nanos>, d: Nanos, bound: Nanos)
    ensures CountAtMost(ds + [d], bound) == CountAtMost(ds, bound) + (if d <= bound then 1 else 0)
  {
    CountAtMostAppend(ds, [d], bound);
  }

  /** Summation splits over concatenation. */
  lemma {:induction false} SumAppend(a: seq<Nanos>, b: seq<Nanos>)
    ensures Sum(a + b) == Sum(a) + Sum(b)
    decreases |a|
  {
    if |a| > 0 {
      assert (a + b)[1..] == a[1..] + b;
      SumAppend(a[1..], b);
    } else {
      assert a + b == b;
    }
  }

  /** A count never exceeds the number of observations. */
  lemma {:induction false} CountAtMostBounded(ds: seq<Nanos>, bound: Nanos)
    ensures CountAtMost(ds, bound) <= |ds|
    decreases |ds|
  {
    if |ds| > 0 {
      CountAtMostBounded(ds[1..], bound);
    }
  }

  /** A larger bound never counts fewer observations. */
  lemma {:induction false} CountAtMostMonotone(ds: seq<Nanos>, lo: Nanos, hi: Nanos)
    requires lo <= hi
    ensures CountAtMost(ds, lo) <= CountAtMost(ds, hi)
    decreases |ds|
  {
    if |ds| > 0 {
      CountAtMostMonotone(ds[1..], lo, hi);
    }
  }

  /** A bound no observation exceeds counts them all. */
  lemma {:induction false} CountAtMostAll(ds: seq<Nanos>, bound: Nanos)
    requires forall i :: 0 <= i < |ds| ==> ds[i] <= bound
    ensures CountAtMost(ds, bound) == |ds|
    decreases |ds|
  {
    if |ds| > 0 {
      assert forall i :: 0 <= i < |ds[1..]| ==> ds[1..][i] <= bound by {
        forall i | 0 <= i < |ds[1..]|
          ensures ds[1..][i] <= bound
        {
          assert ds[1..][i] == ds[i + 1];
        }
      }
      CountAtMostAll(ds[1..], bound);
    }
  }

  /** The histogram of one key as the metrics page reports it: for each finite
      bound the number of durations at most that bound, then the number of all
      durations in the unbounded bucket. */
  function Cumulative(ds: seq<Nanos>): (counts: seq<nat>) {
    seq(|Bounds| + 1, i requires 0 <= i <= |Bounds| =>
      if i < |Bounds| then CountAtMost(ds, Bounds[i]) else |ds|)
  }

  /** The bucket loop of the metrics page for one key: every observation bumps
      each finite bucket whose bound it does not exceed and the unbounded one,
      and is added to the sum. */
  method BucketCounts(ds: seq<Nanos>) returns (counts: seq<nat>, sum: nat)
    ensures counts == Cumulative(ds)
    ensures sum == Sum(ds)
  {
    counts := seq(|Bounds| + 1, _ => 0);
    sum := 0;
    var n := 0;
    while n < |ds|
      invariant 0 <= n <= |ds|
      invariant |counts| == |Bounds| + 1
      invariant forall i :: 0 <= i < |Bounds| ==> counts[i] == CountAtMost(ds[..n], Bounds[i])
      invariant counts[InfBucket] == n
      invariant sum == Sum(ds[..n])
    {
      var d := ds[n];
      assert ds[..n + 1] == ds[..n] + [d];
      SumAppend(ds[..n], [d]);
      sum := sum + d;
      var i := 0;
      while i < |Bounds|
        invariant 0 <= i <= |Bounds|
        invariant |counts| == |Bounds| + 1
        invariant forall i' :: 0 <= i' < i ==> counts[i'] == CountAtMost(ds[..n + 1], Bounds[i'])
        invariant forall i' :: i <= i' < |Bounds| ==> counts[i'] == CountAtMost(ds[..n], Bounds[i'])
        invariant counts[InfBucket] == n
      {
        CountAtMostObserve(ds[..n], d, Bounds[i]);
        if d <= Bounds[i] {
          counts := counts[i := counts[i] + 1];
        }
        i := i + 1;
      }
      counts := counts[InfBucket := counts[InfBucket] + 1];
      n := n + 1;
    }
    assert ds[..n] == ds;
  }

  /** The buckets are cumulative: counts never decrease from one bucket to the
      next, and the unbounded one, which counts every observation, is the
      largest. */
  lemma CumulativeAscends(ds: seq<Nanos>)
    ensures |Cumulative(ds)| == |Bounds| + 1
    ensures Cumulative(ds)[InfBucket] == |ds|
    ensures forall i, j :: 0 <= i <= j < |Cumulative(ds)| ==> Cumulative(ds)[i] <= Cumulative(ds)[j]
  {
    var counts := Cumulative(ds);
    BoundsAscending();
    forall i, j | 0 <= i <= j < |counts|
      ensures counts[i] <= counts[j]
    {
      if j == InfBucket {
        if i < InfBucket {
          CountAtMostBounded(ds, Bounds[i]);
        }
      } else {
        CountAtMostMonotone(ds, Bounds[i], Bounds[j]);
      }
    }
  }

  /** One more observation raises exactly the buckets whose bound it does not
      exceed, and the unbounded one, each by one. */
  lemma CumulativeObserve(ds: seq<Nanos>, d: Nanos)
    ensures forall i :: 0 <= i < |Bounds| ==>
      Cumulative(ds + [d])[i] == Cumulative(ds)[i] + (if d <= Bounds[i] then 1 else 0)
    ensures Cumulative(ds + [d])[InfBucket] == Cumulative(ds)[InfBucket] + 1
  {
    forall i | 0 <= i < |Bounds|
      ensures Cumulative(ds + [d])[i] == Cumulative(ds)[i] + (if d <= Bounds[i] then 1 else 0)
    {
      CountAtMostObserve(ds, d, Bounds[i]);
    }
  }

  /** Recording a request adds exactly one observation to its key's histogram:
      every bucket whose bound is at least the duration goes up by one, the
      others stay, the unbounded bucket (the count) goes up by one and the sum
      by the duration. */
  lemma RecordAddsOneObservation(m: Metrics, path: string, code: int, d: Nanos)
    ensures var k := Normalize(path);
      var before := m.Durations(k);
      var after := Record(m, path, code, d).Durations(k);
      && (forall i :: 0 <= i < |Bounds| ==>
            Cumulative(after)[i] == Cumulative(before)[i] + (if d <= Bounds[i] then 1 else 0))
      && Cumulative(after)[InfBucket] == Cumulative(before)[InfBucket] + 1
      && Sum(after) == Sum(before) + d
  {
    var k := Normalize(path);
    CumulativeObserve(m.Durations(k), d);
    SumAppend(m.Durations(k), [d]);
    assert Sum([d]) == d;
  }
}
