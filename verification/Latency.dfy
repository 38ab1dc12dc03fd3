/** Latency histograms with inclusive upper bounds. */
module Latency {
  const LATENCY_BUCKET_BOUNDS_SECONDS: seq<real> := [0.001, 0.01, 0.1, 1.0, 5.0, 10.0, 30.0, 60.0, 300.0]
  const LATENCY_BUCKET_COUNT: nat := 10

  /** The first bound not exceeded, or past the last. */
  function FirstBound(bounds: seq<real>, seconds: real): (i: nat)
    ensures i <= |bounds|
  {
    if bounds == [] || seconds <= bounds[0] then 0 else 1 + FirstBound(bounds[1..], seconds)
  }

  function BucketIndex(bounds: seq<real>, durationMs: real): (i: nat)
    ensures i <= |bounds|
  {
    FirstBound(bounds, durationMs / 1000.0)
  }

  ghost predicate Ascending(bounds: seq<real>) {
    forall i, j :: 0 <= i < j < |bounds| ==> bounds[i] < bounds[j]
  }

  /** A duration lies in a bucket up to `b` exactly if it does not exceed bound `b`. */
  lemma {:induction false} BucketLe(bounds: seq<real>, seconds: real, b: nat)
    requires Ascending(bounds) && b < |bounds|
    ensures FirstBound(bounds, seconds) <= b <==> seconds <= bounds[b]
  {
    if seconds > bounds[0] && b > 0 {
      BucketLe(bounds[1..], seconds, b - 1);
    }
  }

  lemma BoundsAscend()
    ensures Ascending(LATENCY_BUCKET_BOUNDS_SECONDS)
    ensures |LATENCY_BUCKET_BOUNDS_SECONDS| + 1 == LATENCY_BUCKET_COUNT
  {}

  // ---- Counts per bucket ----

  function Zeros(n: nat): (v: seq<nat>)
    ensures |v| == n
  {
    seq(n, i => 0)
  }

  /** One count per bound, and one for what exceeds them all. */
  type BucketArray = v: seq<nat> | |v| == LATENCY_BUCKET_COUNT witness Zeros(LATENCY_BUCKET_COUNT)

  function Bumped(v: seq<nat>, i: nat): (r: seq<nat>)
    requires i < |v|
    ensures |r| == |v|
  {
    v[i := v[i] + 1]
  }

  function AddBuckets(v: seq<nat>, w: seq<nat>): (r: seq<nat>)
    requires |v| == |w|
    ensures |r| == |v|
  {
    seq(|v|, i requires 0 <= i < |v| => v[i] + w[i])
  }

  /** The histogram of a sequence of durations. */
  function Histogram(bounds: seq<real>, durations: seq<real>): (v: seq<nat>)
    ensures |v| == |bounds| + 1
  {
    if durations == [] then Zeros(|bounds| + 1)
    else
      var n := |durations| - 1;
      Bumped(Histogram(bounds, durations[..n]), BucketIndex(bounds, durations[n]))
  }

  lemma {:induction false} HistogramAppend(bounds: seq<real>, a: seq<real>, b: seq<real>)
    ensures Histogram(bounds, a + b) == AddBuckets(Histogram(bounds, a), Histogram(bounds, b))
    decreases |b|
  {
    if b == [] {
      assert a + b == a;
      assert Histogram(bounds, a) == AddBuckets(Histogram(bounds, a), Zeros(|bounds| + 1));
    } else {
      var n := |b| - 1;
      assert (a + b)[..|a + b| - 1] == a + b[..n];
      HistogramAppend(bounds, a, b[..n]);
      var i := BucketIndex(bounds, b[n]);
      var v, w := Histogram(bounds, a), Histogram(bounds, b[..n]);
      assert Bumped(AddBuckets(v, w), i) == AddBuckets(v, Bumped(w, i));
    }
  }

  /** Counts of the first `n` buckets together. */
  function Cumulative(v: seq<nat>, n: nat): nat
    requires n <= |v|
  {
    if n == 0 then 0 else Cumulative(v, n - 1) + v[n - 1]
  }

  lemma {:induction false} CumulativeBump(v: seq<nat>, i: nat, n: nat)
    requires i < |v| && n <= |v|
    ensures Cumulative(Bumped(v, i), n) == Cumulative(v, n) + if i < n then 1 else 0
  {
    if n > 0 {
      CumulativeBump(v, i, n - 1);
    }
  }

  lemma {:induction false} CumulativeZeros(m: nat, n: nat)
    requires n <= m
    ensures Cumulative(Zeros(m), n) == 0
  {
    if n > 0 {
      CumulativeZeros(m, n - 1);
    }
  }

  /** Durations not above a bound. */
  function CountLe(durations: seq<real>, seconds: real): nat {
    if durations == [] then 0
    else
      var n := |durations| - 1;
      CountLe(durations[..n], seconds) + if durations[n] / 1000.0 <= seconds then 1 else 0
  }

  /** Cumulative counts are `le` counts. */
  lemma {:induction false} CumulativeIsLe(bounds: seq<real>, durations: seq<real>, b: nat)
    requires Ascending(bounds) && b < |bounds|
    ensures Cumulative(Histogram(bounds, durations), b + 1) == CountLe(durations, bounds[b])
  {
    if durations == [] {
      CumulativeZeros(|bounds| + 1, b + 1);
    } else {
      var n := |durations| - 1;
      CumulativeIsLe(bounds, durations[..n], b);
      CumulativeBump(Histogram(bounds, durations[..n]), BucketIndex(bounds, durations[n]), b + 1);
      BucketLe(bounds, durations[n] / 1000.0, b);
    }
  }

  /** Every duration is counted once. */
  lemma {:induction false} HistogramCountsAll(bounds: seq<real>, durations: seq<real>)
    ensures Cumulative(Histogram(bounds, durations), |bounds| + 1) == |durations|
  {
    if durations == [] {
      CumulativeZeros(|bounds| + 1, |bounds| + 1);
    } else {
      var n := |durations| - 1;
      HistogramCountsAll(bounds, durations[..n]);
      CumulativeBump(Histogram(bounds, durations[..n]), BucketIndex(bounds, durations[n]), |bounds| + 1);
    }
  }
}
