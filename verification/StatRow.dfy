/** The cumulative statistics row of a group, and how the rows of successive batches combine. */
module StatRow {
  import opened Common
  import opened EntryState
  import opened Groups
  import opened DurationStats
  import opened Rollup
  import opened Latency

  /** The milliseconds that a duration, given by its place in the total order, stands for. */
  type Scale = int -> real

  ghost predicate KeepsOrder(ms: Scale) {
    forall a: int, b: int :: a <= b <==> ms(a) <= ms(b)
  }

  /** Timestamps count nanoseconds. */
  const SECOND: int := 1_000_000_000
  const HOUR: int := 3600 * SECOND

  /** The execution's hour, truncated. */
  function HourKey(e: Execution): int {
    e.timestamp - e.timestamp % HOUR
  }

  /** The execution's minute, in seconds. */
  function MinuteKey(e: Execution): int {
    e.timestamp / SECOND / 60 * 60
  }

  /** Both keys are where the execution's hour and minute begin. */
  lemma KeysTruncate(e: Execution)
    ensures HourKey(e) % HOUR == 0 && HourKey(e) <= e.timestamp < HourKey(e) + HOUR
    ensures MinuteKey(e) % 60 == 0 && MinuteKey(e) * SECOND <= e.timestamp < (MinuteKey(e) + 60) * SECOND
  {}

  function Durations(ms: Scale, es: seq<Execution>): (ds: seq<real>)
    ensures |ds| == |es|
  {
    if es == [] then [] else Durations(ms, es[..|es| - 1]) + [ms(es[|es| - 1].duration)]
  }

  lemma {:induction false} DurationsAppend(ms: Scale, a: seq<Execution>, b: seq<Execution>)
    ensures Durations(ms, a + b) == Durations(ms, a) + Durations(ms, b)
    decreases |b|
  {
    if b == [] {
      assert a + b == a;
    } else {
      var n := |b| - 1;
      assert (a + b)[..|a + b| - 1] == a + b[..n];
      DurationsAppend(ms, a, b[..n]);
      Assoc(Durations(ms, a), Durations(ms, b[..n]), [ms(b[n].duration)]);
    }
  }

  lemma DurationsSnoc(ms: Scale, es: seq<Execution>, e: Execution)
    ensures Durations(ms, es + [e]) == Durations(ms, es) + [ms(e.duration)]
  {
    Snoc(es, e);
  }

  // ---- Parts of a row ----

  datatype HourMetrics = HourMetrics(count: nat, total: real, min: real, max: real)

  datatype WindowBucket = WindowBucket(calls: nat, total: real, buckets: BucketArray)

  function Buckets(ds: seq<real>): BucketArray {
    Histogram(LATENCY_BUCKET_BOUNDS_SECONDS, ds)
  }

  function HourOf(ds: seq<real>): HourMetrics {
    if ds == [] then HourMetrics(0, 0.0, 0.0, 0.0)
    else HourMetrics(|ds|, Total(Identity(), ds), MinOf(ds), MaxOf(ds))
  }

  function WindowOf(ds: seq<real>): WindowBucket {
    WindowBucket(|ds|, Total(Identity(), ds), Buckets(ds))
  }

  function HourOfAll(ms: Scale): seq<Execution> -> HourMetrics {
    (es: seq<Execution>) => HourOf(Durations(ms, es))
  }

  function WindowOfAll(ms: Scale): seq<Execution> -> WindowBucket {
    (es: seq<Execution>) => WindowOf(Durations(ms, es))
  }

  function Hours(ms: Scale, es: seq<Execution>): map<int, HourMetrics> {
    Parts(HourOfAll(ms), HourKey, es)
  }

  function Windows(ms: Scale, es: seq<Execution>): map<int, WindowBucket> {
    Parts(WindowOfAll(ms), MinuteKey, es)
  }

  /** Durations strictly above the threshold; a threshold of zero or less is off. */
  function Breaches(ds: seq<real>, threshold: real): nat {
    if threshold <= 0.0 || ds == [] then 0
    else
      var n := |ds| - 1;
      Breaches(ds[..n], threshold) + if ds[n] > threshold then 1 else 0
  }

  /** What does not breach a threshold is within it as a bound, and the other way round. */
  lemma {:induction false} BreachesOrWithin(ds: seq<real>, threshold: real)
    requires threshold > 0.0
    ensures Breaches(ds, threshold) + CountLe(ds, threshold / 1000.0) == |ds|
  {
    if ds != [] {
      BreachesOrWithin(ds[..|ds| - 1], threshold);
    }
  }

  /** What a row keeps of the durations alone. */
  datatype Totals = Totals(
    calls: nat, total: real, sumOfSquares: real, min: real, max: real, breaches: nat, buckets: BucketArray)

  function TotalsOf(ds: seq<real>, threshold: real): Totals
    requires ds != []
  {
    Totals(|ds|, Total(Identity(), ds), Total(Square(), ds), MinOf(ds), MaxOf(ds), Breaches(ds, threshold), Buckets(ds))
  }

  datatype Row = Row(
    representative: QueryPlan,
    totals: Totals,
    firstSeen: int,
    lastSeen: int,
    hours: map<int, HourMetrics>,
    windows: map<int, WindowBucket>
  )

  function RowOf(ms: Scale, threshold: real, g: Group): Row
    requires g.executions != []
  {
    Row(g.representative, TotalsOf(Durations(ms, g.executions), threshold), g.minTimestamp, g.maxTimestamp,
        Hours(ms, g.executions), Windows(ms, g.executions))
  }

  // ---- Building it ----

  function HourWith(h: HourMetrics, d: real): HourMetrics {
    HourMetrics(h.count + 1, h.total + d, if d < h.min then d else h.min, if d >= h.max then d else h.max)
  }

  lemma HourStep(ds: seq<real>, d: real)
    ensures HourOf(ds + [d]) == HourWith(if ds == [] then HourMetrics(0, 0.0, d, d) else HourOf(ds), d)
  {
    Snoc(ds, d);
    TotalSnoc(Identity(), ds, d);
    if ds == [] {
      assert ds + [d] == [d];
      assert Total(Identity(), ds) == 0.0;
    }
  }

  /** One execution more in its hour. */
  function HoursWith(m: map<int, HourMetrics>, hour: int, d: real): map<int, HourMetrics> {
    m[hour := HourWith(if hour in m then m[hour] else HourMetrics(0, 0.0, d, d), d)]
  }

  function WindowWith(w: WindowBucket, d: real): WindowBucket {
    WindowBucket(w.calls + 1, w.total + d, Bumped(w.buckets, BucketIndex(LATENCY_BUCKET_BOUNDS_SECONDS, d)))
  }

  /** One execution more in its minute. */
  function WindowsWith(m: map<int, WindowBucket>, minute: int, d: real): map<int, WindowBucket> {
    m[minute := WindowWith(if minute in m then m[minute] else NO_CALLS, d)]
  }

  lemma WindowStep(ds: seq<real>, d: real)
    ensures WindowOf(ds + [d]) == WindowWith(WindowOf(ds), d)
  {
    Snoc(ds, d);
  }

  /** One pass over the executions. */
  function HoursPass(ms: Scale, es: seq<Execution>): map<int, HourMetrics> {
    if es == [] then map[]
    else
      var e := es[|es| - 1];
      HoursWith(HoursPass(ms, es[..|es| - 1]), HourKey(e), ms(e.duration))
  }

  lemma {:induction false} HoursPassSplits(ms: Scale, es: seq<Execution>)
    ensures HoursPass(ms, es) == Hours(ms, es)
    decreases |es|
  {
    if es != [] {
      var init, e := Unsnoc(es);
      HoursPassSplits(ms, init);
      HoursPassStep(ms, init, e);
    }
  }

  lemma HoursPassStep(ms: Scale, es: seq<Execution>, e: Execution)
    requires HoursPass(ms, es) == Hours(ms, es)
    ensures HoursPass(ms, es + [e]) == Hours(ms, es + [e])
  {
    Snoc(es, e);
    HoursStep(ms, es, e);
  }

  /** `generate_hourly_histogram`. */
  method GenerateHourlyHistogram(ms: Scale, executions: seq<Execution>) returns (histogram: map<int, HourMetrics>)
    ensures histogram == Hours(ms, executions)
  {
    histogram := map[];
    for i := 0 to |executions|
      invariant histogram == HoursPass(ms, executions[..i])
    {
      var e := executions[i];
      assert executions[..i + 1][..i] == executions[..i];
      histogram := HoursWith(histogram, HourKey(e), ms(e.duration));
    }
    assert executions[..|executions|] == executions;
    HoursPassSplits(ms, executions);
  }

  /** The second loop of `generate_hourly_histogram`: each hour's mean, in no particular order. */
  method HourlyMeans(ms: Scale, executions: seq<Execution>, histogram: map<int, HourMetrics>) returns (means: map<int, real>)
    requires histogram == Hours(ms, executions)
    ensures means.Keys == histogram.Keys
    ensures forall k :: k in means ==> |HourDurations(ms, executions, k)| > 0 && means[k] == Mean(HourDurations(ms, executions, k))
  {
    means := map[];
    var rest := histogram.Keys;
    while rest != {}
      invariant rest <= histogram.Keys && means.Keys == histogram.Keys - rest
      invariant forall k :: k in means ==> |HourDurations(ms, executions, k)| > 0 && means[k] == Mean(HourDurations(ms, executions, k))
      decreases rest
    {
      var hour :| hour in rest;
      HourIsNonempty(ms, executions, hour);
      means := means[hour := histogram[hour].total / histogram[hour].count as real];
      rest := rest - {hour};
    }
  }

  /** The durations of one hour. */
  function HourDurations(ms: Scale, es: seq<Execution>, hour: int): seq<real> {
    Durations(ms, Filter(HourKey, es, hour))
  }

  lemma HourIsNonempty(ms: Scale, es: seq<Execution>, hour: int)
    requires hour in Hours(ms, es)
    ensures var h, ds := Hours(ms, es)[hour], HourDurations(ms, es, hour);
            |ds| > 0 && h.count == |ds| && h.total == Total(Identity(), ds)
  {
    FilterNonempty(HourKey, es, hour);
  }

  lemma HoursStep(ms: Scale, es: seq<Execution>, e: Execution)
    ensures Hours(ms, es + [e]) == HoursWith(Hours(ms, es), HourKey(e), ms(e.duration))
  {
    var part := Filter(HourKey, es, HourKey(e));
    PartsSnoc(HourOfAll(ms), HourKey, es, e);
    FilterNonempty(HourKey, es, HourKey(e));
    DurationsSnoc(ms, part, e);
    HourStep(Durations(ms, part), ms(e.duration));
  }

  lemma WindowsStep(ms: Scale, es: seq<Execution>, e: Execution)
    ensures Windows(ms, es + [e]) == WindowsWith(Windows(ms, es), MinuteKey(e), ms(e.duration))
  {
    var part := Filter(MinuteKey, es, MinuteKey(e));
    PartsSnoc(WindowOfAll(ms), MinuteKey, es, e);
    FilterNonempty(MinuteKey, es, MinuteKey(e));
    DurationsSnoc(ms, part, e);
    WindowStep(Durations(ms, part), ms(e.duration));
  }

  lemma BucketsStep(ms: Scale, es: seq<Execution>, e: Execution)
    ensures Buckets(Durations(ms, es + [e]))
         == Bumped(Buckets(Durations(ms, es)), BucketIndex(LATENCY_BUCKET_BOUNDS_SECONDS, ms(e.duration)))
  {
    DurationsSnoc(ms, es, e);
    WindowStep(Durations(ms, es), ms(e.duration));
  }

  const NO_CALLS: WindowBucket := WindowBucket(0, 0.0, Zeros(LATENCY_BUCKET_COUNT))

  /** One pass over the executions. */
  function WindowsPass(ms: Scale, es: seq<Execution>): map<int, WindowBucket> {
    if es == [] then map[]
    else
      var e := es[|es| - 1];
      WindowsWith(WindowsPass(ms, es[..|es| - 1]), MinuteKey(e), ms(e.duration))
  }

  lemma {:induction false} WindowsPassSplits(ms: Scale, es: seq<Execution>)
    ensures WindowsPass(ms, es) == Windows(ms, es)
    decreases |es|
  {
    if es != [] {
      var init, e := Unsnoc(es);
      WindowsPassSplits(ms, init);
      WindowsPassStep(ms, init, e);
    }
  }

  lemma WindowsPassStep(ms: Scale, es: seq<Execution>, e: Execution)
    requires WindowsPass(ms, es) == Windows(ms, es)
    ensures WindowsPass(ms, es + [e]) == Windows(ms, es + [e])
  {
    Snoc(es, e);
    WindowsStep(ms, es, e);
  }

  /** The loop of `build_stat_row`: the row's buckets, and its minutes. */
  method BucketsAndMinutes(ms: Scale, executions: seq<Execution>) returns (buckets: BucketArray, minutes: map<int, WindowBucket>)
    ensures buckets == Buckets(Durations(ms, executions)) && minutes == Windows(ms, executions)
  {
    buckets, minutes := Zeros(LATENCY_BUCKET_COUNT), map[];
    for i := 0 to |executions|
      invariant buckets == Buckets(Durations(ms, executions[..i]))
      invariant minutes == WindowsPass(ms, executions[..i])
    {
      var e := executions[i];
      BucketsStep(ms, executions[..i], e);
      assert executions[..i + 1] == executions[..i] + [e];
      assert executions[..i + 1][..i] == executions[..i];
      buckets := Bumped(buckets, BucketIndex(LATENCY_BUCKET_BOUNDS_SECONDS, ms(e.duration)));
      minutes := WindowsWith(minutes, MinuteKey(e), ms(e.duration));
    }
    assert executions[..|executions|] == executions;
    WindowsPassSplits(ms, executions);
  }

  /** `finalize_group` and `build_stat_row`. */
  method BuildStatRow(ms: Scale, sqrt: real -> real, threshold: real, g: Group) returns (row: Row)
    requires g.executions != []
    ensures row == RowOf(ms, threshold, g)
  {
    var ds := Durations(ms, g.executions);
    var durations := new real[|ds|](i requires 0 <= i < |ds| => ds[i]);
    assert durations[..] == ds;
    var stats := CalculateGroupDurationStats(sqrt, durations);
    var histogram := GenerateHourlyHistogram(ms, g.executions);
    var buckets, minutes := BucketsAndMinutes(ms, g.executions);
    var totals := Totals(|g.executions|, stats.total, Total(Square(), ds), stats.min, stats.max, Breaches(ds, threshold), buckets);
    row := Row(g.representative, totals, g.minTimestamp, g.maxTimestamp, histogram, minutes);
  }
}
