/** What the row of a group says about the plans behind it. */
module RowLaws {
  import opened EntryState
  import opened Groups
  import opened DurationStats
  import opened Rollup
  import opened Latency
  import opened StatRow
  import opened Statements

  /** The row of a sequence of plans that form one group. */
  function RowOfPlans(ms: Scale, threshold: real, plans: seq<QueryPlan>): Row
    requires plans != []
  {
    ExecutionsCount(plans);
    RowOf(ms, threshold, Summary(plans))
  }

  /** Every plan's duration in milliseconds. */
  function Times(ms: Scale, plans: seq<QueryPlan>): (ds: seq<real>)
    ensures |ds| == |plans|
  {
    seq(|plans|, i requires 0 <= i < |plans| => ms(plans[i].duration))
  }

  lemma {:induction false} ExecutionsCount(plans: seq<QueryPlan>)
    requires plans != []
    ensures |Summary(plans).executions| == |plans|
  {
    var r := SummaryMeaning(plans);
    ExecutionsLength(plans);
  }

  lemma {:induction false} ExecutionsLength(plans: seq<QueryPlan>)
    ensures |Executions(plans)| == |plans|
  {
    if plans != [] {
      ExecutionsLength(plans[..|plans| - 1]);
    }
  }

  lemma {:induction false} TimesOfExecutions(ms: Scale, plans: seq<QueryPlan>)
    ensures Durations(ms, Executions(plans)) == Times(ms, plans)
  {
    if plans != [] {
      var n := |plans| - 1;
      TimesOfExecutions(ms, plans[..n]);
      DurationsSnoc(ms, Executions(plans[..n]), ExecutionOf(plans[n]));
    }
  }

  lemma RowTimes(ms: Scale, threshold: real, plans: seq<QueryPlan>)
    requires plans != []
    ensures RowOfPlans(ms, threshold, plans).totals == TotalsOf(Times(ms, plans), threshold)
    ensures Summary(plans).executions == Executions(plans)
    ensures Durations(ms, Summary(plans).executions) == Times(ms, plans)
  {
    var r := SummaryMeaning(plans);
    TimesOfExecutions(ms, plans);
  }

  /** Calls and time are those of all plans, and of all hours and all minutes together. */
  lemma RowAddsUp(ms: Scale, threshold: real, plans: seq<QueryPlan>)
    requires plans != []
    ensures var row := RowOfPlans(ms, threshold, plans);
            && row.totals.calls == |plans| && row.totals.total == Total(Identity(), Times(ms, plans))
            && MapTotal(Project((h: HourMetrics) => h.count as real, row.hours)) == row.totals.calls as real
            && MapTotal(Project((h: HourMetrics) => h.total, row.hours)) == row.totals.total
            && MapTotal(Project((w: WindowBucket) => w.calls as real, row.windows)) == row.totals.calls as real
            && MapTotal(Project((w: WindowBucket) => w.total, row.windows)) == row.totals.total
  {
    RowTimes(ms, threshold, plans);
    HoursConserve(ms, Summary(plans).executions);
    WindowsConserve(ms, Summary(plans).executions, 0);
  }

  /** The variance that is computed from the row is the mean squared deviation of the durations. */
  lemma RowSpread(ms: Scale, threshold: real, plans: seq<QueryPlan>)
    requires plans != []
    ensures var ds, t := Times(ms, plans), RowOfPlans(ms, threshold, plans).totals;
            t.calls > 0 &&
            var mean := t.total / t.calls as real;
            Spread(t.sumOfSquares, t.calls as real, mean) == Total(SquaredDeviation(mean), ds) / |ds| as real
  {
    RowTimes(ms, threshold, plans);
    VarianceFromSums(Times(ms, plans));
  }

  /** The extremes are durations, and bound all of them. */
  lemma RowExtremes(ms: Scale, threshold: real, plans: seq<QueryPlan>)
    requires plans != []
    ensures var t := RowOfPlans(ms, threshold, plans).totals; Lies(Times(ms, plans), t.min, t.max)
  {
    RowTimes(ms, threshold, plans);
    MinIsLeast(Times(ms, plans));
  }

  /** The row names the last of its slowest plans, and when the first and the last of all were. */
  lemma RowRange(ms: Scale, threshold: real, plans: seq<QueryPlan>) returns (r: nat)
    requires plans != []
    ensures var row := RowOfPlans(ms, threshold, plans);
            && LastSlowest(plans, r) && row.representative == plans[r]
            && TimeRange(plans, row.firstSeen, row.lastSeen)
  {
    r := SummaryMeaning(plans);
  }

  // ---- Breaches ----

  /** Where the durations exceed the threshold. */
  function Slower(ds: seq<real>, threshold: real): set<int> {
    set i | 0 <= i < |ds| && ds[i] > threshold
  }

  lemma {:induction false} BreachesAreCounted(ds: seq<real>, threshold: real)
    ensures Breaches(ds, threshold) == if threshold > 0.0 then |Slower(ds, threshold)| else 0
  {
    if ds != [] {
      var n := |ds| - 1;
      BreachesAreCounted(ds[..n], threshold);
      SlowerGrows(ds, threshold);
    }
  }

  /** Breaches are the durations above the threshold, if there is one. */
  lemma RowBreaches(ms: Scale, threshold: real, plans: seq<QueryPlan>)
    requires plans != []
    ensures RowOfPlans(ms, threshold, plans).totals.breaches
         == if threshold > 0.0 then |Slower(Times(ms, plans), threshold)| else 0
  {
    RowTimes(ms, threshold, plans);
    BreachesAreCounted(Times(ms, plans), threshold);
  }

  /** Where they are within it. */
  function Within(ds: seq<real>, threshold: real): set<int> {
    set i | 0 <= i < |ds| && ds[i] <= threshold
  }

  lemma {:induction false} SlowerOrWithin(ds: seq<real>, threshold: real)
    ensures |Slower(ds, threshold)| + |Within(ds, threshold)| == |ds|
  {
    if ds != [] {
      SlowerOrWithin(ds[..|ds| - 1], threshold);
      SlowerGrows(ds, threshold);
      WithinGrows(ds, threshold);
    }
  }

  lemma SlowerGrows(ds: seq<real>, threshold: real)
    requires ds != []
    ensures |Slower(ds, threshold)| == |Slower(ds[..|ds| - 1], threshold)| + if ds[|ds| - 1] > threshold then 1 else 0
  {
    var n := |ds| - 1;
    assert Slower(ds, threshold) == Slower(ds[..n], threshold) + if ds[n] > threshold then {n} else {};
  }

  lemma WithinGrows(ds: seq<real>, threshold: real)
    requires ds != []
    ensures |Within(ds, threshold)| == |Within(ds[..|ds| - 1], threshold)| + if ds[|ds| - 1] <= threshold then 1 else 0
  {
    var n := |ds| - 1;
    assert Within(ds, threshold) == Within(ds[..n], threshold) + if ds[n] <= threshold then {n} else {};
  }

  /** And the others are those within it. */
  lemma RowWithin(ms: Scale, threshold: real, plans: seq<QueryPlan>)
    requires plans != [] && threshold > 0.0
    ensures var t := RowOfPlans(ms, threshold, plans).totals;
            t.breaches + |Within(Times(ms, plans), threshold)| == t.calls
  {
    RowTimes(ms, threshold, plans);
    RowBreaches(ms, threshold, plans);
    SlowerOrWithin(Times(ms, plans), threshold);
  }

  // ---- Hours and minutes ----

  /** The durations of the plans from one time to another. */
  function TimesBetween(ms: Scale, plans: seq<QueryPlan>, from: int, to: int): seq<real> {
    if plans == [] then []
    else
      var n := |plans| - 1;
      TimesBetween(ms, plans[..n], from, to) + if from <= plans[n].timestamp < to then [ms(plans[n].duration)] else []
  }

  lemma {:induction false} HourTimes(ms: Scale, plans: seq<QueryPlan>, k: int)
    requires k % HOUR == 0
    ensures Durations(ms, Filter(HourKey, Executions(plans), k)) == TimesBetween(ms, plans, k, k + HOUR)
  {
    if plans != [] {
      var n := |plans| - 1;
      var init, e := Executions(plans[..n]), ExecutionOf(plans[n]);
      HourTimes(ms, plans[..n], k);
      SameHour(e, k);
      FilterSnoc(HourKey, init, e, k);
      DurationsSnoc(ms, Filter(HourKey, init, k), e);
    }
  }

  /** A time lies in one hour only. */
  lemma SameHour(e: Execution, k: int)
    requires k % HOUR == 0
    ensures HourKey(e) == k <==> k <= e.timestamp < k + HOUR
  {
    WholeBelow(e.timestamp, HOUR, k);
  }

  lemma WholeBelow(t: int, width: int, k: int)
    requires width > 0 && k % width == 0
    ensures t - t % width == k <==> k <= t < k + width
  {
    var i, j := t / width, k / width;
    assert t == width * i + t % width && k == width * j;
    if k <= t < k + width {
      Less(width, j, i + 1);
      Less(width, i, j + 1);
    }
  }

  lemma Less(width: int, a: int, b: int)
    requires width > 0 && width * a < width * b
    ensures a < b
  {
    if a >= b {
      Grows(width, b, a);
    }
  }

  lemma Grows(width: int, a: int, b: int)
    requires width > 0 && a <= b
    ensures width * a <= width * b
  {}

  lemma {:induction false} MinuteTimes(ms: Scale, plans: seq<QueryPlan>, k: int)
    requires k % 60 == 0
    ensures Durations(ms, Filter(MinuteKey, Executions(plans), k))
         == TimesBetween(ms, plans, k * SECOND, (k + 60) * SECOND)
  {
    if plans != [] {
      var n := |plans| - 1;
      var init, e := Executions(plans[..n]), ExecutionOf(plans[n]);
      MinuteTimes(ms, plans[..n], k);
      SameMinute(e, k);
      FilterSnoc(MinuteKey, init, e, k);
      DurationsSnoc(ms, Filter(MinuteKey, init, k), e);
    }
  }

  lemma SameMinute(e: Execution, k: int)
    requires k % 60 == 0
    ensures MinuteKey(e) == k <==> k * SECOND <= e.timestamp < (k + 60) * SECOND
  {
    KeysTruncate(e);
  }

  /** The row has an hour exactly if some plan lies in it, and says of it what is so. */
  lemma RowHours(ms: Scale, threshold: real, plans: seq<QueryPlan>, k: int)
    requires plans != [] && k % (3600 * SECOND) == 0
    ensures var row, ds := RowOfPlans(ms, threshold, plans), TimesBetween(ms, plans, k, k + 3600 * SECOND);
            && (k in row.hours <==> ds != [])
            && (k in row.hours ==>
              && row.hours[k].count == |ds| && row.hours[k].total == Total(Identity(), ds)
              && Lies(ds, row.hours[k].min, row.hours[k].max))
  {
    RowTimes(ms, threshold, plans);
    HourTimes(ms, plans, k);
    FilterNonempty(HourKey, Executions(plans), k);
    var ds := TimesBetween(ms, plans, k, k + HOUR);
    if ds != [] {
      MinIsLeast(ds);
    }
  }

  /** So with its minutes; each has its own latency buckets. */
  lemma RowMinutes(ms: Scale, threshold: real, plans: seq<QueryPlan>, k: int, b: nat)
    requires plans != [] && k % 60 == 0 && b < LATENCY_BUCKET_COUNT - 1
    ensures var row, ds := RowOfPlans(ms, threshold, plans), TimesBetween(ms, plans, k * SECOND, (k + 60) * SECOND);
            && (k in row.windows <==> ds != [])
            && (k in row.windows ==>
              && row.windows[k].calls == |ds| && row.windows[k].total == Total(Identity(), ds)
              && Cumulative(row.windows[k].buckets, LATENCY_BUCKET_COUNT) == |ds|
              && Cumulative(row.windows[k].buckets, b + 1) == CountLe(ds, LATENCY_BUCKET_BOUNDS_SECONDS[b]))
  {
    var ds := TimesBetween(ms, plans, k * SECOND, (k + 60) * SECOND);
    RowTimes(ms, threshold, plans);
    MinuteTimes(ms, plans, k);
    FilterNonempty(MinuteKey, Executions(plans), k);
    BoundsAscend();
    HistogramCountsAll(LATENCY_BUCKET_BOUNDS_SECONDS, ds);
    CumulativeIsLe(LATENCY_BUCKET_BOUNDS_SECONDS, ds, b);
  }

  /** Only whole hours and whole minutes have entries. */
  lemma RowKeys(ms: Scale, threshold: real, plans: seq<QueryPlan>, k: int)
    requires plans != []
    ensures var row := RowOfPlans(ms, threshold, plans);
            (k in row.hours ==> k % HOUR == 0) && (k in row.windows ==> k % 60 == 0)
  {
    HoursAreWhole(Summary(plans).executions, k);
    MinutesAreWhole(Summary(plans).executions, k);
  }

  lemma {:induction false} HoursAreWhole(es: seq<Execution>, k: int)
    ensures k in KeysOf(HourKey, es) ==> k % HOUR == 0
  {
    if es != [] {
      HoursAreWhole(es[..|es| - 1], k);
      KeysTruncate(es[|es| - 1]);
    }
  }

  lemma {:induction false} MinutesAreWhole(es: seq<Execution>, k: int)
    ensures k in KeysOf(MinuteKey, es) ==> k % 60 == 0
  {
    if es != [] {
      MinutesAreWhole(es[..|es| - 1], k);
      KeysTruncate(es[|es| - 1]);
    }
  }
}
