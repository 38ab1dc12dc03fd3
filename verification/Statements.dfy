/** The table of cumulative statistics: one row per group, upserted batch by batch. */
module Statements {
  import opened Common
  import opened EntryState
  import opened Fingerprints
  import opened Groups
  import opened DurationStats
  import opened Rollup
  import opened Latency
  import opened StatRow

  // ---- One row ----

  function Least(a: real, b: real): real { if b < a then b else a }

  function Greatest(a: real, b: real): real { if b > a then b else a }

  function JoinHours(a: HourMetrics, b: HourMetrics): HourMetrics {
    HourMetrics(a.count + b.count, a.total + b.total, Least(a.min, b.min), Greatest(a.max, b.max))
  }

  function JoinWindows(a: WindowBucket, b: WindowBucket): WindowBucket {
    WindowBucket(a.calls + b.calls, a.total + b.total, AddBuckets(a.buckets, b.buckets))
  }

  function JoinTotals(a: Totals, b: Totals): Totals {
    Totals(a.calls + b.calls, a.total + b.total, a.sumOfSquares + b.sumOfSquares, Least(a.min, b.min),
           Greatest(a.max, b.max), a.breaches + b.breaches, AddBuckets(a.buckets, b.buckets))
  }

  /** `ON CONFLICT DO UPDATE`: `a` is stored, `b` excluded. */
  function Upsert(a: Row, b: Row): Row {
    Row(
      if b.totals.max >= a.totals.max then b.representative else a.representative,
      JoinTotals(a.totals, b.totals),
      Min2(a.firstSeen, b.firstSeen),
      Max2(a.lastSeen, b.lastSeen),
      MergeBy(JoinHours, a.hours, b.hours),
      MergeBy(JoinWindows, a.windows, b.windows))
  }

  lemma {:induction false} MinAppend(a: seq<real>, b: seq<real>)
    requires a != [] && b != []
    ensures MinOf(a + b) == Least(MinOf(a), MinOf(b))
    ensures MaxOf(a + b) == Greatest(MaxOf(a), MaxOf(b))
    decreases |b|
  {
    var n := |b| - 1;
    assert (a + b)[..|a + b| - 1] == a + b[..n];
    if n == 0 {
      assert a + b[..n] == a;
    } else {
      MinAppend(a, b[..n]);
    }
  }

  lemma {:induction false} BreachesAppend(a: seq<real>, b: seq<real>, threshold: real)
    ensures Breaches(a + b, threshold) == Breaches(a, threshold) + Breaches(b, threshold)
    decreases |b|
  {
    if b == [] {
      assert a + b == a;
    } else {
      var n := |b| - 1;
      assert (a + b)[..|a + b| - 1] == a + b[..n];
      BreachesAppend(a, b[..n], threshold);
    }
  }

  lemma HourAppend(a: seq<real>, b: seq<real>)
    requires a != [] && b != []
    ensures HourOf(a + b) == JoinHours(HourOf(a), HourOf(b))
  {
    MinAppend(a, b);
    TotalAppend(Identity(), a, b);
  }

  lemma WindowAppend(a: seq<real>, b: seq<real>)
    ensures WindowOf(a + b) == JoinWindows(WindowOf(a), WindowOf(b))
  {
    TotalAppend(Identity(), a, b);
    HistogramAppend(LATENCY_BUCKET_BOUNDS_SECONDS, a, b);
  }

  lemma HoursAppend(ms: Scale, a: seq<Execution>, b: seq<Execution>)
    ensures Hours(ms, a + b) == MergeBy(JoinHours, Hours(ms, a), Hours(ms, b))
  {
    forall x: seq<Execution>, y: seq<Execution> | x != [] && y != []
      ensures HourOfAll(ms)(x + y) == JoinHours(HourOfAll(ms)(x), HourOfAll(ms)(y))
    {
      DurationsAppend(ms, x, y);
      HourAppend(Durations(ms, x), Durations(ms, y));
    }
    PartsAppend(HourOfAll(ms), JoinHours, HourKey, a, b);
  }

  lemma WindowsAppend(ms: Scale, a: seq<Execution>, b: seq<Execution>)
    ensures Windows(ms, a + b) == MergeBy(JoinWindows, Windows(ms, a), Windows(ms, b))
  {
    forall x: seq<Execution>, y: seq<Execution> | x != [] && y != []
      ensures WindowOfAll(ms)(x + y) == JoinWindows(WindowOfAll(ms)(x), WindowOfAll(ms)(y))
    {
      DurationsAppend(ms, x, y);
      WindowAppend(Durations(ms, x), Durations(ms, y));
    }
    PartsAppend(WindowOfAll(ms), JoinWindows, MinuteKey, a, b);
  }

  /** The representative is one of the executions, and none is slower. */
  ghost predicate Represented(g: Group) {
    && (exists i :: 0 <= i < |g.executions| && g.executions[i].duration == g.representative.duration)
    && (forall i :: 0 <= i < |g.executions| ==> g.executions[i].duration <= g.representative.duration)
  }

  lemma CombinedRepresented(a: Group, b: Group)
    requires Represented(a) && Represented(b)
    ensures Represented(Combined(a, b))
  {
    var all := a.executions + b.executions;
    var i :| 0 <= i < |a.executions| && a.executions[i].duration == a.representative.duration;
    var j :| 0 <= j < |b.executions| && b.executions[j].duration == b.representative.duration;
    assert all[i] == a.executions[i] && all[|a.executions| + j] == b.executions[j];
  }

  lemma {:induction false} SummaryRepresented(plans: seq<QueryPlan>)
    requires plans != []
    ensures Represented(Summary(plans))
  {
    var n := |plans| - 1;
    assert Single(plans[n]).executions[0].duration == plans[n].duration;
    if n > 0 {
      SummaryRepresented(plans[..n]);
      CombinedRepresented(Summary(plans[..n]), Single(plans[n]));
    }
  }

  lemma {:induction false} DurationAt(ms: Scale, es: seq<Execution>, i: nat)
    requires i < |es|
    ensures Durations(ms, es)[i] == ms(es[i].duration)
  {
    if i < |es| - 1 {
      DurationAt(ms, es[..|es| - 1], i);
    }
  }

  /** The row's maximum is the representative's duration. */
  lemma MaxIsRepresentative(ms: Scale, g: Group)
    requires KeepsOrder(ms) && Represented(g)
    ensures MaxOf(Durations(ms, g.executions)) == ms(g.representative.duration)
  {
    var ds := Durations(ms, g.executions);
    var r :| 0 <= r < |ds| && g.executions[r].duration == g.representative.duration;
    MinIsLeast(ds);
    DurationAt(ms, g.executions, r);
    var k :| 0 <= k < |ds| && ds[k] == MaxOf(ds);
    DurationAt(ms, g.executions, k);
    assert g.executions[k].duration <= g.representative.duration;
  }

  /** Upserting the row of a batch gives the row of both groups together. */
  lemma RowAppend(ms: Scale, threshold: real, a: Group, b: Group)
    requires KeepsOrder(ms) && Represented(a) && Represented(b)
    ensures RowOf(ms, threshold, Combined(a, b)) == Upsert(RowOf(ms, threshold, a), RowOf(ms, threshold, b))
  {
    DurationsAppend(ms, a.executions, b.executions);
    TotalsAppend(Durations(ms, a.executions), Durations(ms, b.executions), threshold);
    HoursAppend(ms, a.executions, b.executions);
    WindowsAppend(ms, a.executions, b.executions);
    MaxIsRepresentative(ms, a);
    MaxIsRepresentative(ms, b);
  }

  lemma TotalsAppend(x: seq<real>, y: seq<real>, threshold: real)
    requires x != [] && y != []
    ensures TotalsOf(x + y, threshold) == JoinTotals(TotalsOf(x, threshold), TotalsOf(y, threshold))
  {
    TotalAppend(Identity(), x, y);
    TotalAppend(Square(), x, y);
    MinAppend(x, y);
    BreachesAppend(x, y, threshold);
    HistogramAppend(LATENCY_BUCKET_BOUNDS_SECONDS, x, y);
  }

  // ---- The table ----

  type Table = map<Text, Row>

  ghost predicate AllRepresented(m: GroupMap) {
    forall key :: key in m ==> Represented(m[key])
  }

  ghost function TableOf(ms: Scale, threshold: real, m: GroupMap): Table
    requires AllRepresented(m)
  {
    map key | key in m :: RowOf(ms, threshold, m[key])
  }

  lemma GroupsRepresented(sql: Sql, plans: seq<QueryPlan>)
    ensures AllRepresented(GroupsOf(sql, plans))
  {
    forall key | key in GroupsOf(sql, plans) ensures Represented(GroupsOf(sql, plans)[key]) {
      SelectNonempty(sql, plans, key);
      SummaryRepresented(Select(sql, plans, key));
    }
  }

  /** The rows a sequence of plans amounts to. */
  ghost function RowsOf(ms: Scale, threshold: real, sql: Sql, plans: seq<QueryPlan>): Table {
    GroupsRepresented(sql, plans);
    TableOf(ms, threshold, GroupsOf(sql, plans))
  }

  lemma MergedRows(ms: Scale, threshold: real, m: GroupMap, n: GroupMap)
    requires KeepsOrder(ms) && AllRepresented(m) && AllRepresented(n) && AllRepresented(Merged(m, n))
    ensures TableOf(ms, threshold, Merged(m, n))
         == MergeBy(Upsert, TableOf(ms, threshold, m), TableOf(ms, threshold, n))
  {
    var t, u, l := TableOf(ms, threshold, m), TableOf(ms, threshold, n), TableOf(ms, threshold, Merged(m, n));
    TableKeys(ms, threshold, m);
    TableKeys(ms, threshold, n);
    TableKeys(ms, threshold, Merged(m, n));
    MergedKeys(m, n);
    forall key | key in l.Keys
      ensures l[key] == if key !in u then t[key] else if key !in t then u[key] else Upsert(t[key], u[key])
    {
      MergedRowAt(ms, threshold, m, n, key);
    }
    MergedIs(t, u, l);
  }

  lemma TableKeys(ms: Scale, threshold: real, m: GroupMap)
    requires AllRepresented(m)
    ensures TableOf(ms, threshold, m).Keys == m.Keys
  {}

  lemma MergedKeys(m: GroupMap, n: GroupMap)
    ensures Merged(m, n).Keys == m.Keys + n.Keys
  {}

  /** A table that is two others, upserted key by key. */
  lemma MergedIs(t: Table, u: Table, l: Table)
    requires l.Keys == t.Keys + u.Keys
    requires forall key :: key in l.Keys ==>
      l[key] == if key !in u then t[key] else if key !in t then u[key] else Upsert(t[key], u[key])
    ensures l == MergeBy(Upsert, t, u)
  {
    SameMap(l, MergeBy(Upsert, t, u));
  }

  lemma MergedRowAt(ms: Scale, threshold: real, m: GroupMap, n: GroupMap, key: Text)
    requires KeepsOrder(ms) && AllRepresented(m) && AllRepresented(n) && key in Merged(m, n)
    requires Merged(m, n)[key].executions != []
    ensures RowOf(ms, threshold, Merged(m, n)[key])
         == if key !in n then RowOf(ms, threshold, m[key])
            else if key !in m then RowOf(ms, threshold, n[key])
            else Upsert(RowOf(ms, threshold, m[key]), RowOf(ms, threshold, n[key]))
  {
    if key in m && key in n {
      RowAppend(ms, threshold, m[key], n[key]);
    }
  }

  /** Upserting the rows of a second batch gives the rows of both batches' plans in sequence. */
  lemma RowsAppend(ms: Scale, threshold: real, sql: Sql, a: seq<QueryPlan>, b: seq<QueryPlan>)
    requires KeepsOrder(ms)
    ensures RowsOf(ms, threshold, sql, a + b)
         == MergeBy(Upsert, RowsOf(ms, threshold, sql, a), RowsOf(ms, threshold, sql, b))
  {
    GroupsAppend(sql, a, b);
    GroupsRepresented(sql, a);
    GroupsRepresented(sql, b);
    GroupsRepresented(sql, a + b);
    MergedRows(ms, threshold, GroupsOf(sql, a), GroupsOf(sql, b));
  }

  /** The table after every batch has been upserted in turn. */
  ghost function UpsertAll(ms: Scale, threshold: real, sql: Sql, batches: seq<seq<QueryPlan>>): Table {
    if batches == [] then map[]
    else
      var n := |batches| - 1;
      MergeBy(Upsert, UpsertAll(ms, threshold, sql, batches[..n]), RowsOf(ms, threshold, sql, batches[n]))
  }

  /** However executions are cut into batches, the table is that of one pass over all of them. */
  lemma {:induction false} BatchesAreOnePass(ms: Scale, threshold: real, sql: Sql, batches: seq<seq<QueryPlan>>)
    requires KeepsOrder(ms)
    ensures UpsertAll(ms, threshold, sql, batches) == RowsOf(ms, threshold, sql, Flatten(batches))
  {
    if batches == [] {
      assert Keys(sql, []) == {};
    } else {
      var n := |batches| - 1;
      BatchesAreOnePass(ms, threshold, sql, batches[..n]);
      RowsAppend(ms, threshold, sql, Flatten(batches[..n]), batches[n]);
      FlattenLast(batches);
    }
  }

  // ---- Conservation ----

  function One(): Execution -> real {
    (e: Execution) => 1.0
  }

  function Milliseconds(ms: Scale): Execution -> real {
    (e: Execution) => ms(e.duration)
  }

  function InBucket(ms: Scale, b: nat): Execution -> real {
    (e: Execution) => if BucketIndex(LATENCY_BUCKET_BOUNDS_SECONDS, ms(e.duration)) == b then 1.0 else 0.0
  }

  lemma {:induction false} CountAsTotal(es: seq<Execution>)
    ensures Total(One(), es) == |es| as real
  {
    if es != [] {
      CountAsTotal(es[..|es| - 1]);
    }
  }

  lemma {:induction false} TimeAsTotal(ms: Scale, es: seq<Execution>)
    ensures Total(Milliseconds(ms), es) == Total(Identity(), Durations(ms, es))
    decreases |es|
  {
    if es != [] {
      var init, e := Unsnoc(es);
      TimeAsTotal(ms, init);
      TotalSnoc(Milliseconds(ms), init, e);
      DurationsSnoc(ms, init, e);
      TotalSnoc(Identity(), Durations(ms, init), ms(e.duration));
    }
  }

  lemma {:induction false} BucketAsTotal(ms: Scale, es: seq<Execution>, b: nat)
    requires b < LATENCY_BUCKET_COUNT
    ensures Total(InBucket(ms, b), es) == Buckets(Durations(ms, es))[b] as real
    decreases |es|
  {
    if es != [] {
      var init, e := Unsnoc(es);
      BucketAsTotal(ms, init, b);
      TotalSnoc(InBucket(ms, b), init, e);
      BucketsStep(ms, init, e);
    }
  }

  /** The minute windows add up to the row: calls, time and every latency bucket. */
  lemma WindowsConserve(ms: Scale, es: seq<Execution>, b: nat)
    requires b < LATENCY_BUCKET_COUNT
    ensures MapTotal(Project((w: WindowBucket) => w.calls as real, Windows(ms, es))) == |es| as real
    ensures MapTotal(Project((w: WindowBucket) => w.total, Windows(ms, es))) == Total(Identity(), Durations(ms, es))
    ensures MapTotal(Project((w: WindowBucket) => w.buckets[b] as real, Windows(ms, es)))
         == Buckets(Durations(ms, es))[b] as real
  {
    var calls := (w: WindowBucket) => w.calls as real;
    var time := (w: WindowBucket) => w.total;
    var bucket := (w: WindowBucket) => w.buckets[b] as real;
    forall fs: seq<Execution>
      ensures calls(WindowOfAll(ms)(fs)) == Total(One(), fs)
      ensures time(WindowOfAll(ms)(fs)) == Total(Milliseconds(ms), fs)
      ensures bucket(WindowOfAll(ms)(fs)) == Total(InBucket(ms, b), fs)
    {
      CountAsTotal(fs);
      TimeAsTotal(ms, fs);
      BucketAsTotal(ms, fs, b);
    }
    ProjectionAddsUp(calls, WindowOfAll(ms), One(), MinuteKey, es);
    ProjectionAddsUp(time, WindowOfAll(ms), Milliseconds(ms), MinuteKey, es);
    ProjectionAddsUp(bucket, WindowOfAll(ms), InBucket(ms, b), MinuteKey, es);
    CountAsTotal(es);
    TimeAsTotal(ms, es);
    BucketAsTotal(ms, es, b);
  }

  /** So do the hourly buckets. */
  lemma HoursConserve(ms: Scale, es: seq<Execution>)
    ensures MapTotal(Project((h: HourMetrics) => h.count as real, Hours(ms, es))) == |es| as real
    ensures MapTotal(Project((h: HourMetrics) => h.total, Hours(ms, es))) == Total(Identity(), Durations(ms, es))
  {
    var calls := (h: HourMetrics) => h.count as real;
    var time := (h: HourMetrics) => h.total;
    forall fs: seq<Execution>
      ensures calls(HourOfAll(ms)(fs)) == Total(One(), fs)
      ensures time(HourOfAll(ms)(fs)) == Total(Milliseconds(ms), fs)
    {
      CountAsTotal(fs);
      TimeAsTotal(ms, fs);
    }
    ProjectionAddsUp(calls, HourOfAll(ms), One(), HourKey, es);
    ProjectionAddsUp(time, HourOfAll(ms), Milliseconds(ms), HourKey, es);
    CountAsTotal(es);
    TimeAsTotal(ms, es);
  }

  /** The row's own buckets count every call once, and up to each bound exactly those within it. */
  lemma BucketsConserve(ms: Scale, threshold: real, g: Group, b: nat)
    requires g.executions != [] && b < LATENCY_BUCKET_COUNT - 1
    ensures var row := RowOf(ms, threshold, g);
            && Cumulative(row.totals.buckets, LATENCY_BUCKET_COUNT) == row.totals.calls
            && Cumulative(row.totals.buckets, b + 1) == CountLe(Durations(ms, g.executions), LATENCY_BUCKET_BOUNDS_SECONDS[b])
  {
    BoundsAscend();
    HistogramCountsAll(LATENCY_BUCKET_BOUNDS_SECONDS, Durations(ms, g.executions));
    CumulativeIsLe(LATENCY_BUCKET_BOUNDS_SECONDS, Durations(ms, g.executions), b);
  }
}
