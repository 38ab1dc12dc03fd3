/** Statistics of one group's durations, in exact arithmetic. */
module DurationStats {

  datatype Percentiles = Percentiles(p25: real, p50: real, p90: real, p95: real, p99: real)

  datatype GroupStats = GroupStats(total: real, mean: real, stdDev: real, min: real, max: real, percentiles: Percentiles)

  const NO_PERCENTILES: Percentiles := Percentiles(0.0, 0.0, 0.0, 0.0, 0.0)

  // ---- Sums ----

  /** The sum of `f` over a sequence. */
  function Total<T>(f: T -> real, s: seq<T>): real {
    if s == [] then 0.0 else Total(f, s[..|s| - 1]) + f(s[|s| - 1])
  }

  lemma {:induction false} TotalAppend<T>(f: T -> real, a: seq<T>, b: seq<T>)
    ensures Total(f, a + b) == Total(f, a) + Total(f, b)
  {
    if b == [] {
      assert a + b == a;
    } else {
      var n := |b| - 1;
      TotalAppend(f, a, b[..n]);
      assert (a + b)[..|a + b| - 1] == a + b[..n];
    }
  }

  function Identity(): real -> real {
    (d: real) => d
  }

  function Square(): real -> real {
    (d: real) => d * d
  }

  function SquaredDeviation(mean: real): real -> real {
    (d: real) => (d - mean) * (d - mean)
  }

  // ---- The separate computations ----

  function Mean(s: seq<real>): real
    requires s != []
  {
    Total(Identity(), s) / |s| as real
  }

  /** Sample variance. */
  function Variance(s: seq<real>): real
    requires s != []
  {
    if |s| < 2 then 0.0 else Total(SquaredDeviation(Mean(s)), s) / (|s| - 1) as real
  }

  function MinOf(s: seq<real>): real
    requires s != []
  {
    if |s| == 1 then s[0]
    else
      var m := MinOf(s[..|s| - 1]);
      if s[|s| - 1] < m then s[|s| - 1] else m
  }

  function MaxOf(s: seq<real>): real
    requires s != []
  {
    if |s| == 1 then s[0]
    else
      var m := MaxOf(s[..|s| - 1]);
      if s[|s| - 1] >= m then s[|s| - 1] else m
  }

  // ---- Sorting ----

  ghost predicate IsSorted(s: seq<real>) {
    forall i, j :: 0 <= i < j < |s| ==> s[i] <= s[j]
  }

  function Insert(s: seq<real>, x: real): (r: seq<real>)
    ensures |r| == |s| + 1
  {
    if s == [] || s[|s| - 1] <= x then s + [x] else Insert(s[..|s| - 1], x) + [s[|s| - 1]]
  }

  function Sorted(s: seq<real>): (r: seq<real>)
    ensures |r| == |s|
  {
    if s == [] then [] else Insert(Sorted(s[..|s| - 1]), s[|s| - 1])
  }

  lemma SplitLast(s: seq<real>)
    requires s != []
    ensures s == s[..|s| - 1] + [s[|s| - 1]]
    ensures multiset(s) == multiset(s[..|s| - 1]) + multiset{s[|s| - 1]}
  {
    assert s == s[..|s| - 1] + [s[|s| - 1]];
  }

  lemma {:induction false} InsertMembers(s: seq<real>, x: real)
    ensures multiset(Insert(s, x)) == multiset(s) + multiset{x}
  {
    if s != [] && s[|s| - 1] > x {
      InsertMembers(s[..|s| - 1], x);
      SplitLast(s);
    }
  }

  lemma {:induction false} InsertTotal(f: real -> real, s: seq<real>, x: real)
    ensures Total(f, Insert(s, x)) == Total(f, s) + f(x)
  {
    if s == [] || s[|s| - 1] <= x {
      assert (s + [x])[..|s|] == s;
    } else {
      var n := |s| - 1;
      var r := Insert(s[..n], x);
      InsertTotal(f, s[..n], x);
      assert (r + [s[n]])[..|r|] == r;
    }
  }

  lemma InsertBelow(s: seq<real>, x: real, top: real)
    requires x <= top && forall i :: 0 <= i < |s| ==> s[i] <= top
    ensures forall i :: 0 <= i < |Insert(s, x)| ==> Insert(s, x)[i] <= top
  {
    var r := Insert(s, x);
    InsertMembers(s, x);
    forall i | 0 <= i < |r| ensures r[i] <= top {
      assert r[i] in multiset(r);
      assert r[i] == x || r[i] in s;
    }
  }

  lemma {:induction false} InsertSorted(s: seq<real>, x: real)
    requires IsSorted(s)
    ensures IsSorted(Insert(s, x))
  {
    if s != [] && s[|s| - 1] > x {
      var n := |s| - 1;
      var r := Insert(s[..n], x);
      InsertSorted(s[..n], x);
      InsertBelow(s[..n], x, s[n]);
    }
  }

  lemma {:induction false} SortedSorts(s: seq<real>)
    ensures IsSorted(Sorted(s)) && multiset(Sorted(s)) == multiset(s)
  {
    if s != [] {
      var n := |s| - 1;
      SortedSorts(s[..n]);
      InsertSorted(Sorted(s[..n]), s[n]);
      InsertMembers(Sorted(s[..n]), s[n]);
      SplitLast(s);
    }
  }

  /** Sorting moves no sum. */
  lemma {:induction false} SortedTotal(f: real -> real, s: seq<real>)
    ensures Total(f, Sorted(s)) == Total(f, s)
  {
    if s != [] {
      SortedTotal(f, s[..|s| - 1]);
      InsertTotal(f, Sorted(s[..|s| - 1]), s[|s| - 1]);
    }
  }

  /** There is one sorted arrangement. */
  lemma {:induction false} SortedUnique(a: seq<real>, b: seq<real>)
    requires IsSorted(a) && IsSorted(b) && multiset(a) == multiset(b)
    ensures a == b
    decreases |a|
  {
    assert |a| == |multiset(a)| && |b| == |multiset(b)|;
    if a != [] {
      var n := |a| - 1;
      SplitLast(a);
      SplitLast(b);
      SameLast(a, b);
      WithoutOne(multiset(a[..n]), multiset(b[..n]), a[n]);
      SortedUnique(a[..n], b[..n]);
    }
  }

  lemma WithoutOne(a: multiset<real>, b: multiset<real>, x: real)
    requires a + multiset{x} == b + multiset{x}
    ensures a == b
  {
    assert a == (a + multiset{x}) - multiset{x} && b == (b + multiset{x}) - multiset{x};
  }

  lemma SameLast(a: seq<real>, b: seq<real>)
    requires IsSorted(a) && IsSorted(b) && multiset(a) == multiset(b) && |a| == |b| > 0
    ensures a[|a| - 1] == b[|b| - 1]
  {
    assert b[|b| - 1] in multiset(b) && a[|a| - 1] in multiset(a);
    LastIsGreatest(a, b[|b| - 1]);
    LastIsGreatest(b, a[|a| - 1]);
  }

  lemma LastIsGreatest(s: seq<real>, x: real)
    requires IsSorted(s) && x in multiset(s)
    ensures s != [] && x <= s[|s| - 1]
  {
    assert x in s;
  }

  lemma SortedOfPermutation(s: seq<real>, t: seq<real>)
    requires multiset(s) == multiset(t)
    ensures Sorted(s) == Sorted(t)
  {
    SortedSorts(s);
    SortedSorts(t);
    SortedUnique(Sorted(s), Sorted(t));
  }

  lemma {:induction false} MinIsLeast(s: seq<real>)
    requires s != []
    ensures MinOf(s) in s && MaxOf(s) in s
    ensures forall i :: 0 <= i < |s| ==> MinOf(s) <= s[i] <= MaxOf(s)
  {
    if |s| > 1 {
      var n := |s| - 1;
      MinIsLeast(s[..n]);
      assert s == s[..n] + [s[n]];
    }
  }

  /** The ends of the sorted durations are their minimum and maximum. */
  lemma SortedEnds(s: seq<real>)
    requires s != []
    ensures Sorted(s)[0] == MinOf(s) && Sorted(s)[|s| - 1] == MaxOf(s)
  {
    SortedSorts(s);
    MinIsLeast(s);
    EndsAreExtremes(s, Sorted(s), MinOf(s), MaxOf(s));
  }

  lemma EndsAreExtremes(s: seq<real>, r: seq<real>, lo: real, hi: real)
    requires r != [] && IsSorted(r) && multiset(s) == multiset(r)
    requires lo in s && hi in s && forall x :: x in s ==> lo <= x <= hi
    ensures r[0] == lo && r[|r| - 1] == hi
  {
    SameMembers(s, r, lo);
    SameMembers(s, r, hi);
    SameMembers(r, s, r[0]);
    SameMembers(r, s, r[|r| - 1]);
  }

  lemma SameMembers(s: seq<real>, t: seq<real>, x: real)
    requires multiset(s) == multiset(t) && x in s
    ensures x in t
  {
    assert x in multiset(t);
  }

  // ---- Percentiles ----

  function Ceil(x: real): int {
    if x.Floor as real == x then x.Floor else x.Floor + 1
  }

  lemma CeilWithin(x: real, n: nat)
    requires x <= n as real
    ensures Ceil(x) <= n
  {}

  /** Linear interpolation between the two elements around position `x`. */
  function Interpolate(s: seq<real>, x: real): real
    requires 0.0 <= x && Ceil(x) < |s|
  {
    var lower, upper := x.Floor, Ceil(x);
    if lower == upper then s[lower]
    else
      var weight := x - lower as real;
      s[lower] * (1.0 - weight) + s[upper] * weight
  }

  function Position(n: nat, percentile: real): (x: real)
    requires n > 0 && 0.0 <= percentile <= 100.0
    ensures 0.0 <= x <= (n - 1) as real
  {
    PositionInRange(n, percentile);
    Times(percentile / 100.0, (n - 1) as real)
  }

  function Times(a: real, b: real): real {
    a * b
  }

  lemma PositionInRange(n: nat, percentile: real)
    requires n > 0 && 0.0 <= percentile <= 100.0
    ensures 0.0 <= Times(percentile / 100.0, (n - 1) as real) <= (n - 1) as real
  {
    Scaled(0.0, percentile / 100.0, (n - 1) as real);
    Scaled(percentile / 100.0, 1.0, (n - 1) as real);
  }

  lemma PositionMonotone(n: nat, p: real, q: real)
    requires n > 0 && 0.0 <= p <= q <= 100.0
    ensures Position(n, p) <= Position(n, q)
  {
    Scaled(p / 100.0, q / 100.0, (n - 1) as real);
  }

  lemma Scaled(a: real, b: real, c: real)
    requires a <= b && 0.0 <= c
    ensures Times(a, c) <= Times(b, c)
  {}

  function Percentile(s: seq<real>, percentile: real): real
    requires 0.0 <= percentile <= 100.0
  {
    if s == [] then 0.0
    else
      CeilWithin(Position(|s|, percentile), |s| - 1);
      Interpolate(s, Position(|s|, percentile))
  }

  function PercentilesFromSorted(s: seq<real>): Percentiles {
    Percentiles(Percentile(s, 25.0), Percentile(s, 50.0), Percentile(s, 90.0), Percentile(s, 95.0), Percentile(s, 99.0))
  }

  function CalculatePercentiles(s: seq<real>): Percentiles {
    if s == [] then NO_PERCENTILES else PercentilesFromSorted(Sorted(s))
  }

  /** Weights move the value between the ends, in order. */
  lemma Between(a: real, b: real, v: real, w: real)
    requires a <= b && 0.0 <= v <= w <= 1.0
    ensures a <= a * (1.0 - v) + b * v <= a * (1.0 - w) + b * w <= b
  {
    Scaled(v, w, b - a);
    Scaled(0.0, v, b - a);
    Scaled(w, 1.0, b - a);
  }

  /** An interpolated value lies between its neighbours. */
  lemma InterpolateBetween(s: seq<real>, x: real)
    requires IsSorted(s) && 0.0 <= x && Ceil(x) < |s|
    ensures s[x.Floor] <= Interpolate(s, x) <= s[Ceil(x)]
  {
    if x.Floor != Ceil(x) {
      var w := x - x.Floor as real;
      Between(s[x.Floor], s[Ceil(x)], w, w);
    }
  }

  lemma InterpolateMonotone(s: seq<real>, x: real, y: real)
    requires IsSorted(s) && 0.0 <= x <= y && Ceil(y) < |s|
    ensures Ceil(x) < |s| && Interpolate(s, x) <= Interpolate(s, y)
  {
    InterpolateBetween(s, x);
    InterpolateBetween(s, y);
    if x.Floor == y.Floor {
      if x.Floor as real != x {
        Between(s[x.Floor], s[x.Floor + 1], x - x.Floor as real, y - x.Floor as real);
      }
    } else {
      assert Ceil(x) <= y.Floor;
    }
  }

  /** A higher percentile is never lower, and all lie between the minimum and the maximum. */
  lemma PercentileLaws(s: seq<real>, p: real, q: real)
    requires IsSorted(s) && s != [] && 0.0 <= p <= q <= 100.0
    ensures s[0] <= Percentile(s, p) <= Percentile(s, q) <= s[|s| - 1]
  {
    var x, y := Position(|s|, p), Position(|s|, q);
    PositionMonotone(|s|, p, q);
    CeilWithin(x, |s| - 1);
    CeilWithin(y, |s| - 1);
    InterpolateBetween(s, x);
    InterpolateBetween(s, y);
    InterpolateMonotone(s, x, y);
  }

  /** A percentile that falls on a rank is the element of that rank: 0 the first, 100 the last. */
  lemma PercentileAtRank(s: seq<real>, k: nat, percentile: real)
    requires k < |s| && 0.0 <= percentile <= 100.0 && Times(percentile, (|s| - 1) as real) == 100.0 * k as real
    ensures Percentile(s, percentile) == s[k]
  {
    Hundredth(percentile, (|s| - 1) as real);
    assert Position(|s|, percentile) == k as real;
    assert (k as real).Floor == k;
  }

  lemma Hundredth(a: real, b: real)
    ensures Times(a / 100.0, b) == Times(a, b) / 100.0
  {}

  /** The percentiles of a group are ordered and within its range. */
  lemma PercentilesOrdered(s: seq<real>)
    requires s != []
    ensures var p := CalculatePercentiles(s);
            MinOf(s) <= p.p25 <= p.p50 <= p.p90 <= p.p95 <= p.p99 <= MaxOf(s)
  {
    var r := Sorted(s);
    SortedSorts(s);
    SortedEnds(s);
    PercentileLaws(r, 25.0, 50.0);
    PercentileLaws(r, 50.0, 90.0);
    PercentileLaws(r, 90.0, 95.0);
    PercentileLaws(r, 95.0, 99.0);
  }

  // ---- All of them at once ----

  /** What the separate functions say. */
  function SeparateStats(sqrt: real -> real, s: seq<real>): GroupStats {
    if s == [] then GroupStats(0.0, 0.0, 0.0, 0.0, 0.0, NO_PERCENTILES)
    else GroupStats(Total(Identity(), s), Mean(s), sqrt(Variance(s)), MinOf(s), MaxOf(s), CalculatePercentiles(s))
  }

  /** The library's in-place sort, by what it promises. */
  method SortInPlace(a: array<real>)
    modifies a
    ensures a[..] == Sorted(old(a[..]))
  {
    var sorted := Sorted(a[..]);
    for i := 0 to a.Length
      invariant forall k :: 0 <= k < i ==> a[k] == sorted[k]
    {
      a[i] := sorted[i];
    }
  }

  /** `calculate_group_duration_stats`: two passes and one sort give what the separate walks give. */
  method CalculateGroupDurationStats(sqrt: real -> real, durations: array<real>) returns (r: GroupStats)
    modifies durations
    ensures r == SeparateStats(sqrt, old(durations[..]))
    ensures durations[..] == Sorted(old(durations[..]))
  {
    if durations.Length == 0 {
      return GroupStats(0.0, 0.0, 0.0, 0.0, 0.0, NO_PERCENTILES);
    }
    var n := durations.Length;
    var total := Total(Identity(), durations[..]);
    var mean := total / n as real;
    var variance := if n > 1 then Total(SquaredDeviation(mean), durations[..]) / (n - 1) as real else 0.0;
    SortedEnds(durations[..]);
    SortInPlace(durations);
    r := GroupStats(total, mean, sqrt(variance), durations[0], durations[n - 1], PercentilesFromSorted(durations[..]));
  }

  lemma TotalOfPermutation(f: real -> real, s: seq<real>, t: seq<real>)
    requires multiset(s) == multiset(t)
    ensures Total(f, s) == Total(f, t)
  {
    SortedOfPermutation(s, t);
    SortedTotal(f, s);
    SortedTotal(f, t);
  }

  /** The order of the executions does not matter. */
  lemma StatsOfPermutation(sqrt: real -> real, s: seq<real>, t: seq<real>)
    requires multiset(s) == multiset(t)
    ensures SeparateStats(sqrt, s) == SeparateStats(sqrt, t)
  {
    assert |s| == |multiset(s)| && |t| == |multiset(t)|;
    SortedOfPermutation(s, t);
    TotalOfPermutation(Identity(), s, t);
    if s != [] {
      TotalOfPermutation(SquaredDeviation(Mean(s)), s, t);
      SortedEnds(s);
      SortedEnds(t);
    }
  }

  // ---- What the statistics mean ----

  /** `x` is where a sequence in order stands `p` hundredths of the way from its first to its last element. */
  ghost predicate StandsAt(s: seq<real>, p: real, x: real) {
    exists k: nat :: k < |s| && OnSegment(s, p, k, x)
  }

  /** Between the elements `k` and `k + 1`, in proportion; at the last element, that. */
  predicate OnSegment(s: seq<real>, p: real, k: nat, x: real)
    requires k < |s|
  {
    var at := p * (|s| - 1) as real / 100.0;
    && k as real <= at < k as real + 1.0
    && if k + 1 < |s| then x - s[k] == (at - k as real) * (s[k + 1] - s[k]) else x == s[k]
  }

  lemma PositionIs(n: nat, p: real)
    requires n > 0 && 0.0 <= p <= 100.0
    ensures Position(n, p) == p * (n - 1) as real / 100.0
  {
    Hundredth(p, (n - 1) as real);
  }

  lemma Blend(a: real, b: real, w: real)
    ensures a * (1.0 - w) + b * w - a == w * (b - a)
  {}

  /** A percentile is linear between neighbouring ranks, and there is one value that is. */
  lemma PercentileInterpolates(s: seq<real>, p: real, x: real)
    requires s != [] && 0.0 <= p <= 100.0
    ensures StandsAt(s, p, x) <==> x == Percentile(s, p)
  {
    var at := Position(|s|, p);
    var k := at.Floor;
    PositionIs(|s|, p);
    CeilWithin(at, |s| - 1);
    if k + 1 < |s| {
      Blend(s[k], s[k + 1], at - k as real);
    }
    assert OnSegment(s, p, k, Percentile(s, p));
    if StandsAt(s, p, x) {
      var j: nat :| j < |s| && OnSegment(s, p, j, x);
      assert j == k;
    }
  }

  ghost predicate Lies(s: seq<real>, lo: real, hi: real) {
    lo in s && hi in s && forall i :: 0 <= i < |s| ==> lo <= s[i] <= hi
  }

  ghost predicate IsMean(s: seq<real>, mean: real) {
    Times(mean, |s| as real) == Total(Identity(), s)
  }

  /** The sample variance: squared deviations over one less than their number; none for one value. */
  ghost predicate IsVariance(s: seq<real>, mean: real, v: real) {
    if |s| == 1 then v == 0.0 else Times(v, (|s| - 1) as real) == Total(SquaredDeviation(mean), s)
  }

  /** The statistics hold the sum, the mean, the root of the sample variance, and the extremes. */
  lemma MomentsMeaning(sqrt: real -> real, s: seq<real>) returns (v: real)
    requires s != []
    ensures var g := SeparateStats(sqrt, s);
            && g.total == Total(Identity(), s) && IsMean(s, g.mean)
            && IsVariance(s, g.mean, v) && g.stdDev == sqrt(v)
            && Lies(s, g.min, g.max)
  {
    v := Variance(s);
    MeanIs(s);
    VarianceIs(s);
    MinIsLeast(s);
  }

  /** And where the durations in order stand at 25, 50, 90, 95 and 99 hundredths. */
  lemma PercentilesMeaning(sqrt: real -> real, s: seq<real>) returns (r: seq<real>)
    requires s != []
    ensures IsSorted(r) && multiset(r) == multiset(s) && PercentilesStand(r, SeparateStats(sqrt, s).percentiles)
  {
    r := Sorted(s);
    SortedSorts(s);
    PercentilesAreThose(r);
  }

  ghost predicate PercentilesStand(s: seq<real>, p: Percentiles) {
    && StandsAt(s, 25.0, p.p25) && StandsAt(s, 50.0, p.p50) && StandsAt(s, 90.0, p.p90)
    && StandsAt(s, 95.0, p.p95) && StandsAt(s, 99.0, p.p99)
  }

  lemma PercentilesAreThose(s: seq<real>)
    requires s != []
    ensures PercentilesStand(s, PercentilesFromSorted(s))
  {
    PercentileInterpolates(s, 25.0, Percentile(s, 25.0));
    PercentileInterpolates(s, 50.0, Percentile(s, 50.0));
    PercentileInterpolates(s, 90.0, Percentile(s, 90.0));
    PercentileInterpolates(s, 95.0, Percentile(s, 95.0));
    PercentileInterpolates(s, 99.0, Percentile(s, 99.0));
  }

  lemma MeanIs(s: seq<real>)
    requires s != []
    ensures IsMean(s, Mean(s))
  {
    MeanTimesCount(s);
  }

  lemma VarianceIs(s: seq<real>)
    requires s != []
    ensures IsVariance(s, Mean(s), Variance(s))
  {
    if |s| > 1 {
      DivideMultiply(Total(SquaredDeviation(Mean(s)), s), (|s| - 1) as real);
    }
  }

  // ---- Variance from sums ----

  /** The sum of squared deviations from `m`, out of the sum of squares, the sum and the count. */
  function FromSums(squares: real, total: real, count: real, m: real): real {
    squares - 2.0 * m * total + count * m * m
  }

  lemma {:induction false} DeviationsFromSums(s: seq<real>, m: real)
    ensures Total(SquaredDeviation(m), s) == FromSums(Total(Square(), s), Total(Identity(), s), |s| as real, m)
  {
    if s != [] {
      var n := |s| - 1;
      DeviationsFromSums(s[..n], m);
      OneDeviation(Total(Square(), s[..n]), Total(Identity(), s[..n]), n as real, m, s[n]);
      assert |s| as real == n as real + 1.0;
    }
  }

  lemma OneDeviation(squares: real, total: real, count: real, m: real, d: real)
    ensures FromSums(squares, total, count, m) + SquaredDeviation(m)(d)
         == FromSums(squares + Square()(d), total + Identity()(d), count + 1.0, m)
  {
    assert SquaredDeviation(m)(d) == d * d - 2.0 * m * d + m * m;
  }

  lemma {:induction false} DeviationsNotNegative(s: seq<real>, m: real)
    ensures Total(SquaredDeviation(m), s) >= 0.0
  {
    if s != [] {
      DeviationsNotNegative(s[..|s| - 1], m);
      var d := s[|s| - 1] - m;
      assert d * d >= 0.0;
    }
  }

  /** Mean of squares less square of mean. */
  function Spread(squares: real, count: real, mean: real): real
    requires count > 0.0
  {
    squares / count - mean * mean
  }

  /**
   * The variance the summary view computes from the stored sums is the mean
   * squared deviation: it is never negative.
   */
  lemma VarianceFromSums(s: seq<real>)
    requires s != []
    ensures Spread(Total(Square(), s), |s| as real, Mean(s)) == Total(SquaredDeviation(Mean(s)), s) / |s| as real
    ensures Spread(Total(Square(), s), |s| as real, Mean(s)) >= 0.0
  {
    var m, n := Mean(s), |s| as real;
    DeviationsFromSums(s, m);
    DeviationsNotNegative(s, m);
    MeanTimesCount(s);
    SpreadIs(Total(Square(), s), Total(Identity(), s), n, m, Total(SquaredDeviation(m), s));
  }

  lemma SpreadIs(squares: real, total: real, n: real, m: real, deviations: real)
    requires n > 0.0 && total == m * n && deviations == FromSums(squares, total, n, m) >= 0.0
    ensures Spread(squares, n, m) == deviations / n >= 0.0
  {
    DividedByCount(squares, total, n, m);
    NotNegativeShare(deviations, n);
  }

  lemma NotNegativeShare(x: real, n: real)
    requires x >= 0.0 && n > 0.0
    ensures x / n >= 0.0
  {}

  lemma MeanTimesCount(s: seq<real>)
    requires s != []
    ensures Total(Identity(), s) == Mean(s) * |s| as real
  {
    DivideMultiply(Total(Identity(), s), |s| as real);
  }

  lemma DivideMultiply(x: real, n: real)
    requires n != 0.0
    ensures x / n * n == x
  {}

  lemma DividedByCount(squares: real, total: real, n: real, m: real)
    requires n > 0.0 && total == m * n
    ensures FromSums(squares, total, n, m) / n == Spread(squares, n, m)
  {
    var q := m * m;
    assert m * total == q * n;
    assert FromSums(squares, total, n, m) == squares - q * n;
    assert (squares - q * n) / n == squares / n - q;
  }
}
