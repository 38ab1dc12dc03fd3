/** Tailing makes progress: the doubling read budget, and how far it gets. */
module Liveness {
  import opened Common
  import opened Lines
  import opened Boundaries
  import opened Emission
  import opened Collector

  lemma {:induction false} Pow2Grows(m: nat, n: nat)
    requires m <= n
    ensures 1 <= Pow2(m) <= Pow2(n)
    decreases n
  {
    if m < n {
      Pow2Grows(m, n - 1);
    } else if m > 0 {
      Pow2Grows(m - 1, n - 1);
    }
  }

  /** A cycle in which nothing fails, over a file that holds `file` up to `end` at least. */
  predicate Healthy(cfg: Config, c: Cycle, file: seq<byte>, id: Identity, seen: nat, end: nat) {
    && c.parses && Emits(c.included, c.batch) && c.saves
    && Steady(file, id, seen, Poll(c)) && end <= |c.content| <= U64_MAX
    && (cfg.maxFileSize == 0 || |c.content| <= cfg.maxFileSize)
  }

  ghost predicate HealthyAll(cfg: Config, cs: seq<Cycle>, file: seq<byte>, id: Identity, seen: nat, end: nat)
    decreases |cs|
  {
    cs != [] ==>
      Healthy(cfg, cs[0], file, id, seen, end) && HealthyAll(cfg, cs[1..], file, id, |cs[0].content|, end)
  }

  function PollAll(cfg: Config, t: Tail, cs: seq<Cycle>): Tail
    decreases |cs|
  {
    if cs == [] then t else PollAll(cfg, PollStep(cfg, t, cs[0]), cs[1..])
  }

  /** What the budget of a slice grows to while cycles stall. */
  function FullBudget(cfg: Config): nat {
    cfg.readBudget * Pow2(20)
  }

  /** Past the checkpoint, the complete timestamped line at `p` ends within reach of the fully doubled budget. */
  predicate Reachable(cfg: Config, t: Tail, file: seq<byte>, p: nat) {
    && Position(t.durable) < p < |file| && StartsAt(file, CompleteLogLine, p)
    && (cfg.readBudget == 0 || p + |LineAt(file, p)| <= Position(t.durable) + FullBudget(cfg))
  }

  /** What a cycle without failures does, given where its parse ends. */
  lemma HealthyPoll(cfg: Config, t: Tail, c: Cycle, file: seq<byte>, id: Identity, seen: nat) returns (end: nat, parsed: Option<nat>)
    requires Sound(t, id, seen) && Healthy(cfg, c, file, id, seen, Position(t.durable) + 1)
    ensures var start, size := Position(t.durable), |c.content|;
            && end == ReadEnd(cfg, t.runtime, start, size) && start <= end
            && (parsed == ParseEnd(c.content, start, end, true)
                || (end == size && parsed == ParseEnd(c.content, start, end, false)))
            && (parsed.Some? && parsed.value > start ==>
              Position(PollStep(cfg, t, c).durable) > start)
            && (parsed.None? && end < size ==>
              && PollStep(cfg, t, c).durable == t.durable
              && PollStep(cfg, t, c).runtime.budgetStalls == t.runtime.budgetStalls + 1)
  {
    var start, size := Position(t.durable), |c.content|;
    assert StartState(t.durable, c).lastPosition == start;
    var r := Observe(t.runtime, c.mtime, size);
    end := ReadEnd(cfg, t.runtime, start, size);
    assert ReadEnd(cfg, r, start, size) == end;
    parsed := ParseEnd(c.content, start, end, r.unchangedCycles < QUIESCENT_CYCLES || end < size);
  }

  /** One healthy cycle advances, or doubles the budget once more. */
  lemma CycleAdvancesOrDoubles(cfg: Config, t: Tail, c: Cycle, file: seq<byte>, id: Identity, seen: nat, p: nat)
    requires Sound(t, id, seen) && Reachable(cfg, t, file, p)
    requires Healthy(cfg, c, file, id, seen, p + |LineAt(file, p)|)
    ensures var after := PollStep(cfg, t, c);
            || Position(after.durable) > Position(t.durable)
            || (after.durable == t.durable && t.runtime.budgetStalls < 20
                && after.runtime.budgetStalls == t.runtime.budgetStalls + 1)
  {
    var start, size := Position(t.durable), |c.content|;
    var lineEnd := p + |LineAt(file, p)|;
    FirstLineNonempty(file, p);
    var end, parsed := HealthyPoll(cfg, t, c, file, id, seen);
    SliceOfPrefix(file, size, start, end);
    if lineEnd <= end {
      WindowFindsLine(file, start, end, p);
      LastStartMeaning(file[start..end], CompleteLogLine, 0);
    } else if t.runtime.budgetStalls >= 20 {
      FullBudgetReaches(cfg, t.runtime, start, size, lineEnd);
    }
  }

  lemma FirstLineNonempty(file: seq<byte>, p: nat)
    requires p < |file|
    ensures |LineAt(file, p)| > 0 && p + |LineAt(file, p)| <= |file|
  {}

  /** The fully doubled budget reaches the line. */
  lemma FullBudgetReaches(cfg: Config, r: Runtime, start: nat, size: nat, lineEnd: nat)
    requires start < lineEnd <= size <= U64_MAX && r.budgetStalls >= 20
    requires cfg.readBudget == 0 || lineEnd <= start + FullBudget(cfg)
    ensures lineEnd <= ReadEnd(cfg, r, start, size)
  {
    Pow2Grows(0, 20);
    assert EffectiveBudget(cfg, r.budgetStalls) ==
      if cfg.readBudget == 0 then 0 else Saturated(FullBudget(cfg));
  }

  /** What a stalled cycle hands to the next one. */
  predicate Stalled(cfg: Config, t: Tail, after: Tail, file: seq<byte>, id: Identity, seen: nat, p: nat) {
    && Sound(after, id, seen) && Reachable(cfg, after, file, p)
    && Position(after.durable) == Position(t.durable)
    && t.runtime.budgetStalls < 20 && after.runtime.budgetStalls == t.runtime.budgetStalls + 1
  }

  lemma AdvancesOrStalls(cfg: Config, t: Tail, c: Cycle, file: seq<byte>, id: Identity, seen: nat, p: nat)
    requires Sound(t, id, seen) && Reachable(cfg, t, file, p)
    requires Healthy(cfg, c, file, id, seen, p + |LineAt(file, p)|)
    ensures var after := PollStep(cfg, t, c);
            Position(after.durable) > Position(t.durable) || Stalled(cfg, t, after, file, id, |c.content|, p)
  {
    CycleAdvancesOrDoubles(cfg, t, c, file, id, seen, p);
    StepKeepsSound(cfg, t, Poll(c), file, id, seen);
  }

  /** Cycles still needed at most, by the doubling of the budget. */
  function Rank(t: Tail): nat {
    21 - Min(t.runtime.budgetStalls, 20)
  }

  /**
   * Tailing does not stall: 21 healthy cycles, even over a growing file,
   * bring the checkpoint past where it was. The doubling budget is the rank.
   */
  lemma {:induction false} TailingAdvances(cfg: Config, t: Tail, cs: seq<Cycle>, file: seq<byte>, id: Identity, seen: nat, p: nat)
    returns (k: nat)
    requires Sound(t, id, seen) && Reachable(cfg, t, file, p)
    requires HealthyAll(cfg, cs, file, id, seen, p + |LineAt(file, p)|)
    requires |cs| >= Rank(t)
    ensures k <= |cs| && k <= Rank(t) <= 21
    ensures Position(PollAll(cfg, t, cs[..k]).durable) > Position(t.durable)
    decreases |cs|
  {
    AdvancesOrStalls(cfg, t, cs[0], file, id, seen, p);
    var after := PollStep(cfg, t, cs[0]);
    if Stalled(cfg, t, after, file, id, |cs[0].content|, p) {
      var n := TailingAdvances(cfg, after, cs[1..], file, id, |cs[0].content|, p);
      k := n + 1;
      PollAllPrefix(cfg, t, cs, n);
    } else {
      k := 1;
      PollAllPrefix(cfg, t, cs, 0);
    }
  }

  lemma PollAllPrefix(cfg: Config, t: Tail, cs: seq<Cycle>, n: nat)
    requires n < |cs|
    ensures PollAll(cfg, t, cs[..n + 1]) == PollAll(cfg, PollStep(cfg, t, cs[0]), cs[1..][..n])
    ensures n == 0 ==> PollAll(cfg, t, cs[..n + 1]) == PollStep(cfg, t, cs[0])
  {
    assert cs[..n + 1][1..] == cs[1..][..n];
  }

  // ---- Up to the last line ----

  /** The timestamped lines that begin behind `a`, up to `p`. */
  ghost function LinesIn(file: seq<byte>, a: nat, p: nat): set<nat> {
    set q | a < q <= p && StartsAt(file, CompleteLogLine, q)
  }

  /** From wherever the checkpoint may stop in front of `p`, a line is within reach of the fully doubled budget. */
  ghost predicate DenseUpTo(cfg: Config, file: seq<byte>, a: nat, p: nat) {
    forall x: nat :: a <= x < p ==> NextInReach(cfg, file, x, p)
  }

  ghost predicate NextInReach(cfg: Config, file: seq<byte>, x: nat, p: nat) {
    exists q: nat :: x < q <= p && q < |file| && InReach(cfg, file, x, q)
  }

  predicate InReach(cfg: Config, file: seq<byte>, x: nat, q: nat)
    requires q < |file|
  {
    StartsAt(file, CompleteLogLine, q)
    && (cfg.readBudget == 0 || q + |LineAt(file, q)| <= x + FullBudget(cfg))
  }

  /** A line ends where the next begins, or in front of it. */
  lemma LineEndsBefore(file: seq<byte>, q: nat, p: nat)
    requires q <= p < |file| && LineStart(file, NEWLINE, p)
    ensures q + |LineAt(file, q)| <= p + |LineAt(file, p)|
  {
    FirstLineShape(file[q..], NEWLINE);
    FirstLineNonempty(file, p);
    assert q < p ==> file[q..][p - 1 - q] == file[p - 1];
  }

  /** From `a`, the checkpoint stays, or it moves to a timestamped line or past `p`. */
  predicate Settles(file: seq<byte>, p: nat, a: nat, x: nat) {
    a == x || (a < x && (p <= x || StartsAt(file, CompleteLogLine, x)))
  }

  lemma PollSettles(cfg: Config, t: Tail, c: Cycle, file: seq<byte>, id: Identity, seen: nat, p: nat)
    requires Sound(t, id, seen) && Healthy(cfg, c, file, id, seen, p)
    ensures Settles(file, p, Position(t.durable), Position(PollStep(cfg, t, c).durable))
  {
    var start, size := Position(t.durable), |c.content|;
    if start < size {
      var r := Observe(t.runtime, c.mtime, size);
      var end := ReadEnd(cfg, r, start, size);
      SliceOfPrefix(file, size, start, end);
      if r.unchangedCycles < QUIESCENT_CYCLES || end < size {
        StopIsLine(c.content, file, start, end);
      }
    }
  }

  /** Where a parse stops that holds the tail back, a complete timestamped line of the file begins. */
  lemma StopIsLine(content: seq<byte>, file: seq<byte>, start: nat, end: nat)
    requires start <= end <= |content| && end <= |file| && content[start..end] == file[start..end]
    ensures var stop := ParseEnd(content, start, end, true);
            stop.Some? ==>
              && start < stop.value < |file| && StartsAt(file, CompleteLogLine, stop.value)
              && stop.value + |LineAt(file, stop.value)| <= end
  {
    var stop := ParseEnd(content, start, end, true);
    LastStartMeaning(file[start..end], CompleteLogLine, 0);
    if stop.Some? {
      WindowLineInFile(file, start, end, stop.value - start);
    }
  }

  lemma {:induction false} PollAllAppend(cfg: Config, t: Tail, a: seq<Cycle>, b: seq<Cycle>)
    ensures PollAll(cfg, t, a + b) == PollAll(cfg, PollAll(cfg, t, a), b)
    decreases |a|
  {
    if a == [] {
      assert a + b == b;
    } else {
      HeadTail(a, b);
      PollAllAppend(cfg, PollStep(cfg, t, a[0]), a[1..], b);
    }
  }

  function SeenAll(seen: nat, cs: seq<Cycle>): nat
    decreases |cs|
  {
    if cs == [] then seen else SeenAll(|cs[0].content|, cs[1..])
  }

  lemma {:induction false} HealthyAppend(
    cfg: Config, a: seq<Cycle>, b: seq<Cycle>, file: seq<byte>, id: Identity, seen: nat, end: nat)
    requires HealthyAll(cfg, a + b, file, id, seen, end)
    ensures HealthyAll(cfg, a, file, id, seen, end) && HealthyAll(cfg, b, file, id, SeenAll(seen, a), end)
    decreases |a|
  {
    if a == [] {
      assert a + b == b;
    } else {
      HeadTail(a, b);
      HealthyAppend(cfg, a[1..], b, file, id, |a[0].content|, end);
    }
  }

  lemma {:induction false} PollAllSettles(
    cfg: Config, t: Tail, cs: seq<Cycle>, file: seq<byte>, id: Identity, seen: nat, end: nat)
    requires Sound(t, id, seen) && HealthyAll(cfg, cs, file, id, seen, end)
    ensures Sound(PollAll(cfg, t, cs), id, SeenAll(seen, cs))
    ensures Settles(file, end, Position(t.durable), Position(PollAll(cfg, t, cs).durable))
    decreases |cs|
  {
    if cs != [] {
      StepKeepsSound(cfg, t, Poll(cs[0]), file, id, seen);
      PollSettles(cfg, t, cs[0], file, id, seen, end);
      PollAllSettles(cfg, PollStep(cfg, t, cs[0]), cs[1..], file, id, |cs[0].content|, end);
    }
  }

  /** What is left of a healthy schedule. */
  lemma HealthyRest(
    cfg: Config, t: Tail, cs: seq<Cycle>, file: seq<byte>, id: Identity, seen: nat, end: nat, k: nat)
    returns (seen': nat)
    requires Sound(t, id, seen) && HealthyAll(cfg, cs, file, id, seen, end) && k <= |cs|
    ensures Sound(PollAll(cfg, t, cs[..k]), id, seen') && HealthyAll(cfg, cs[k..], file, id, seen', end)
    ensures PollAll(cfg, t, cs) == PollAll(cfg, PollAll(cfg, t, cs[..k]), cs[k..])
    ensures Settles(file, end, Position(t.durable), Position(PollAll(cfg, t, cs[..k]).durable))
  {
    var a, b := cs[..k], cs[k..];
    assert a + b == cs;
    seen' := SeenAll(seen, a);
    HealthyAppend(cfg, a, b, file, id, seen, end);
    PollAllSettles(cfg, t, a, file, id, seen, end);
    PollAllAppend(cfg, t, a, b);
  }

  /** A schedule that shows more of the file shows less of it. */
  lemma {:induction false} HealthyUpTo(cfg: Config, cs: seq<Cycle>, file: seq<byte>, id: Identity, seen: nat, end: nat, less: nat)
    requires HealthyAll(cfg, cs, file, id, seen, end) && less <= end
    ensures HealthyAll(cfg, cs, file, id, seen, less)
    decreases |cs|
  {
    if cs != [] {
      HealthyUpTo(cfg, cs[1..], file, id, |cs[0].content|, end, less);
    }
  }

  /** Moving to a line, or past the last one, leaves fewer lines. */
  lemma FewerLines(file: seq<byte>, p: nat, a: nat, x: nat)
    requires a < x && a < p && StartsAt(file, CompleteLogLine, p) && (p <= x || StartsAt(file, CompleteLogLine, x))
    ensures |LinesIn(file, x, p)| < |LinesIn(file, a, p)|
  {
    var rest, all := LinesIn(file, x, p), LinesIn(file, a, p);
    var gone := if x < p then x else p;
    assert gone in all && gone !in rest;
    SubsetIsSmaller(rest, all - {gone});
  }

  lemma {:induction false} SubsetIsSmaller(a: set<nat>, b: set<nat>)
    requires a <= b
    ensures |a| <= |b|
  {
    if a != {} {
      var x :| x in a;
      SubsetIsSmaller(a - {x}, b - {x});
    }
  }

  /**
   * Tailing gets to the last line: if from wherever it may stop some line is
   * within reach, at most 21 healthy cycles a line bring the checkpoint to
   * the timestamped line at `p` or past it, even over a growing file.
   */
  lemma {:induction false} TailingReaches(
    cfg: Config, t: Tail, cs: seq<Cycle>, file: seq<byte>, id: Identity, seen: nat, p: nat)
    requires Sound(t, id, seen) && StartsAt(file, CompleteLogLine, p)
    requires DenseUpTo(cfg, file, Position(t.durable), p)
    requires HealthyAll(cfg, cs, file, id, seen, p + |LineAt(file, p)|)
    requires |cs| >= 21 * |LinesIn(file, Position(t.durable), p)|
    ensures Position(PollAll(cfg, t, cs).durable) >= p
    decreases |LinesIn(file, Position(t.durable), p)|
  {
    var a := Position(t.durable);
    if p <= a {
      PollAllSettles(cfg, t, cs, file, id, seen, p + |LineAt(file, p)|);
    } else {
      assert p in LinesIn(file, a, p);
      assert NextInReach(cfg, file, a, p);
      var q: nat :| a < q <= p && q < |file| && InReach(cfg, file, a, q);
      var k, seen' := OneAdvance(cfg, t, cs, file, id, seen, q, p);
      var after := PollAll(cfg, t, cs[..k]);
      FewerLines(file, p, a, Position(after.durable));
      TailingReaches(cfg, after, cs[k..], file, id, seen', p);
    }
  }

  /** The next of these advances, and what is left behind it. */
  lemma OneAdvance(cfg: Config, t: Tail, cs: seq<Cycle>, file: seq<byte>, id: Identity, seen: nat, q: nat, p: nat)
    returns (k: nat, seen': nat)
    requires Sound(t, id, seen) && StartsAt(file, CompleteLogLine, p)
    requires Position(t.durable) < q <= p && InReach(cfg, file, Position(t.durable), q)
    requires HealthyAll(cfg, cs, file, id, seen, p + |LineAt(file, p)|) && |cs| >= 21
    ensures k <= 21 && k <= |cs|
    ensures var after := PollAll(cfg, t, cs[..k]);
            && Sound(after, id, seen') && HealthyAll(cfg, cs[k..], file, id, seen', p + |LineAt(file, p)|)
            && PollAll(cfg, t, cs) == PollAll(cfg, after, cs[k..])
            && Position(t.durable) < Position(after.durable)
            && (p <= Position(after.durable) || StartsAt(file, CompleteLogLine, Position(after.durable)))
  {
    LineEndsBefore(file, q, p);
    HealthyUpTo(cfg, cs, file, id, seen, p + |LineAt(file, p)|, q + |LineAt(file, q)|);
    k := TailingAdvances(cfg, t, cs, file, id, seen, q);
    seen' := HealthyRest(cfg, t, cs, file, id, seen, p + |LineAt(file, p)|, k);
  }

  // ---- Out of reach ----

  /** No line that ends within the fully doubled budget begins behind `x`. */
  ghost predicate OutOfReach(cfg: Config, file: seq<byte>, x: nat) {
    cfg.readBudget > 0 && forall q: nat :: x < q < |file| ==> !InReach(cfg, file, x, q)
  }

  lemma TimesGrows(a: nat, b: nat, c: nat)
    requires b <= c
    ensures a * b <= a * c
  {}

  lemma BudgetIsBounded(cfg: Config, r: Runtime, start: nat, size: nat)
    requires cfg.readBudget > 0 && start + FullBudget(cfg) < size <= U64_MAX
    ensures start < ReadEnd(cfg, r, start, size) <= start + FullBudget(cfg)
  {
    var m := Min(r.budgetStalls, 20);
    Pow2Grows(m, 20);
    TimesGrows(cfg.readBudget, 1, Pow2(m));
    TimesGrows(cfg.readBudget, Pow2(m), Pow2(20));
    assert EffectiveBudget(cfg, r.budgetStalls) == Saturated(cfg.readBudget * Pow2(m));
  }

  lemma NoStop(cfg: Config, content: seq<byte>, file: seq<byte>, start: nat, end: nat)
    requires start <= end <= |content| && end <= |file| && content[start..end] == file[start..end]
    requires OutOfReach(cfg, file, start) && end <= start + FullBudget(cfg)
    ensures ParseEnd(content, start, end, true) == None
  {
    StopIsLine(content, file, start, end);
    var stop := ParseEnd(content, start, end, true);
    if stop.Some? {
      assert InReach(cfg, file, start, stop.value);
    }
  }

  lemma PollStays(cfg: Config, t: Tail, c: Cycle, file: seq<byte>, id: Identity, seen: nat)
    requires Sound(t, id, seen) && OutOfReach(cfg, file, Position(t.durable))
    requires Healthy(cfg, c, file, id, seen, Position(t.durable) + FullBudget(cfg) + 1)
    ensures PollStep(cfg, t, c).durable == t.durable
  {
    var start, size := Position(t.durable), |c.content|;
    BudgetIsBounded(cfg, t.runtime, start, size);
    SliceOfPrefix(file, size, start, ReadEnd(cfg, t.runtime, start, size));
    NoStop(cfg, c.content, file, start, ReadEnd(cfg, t.runtime, start, size));
    var end, parsed := HealthyPoll(cfg, t, c, file, id, seen);
  }

  /**
   * The doubling ends after 20 stalls: while no timestamped line ends within
   * 2^20 times the budget, no number of healthy cycles moves the checkpoint.
   */
  lemma {:induction false} OutOfReachStays(cfg: Config, t: Tail, cs: seq<Cycle>, file: seq<byte>, id: Identity, seen: nat)
    requires Sound(t, id, seen) && OutOfReach(cfg, file, Position(t.durable))
    requires HealthyAll(cfg, cs, file, id, seen, Position(t.durable) + FullBudget(cfg) + 1)
    ensures PollAll(cfg, t, cs).durable == t.durable
    decreases |cs|
  {
    if cs != [] {
      PollStays(cfg, t, cs[0], file, id, seen);
      StepKeepsSound(cfg, t, Poll(cs[0]), file, id, seen);
      OutOfReachStays(cfg, PollStep(cfg, t, cs[0]), cs[1..], file, id, |cs[0].content|);
    }
  }

  // ---- A file that has stopped growing ----

  /** Every cycle finds the same file. */
  ghost predicate Still(cs: seq<Cycle>, file: seq<byte>, mtime: int) {
    forall i :: 0 <= i < |cs| ==> cs[i].content == file && cs[i].mtime == mtime
  }

  /** The file has been seen unchanged often enough for its open tail to be read. */
  predicate Quiescent(t: Tail, file: seq<byte>, mtime: int) {
    t.runtime.lastObserved == Some((mtime, |file|)) && t.runtime.unchangedCycles >= QUIESCENT_CYCLES
  }

  lemma ObservesMore(cfg: Config, t: Tail, c: Cycle, file: seq<byte>, mtime: int)
    requires c.content == file && c.mtime == mtime && (cfg.maxFileSize == 0 || |file| <= cfg.maxFileSize)
    ensures PollStep(cfg, t, c).runtime.lastObserved == Some((mtime, |file|))
    ensures t.runtime.lastObserved == Some((mtime, |file|)) ==>
              PollStep(cfg, t, c).runtime.unchangedCycles == t.runtime.unchangedCycles + 1
  {}

  lemma {:induction false} CountsUnchanged(cfg: Config, t: Tail, cs: seq<Cycle>, file: seq<byte>, mtime: int)
    requires Still(cs, file, mtime) && (cfg.maxFileSize == 0 || |file| <= cfg.maxFileSize)
    requires t.runtime.lastObserved == Some((mtime, |file|))
    ensures PollAll(cfg, t, cs).runtime.lastObserved == Some((mtime, |file|))
    ensures PollAll(cfg, t, cs).runtime.unchangedCycles == t.runtime.unchangedCycles + |cs|
    decreases |cs|
  {
    if cs != [] {
      ObservesMore(cfg, t, cs[0], file, mtime);
      assert Still(cs[1..], file, mtime);
      CountsUnchanged(cfg, PollStep(cfg, t, cs[0]), cs[1..], file, mtime);
    }
  }

  /** Three such cycles are enough. */
  lemma BecomesQuiescent(cfg: Config, t: Tail, cs: seq<Cycle>, file: seq<byte>, mtime: int)
    requires |cs| == 3 && Still(cs, file, mtime) && (cfg.maxFileSize == 0 || |file| <= cfg.maxFileSize)
    ensures Quiescent(PollAll(cfg, t, cs), file, mtime)
  {
    ObservesMore(cfg, t, cs[0], file, mtime);
    assert Still(cs[1..], file, mtime);
    CountsUnchanged(cfg, PollStep(cfg, t, cs[0]), cs[1..], file, mtime);
  }

  /** Behind the checkpoint no line begins that a cycle could stop at, and the end is within reach. */
  ghost predicate EndInReach(cfg: Config, file: seq<byte>, x: nat) {
    && (forall q: nat :: x < q < |file| ==> !StartsAt(file, CompleteLogLine, q))
    && (cfg.readBudget == 0 || |file| <= x + FullBudget(cfg))
  }

  lemma DrainStep(cfg: Config, t: Tail, c: Cycle, file: seq<byte>, id: Identity, seen: nat)
    requires Sound(t, id, seen) && Healthy(cfg, c, file, id, seen, |file|) && Quiescent(t, file, c.mtime)
    requires EndInReach(cfg, file, Position(t.durable)) && Position(t.durable) < |file|
    ensures var after := PollStep(cfg, t, c);
            || Position(after.durable) == |file|
            || (after.durable == t.durable && t.runtime.budgetStalls < 20
                && after.runtime.budgetStalls == t.runtime.budgetStalls + 1)
  {
    var end := ReadEnd(cfg, t.runtime, Position(t.durable), |file|);
    WholeIsShown(cfg, c, file, id, seen);
    if end < |file| {
      ClampedHasStalledLess(cfg, t.runtime, Position(t.durable), |file|);
      NoLineNoStop(cfg, file, Position(t.durable), end);
      ClampedStalls(cfg, t, c, file, id, seen);
    } else {
      WholeIsParsed(cfg, t, c, file, id, seen);
    }
  }

  lemma WholeIsShown(cfg: Config, c: Cycle, file: seq<byte>, id: Identity, seen: nat)
    requires Healthy(cfg, c, file, id, seen, |file|)
    ensures c.content == file
  {
    assert file[..|file|] == file;
  }

  lemma ClampedStalls(cfg: Config, t: Tail, c: Cycle, file: seq<byte>, id: Identity, seen: nat)
    requires Sound(t, id, seen) && Healthy(cfg, c, file, id, seen, Position(t.durable) + 1)
    requires Position(t.durable) < |c.content|
    requires var end := ReadEnd(cfg, t.runtime, Position(t.durable), |c.content|);
             end < |c.content| && ParseEnd(c.content, Position(t.durable), end, true) == None
    ensures PollStep(cfg, t, c).durable == t.durable
    ensures PollStep(cfg, t, c).runtime.budgetStalls == t.runtime.budgetStalls + 1
  {
    var end, parsed := HealthyPoll(cfg, t, c, file, id, seen);
  }

  lemma NoLineNoStop(cfg: Config, file: seq<byte>, start: nat, end: nat)
    requires start <= end <= |file| && EndInReach(cfg, file, start)
    ensures ParseEnd(file, start, end, true) == None
  {
    StopIsLine(file, file, start, end);
  }

  /** A budget that does not reach what it may grow to reach has not been doubled 20 times. */
  lemma ClampedHasStalledLess(cfg: Config, r: Runtime, start: nat, size: nat)
    requires start < size <= U64_MAX && ReadEnd(cfg, r, start, size) < size
    requires cfg.readBudget == 0 || size <= start + FullBudget(cfg)
    ensures r.budgetStalls < 20
  {
    if r.budgetStalls >= 20 {
      FullBudgetReaches(cfg, r, start, size, size);
    }
  }

  /** A quiescent file is parsed to its end by a cycle that reads that far. */
  lemma WholeIsParsed(cfg: Config, t: Tail, c: Cycle, file: seq<byte>, id: Identity, seen: nat)
    requires Sound(t, id, seen) && Healthy(cfg, c, file, id, seen, |file|) && Quiescent(t, file, c.mtime)
    requires Position(t.durable) < |file| == ReadEnd(cfg, t.runtime, Position(t.durable), |file|)
    ensures Position(PollStep(cfg, t, c).durable) == |file|
  {
    var r := Observe(t.runtime, c.mtime, |file|);
    assert StartState(t.durable, c).lastPosition == Position(t.durable);
    assert ReadEnd(cfg, r, Position(t.durable), |file|) == |file|;
    assert ParseEnd(c.content, Position(t.durable), |file|, false) == Some(|file|);
  }

  lemma {:induction false} Drains(cfg: Config, t: Tail, cs: seq<Cycle>, file: seq<byte>, id: Identity, seen: nat, mtime: int)
    requires Sound(t, id, seen) && HealthyAll(cfg, cs, file, id, seen, |file|) && Still(cs, file, mtime)
    requires Quiescent(t, file, mtime) && EndInReach(cfg, file, Position(t.durable))
    requires |cs| >= Rank(t) || Position(t.durable) == |file|
    ensures Position(PollAll(cfg, t, cs).durable) == |file|
    decreases |cs|
  {
    if cs != [] {
      var after := PollStep(cfg, t, cs[0]);
      if Position(t.durable) < |file| {
        DrainStep(cfg, t, cs[0], file, id, seen);
      }
      ObservesMore(cfg, t, cs[0], file, mtime);
      StepKeepsSound(cfg, t, Poll(cs[0]), file, id, seen);
      assert Still(cs[1..], file, mtime);
      Drains(cfg, after, cs[1..], file, id, |file|, mtime);
    }
  }

  /**
   * Nothing is left behind: once the file stops growing, healthy cycles, 21
   * for each line still to pass and 24 more, bring the checkpoint to its end.
   */
  lemma TailingDrains(
    cfg: Config, t: Tail, cs: seq<Cycle>, file: seq<byte>, id: Identity, seen: nat, mtime: int, p: nat)
    requires Sound(t, id, seen) && seen <= |file| && StartsAt(file, CompleteLogLine, p)
    requires DenseUpTo(cfg, file, Position(t.durable), p) && EndInReach(cfg, file, p)
    requires HealthyAll(cfg, cs, file, id, seen, |file|) && Still(cs, file, mtime)
    requires |cs| >= 21 * |LinesIn(file, Position(t.durable), p)| + 24
    ensures Position(PollAll(cfg, t, cs).durable) == |file|
  {
    var n := 21 * |LinesIn(file, Position(t.durable), p)|;
    var reached, seen' := TailingReachesFirst(cfg, t, cs, file, id, seen, p, n);
    forall i | 0 <= i < |cs[n..]| ensures cs[n..][i].content == file && cs[n..][i].mtime == mtime {
      assert cs[n..][i] == cs[n + i];
    }
    EndStaysInReach(cfg, file, p, Position(reached.durable));
    DrainsAfter(cfg, reached, cs[n..], file, id, seen', mtime);
  }

  lemma EndStaysInReach(cfg: Config, file: seq<byte>, x: nat, y: nat)
    requires EndInReach(cfg, file, x) && x <= y
    ensures EndInReach(cfg, file, y)
  {}

  /** The drain, with the cycles the file needs to become quiescent. */
  lemma DrainsAfter(cfg: Config, t: Tail, cs: seq<Cycle>, file: seq<byte>, id: Identity, seen: nat, mtime: int)
    requires Sound(t, id, seen) && HealthyAll(cfg, cs, file, id, seen, |file|) && Still(cs, file, mtime)
    requires EndInReach(cfg, file, Position(t.durable)) && |cs| >= 24
    ensures Position(PollAll(cfg, t, cs).durable) == |file|
  {
    var quiet := PollAll(cfg, t, cs[..3]);
    var seen' := HealthyRest(cfg, t, cs, file, id, seen, |file|, 3);
    assert cs[0].content == file;
    BecomesQuiescent(cfg, t, cs[..3], file, mtime);
    EndStaysInReach(cfg, file, Position(t.durable), Position(quiet.durable));
    assert Still(cs[3..], file, mtime);
    Drains(cfg, quiet, cs[3..], file, id, seen', mtime);
  }

  /** The first `n` cycles reach the line at `p`; the others are as healthy. */
  lemma TailingReachesFirst(
    cfg: Config, t: Tail, cs: seq<Cycle>, file: seq<byte>, id: Identity, seen: nat, p: nat, n: nat)
    returns (reached: Tail, seen': nat)
    requires Sound(t, id, seen) && seen <= |file| && StartsAt(file, CompleteLogLine, p)
    requires DenseUpTo(cfg, file, Position(t.durable), p)
    requires HealthyAll(cfg, cs, file, id, seen, |file|)
    requires |cs| >= n >= 21 * |LinesIn(file, Position(t.durable), p)|
    ensures reached == PollAll(cfg, t, cs[..n]) && PollAll(cfg, t, cs) == PollAll(cfg, reached, cs[n..])
    ensures Sound(reached, id, seen') && HealthyAll(cfg, cs[n..], file, id, seen', |file|)
    ensures Position(reached.durable) >= p
  {
    reached := PollAll(cfg, t, cs[..n]);
    seen' := HealthyRest(cfg, t, cs, file, id, seen, |file|, n);
    FirstAreHealthy(cfg, cs, file, id, seen, p, n);
    TailingReaches(cfg, t, cs[..n], file, id, seen, p);
  }

  lemma FirstAreHealthy(cfg: Config, cs: seq<Cycle>, file: seq<byte>, id: Identity, seen: nat, p: nat, n: nat)
    requires HealthyAll(cfg, cs, file, id, seen, |file|) && n <= |cs| && p < |file|
    ensures HealthyAll(cfg, cs[..n], file, id, seen, p + |LineAt(file, p)|)
  {
    FirstLineNonempty(file, p);
    assert cs[..n] + cs[n..] == cs;
    HealthyAppend(cfg, cs[..n], cs[n..], file, id, seen, |file|);
    HealthyUpTo(cfg, cs[..n], file, id, seen, |file|, p + |LineAt(file, p)|);
  }
}
