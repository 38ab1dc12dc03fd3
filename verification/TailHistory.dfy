/** What the collector's counters and its saved row say about the events behind them. */
module TailHistory {
  import opened Common
  import opened Collector

  // ---- Failed parses ----

  /** The poll gets as far as reading: the file is not too large and has grown. */
  predicate Tries(cfg: Config, t: Tail, c: Cycle) {
    (cfg.maxFileSize == 0 || |c.content| <= cfg.maxFileSize) && |c.content| > StartState(t.durable, c).lastPosition
  }

  /** The last two attempts failed. */
  predicate FailedTwice(tried: seq<bool>) {
    var n := |tried|;
    n >= 2 && !tried[n - 1] && !tried[n - 2]
  }

  /** How each attempt to parse went, since the last restart or skip. */
  function Tried(cfg: Config, t: Tail, tried: seq<bool>, e: Event): seq<bool> {
    match e
    case Restart => []
    case Shutdown(_) => tried
    case Poll(c) =>
      if !Tries(cfg, t, c) then tried
      else if !c.parses && c.saves && FailedTwice(tried) then []
      else tried + [c.parses]
  }

  function TriedAll(cfg: Config, t: Tail, tried: seq<bool>, es: seq<Event>): seq<bool>
    decreases |es|
  {
    if es == [] then tried else TriedAll(cfg, Step(cfg, t, es[0]), Tried(cfg, t, tried, es[0]), es[1..])
  }

  /** Failures in a row, up to now. */
  function InARow(tried: seq<bool>): nat {
    if tried == [] || tried[|tried| - 1] then 0 else 1 + InARow(tried[..|tried| - 1])
  }

  lemma TwoInARow(tried: seq<bool>)
    ensures InARow(tried) >= 2 <==> FailedTwice(tried)
  {
    if |tried| >= 2 {
      assert tried[..|tried| - 1][|tried| - 2] == tried[|tried| - 2];
    }
  }

  lemma StepCounts(cfg: Config, t: Tail, e: Event, tried: seq<bool>)
    requires t.runtime.parseFailures == InARow(tried)
    ensures Step(cfg, t, e).runtime.parseFailures == InARow(Tried(cfg, t, tried, e))
  {
    if e.Poll? && Tries(cfg, t, e.cycle) {
      var noted := t.(runtime := Observe(t.runtime, e.cycle.mtime, |e.cycle.content|));
      AttemptCounts(cfg, noted, StartState(t.durable, e.cycle), e.cycle, tried);
    }
  }

  lemma AttemptCounts(cfg: Config, t: Tail, state: FileState, c: Cycle, tried: seq<bool>)
    requires t.runtime.parseFailures == InARow(tried) && state.lastPosition < |c.content|
    ensures IngestStep(cfg, t, state, c).runtime.parseFailures ==
            if !c.parses && c.saves && FailedTwice(tried) then 0 else InARow(tried + [c.parses])
  {
    TwoInARow(tried);
    assert (tried + [c.parses])[..|tried|] == tried;
  }

  lemma {:induction false} RunCounts(cfg: Config, t: Tail, es: seq<Event>, tried: seq<bool>)
    requires t.runtime.parseFailures == InARow(tried)
    ensures RunAll(cfg, t, es).runtime.parseFailures == InARow(TriedAll(cfg, t, tried, es))
    decreases |es|
  {
    if es != [] {
      StepCounts(cfg, t, es[0], tried);
      RunCounts(cfg, Step(cfg, t, es[0]), es[1..], Tried(cfg, t, tried, es[0]));
    }
  }

  /**
   * A range is skipped exactly if its parse fails, the two attempts before it
   * failed, with none between that did not, and the skip is saved; then the
   * checkpoint is at the end of the file as this cycle found it.
   */
  lemma SkipsThirdFailure(cfg: Config, es: seq<Event>, c: Cycle, file: seq<byte>, id: Identity, seen: nat)
    requires var t := RunAll(cfg, NEW_TAIL, es); Sound(t, id, seen) && Steady(file, id, seen, Poll(c))
    ensures var t := RunAll(cfg, NEW_TAIL, es);
            var after := PollStep(cfg, t, c);
            var skips := Tries(cfg, t, c) && !c.parses && c.saves && FailedTwice(TriedAll(cfg, NEW_TAIL, [], es));
            && ((after.log == t.log && Position(after.durable) != Position(t.durable)) <==> skips)
            && (skips ==>
              && after.durable.Some? && Position(after.durable) == |c.content|
              && after.durable.value.fileSize == |c.content| && after.durable.value.mtime == c.mtime)
  {
    var t := RunAll(cfg, NEW_TAIL, es);
    RunCounts(cfg, NEW_TAIL, es, []);
    TwoInARow(TriedAll(cfg, NEW_TAIL, [], es));
    SkipsExactly(cfg, t, c, file, id, seen);
    assert StartState(t.durable, c).lastPosition == Position(t.durable);
  }

  // ---- The read budget ----

  /**
   * A slice is no longer than the budget, doubled for each stalled cycle in
   * front of it and 20 times at most; an emission ends the stalling.
   */
  lemma SliceWithinBudget(cfg: Config, t: Tail, c: Cycle)
    requires cfg.readBudget > 0 && |c.content| <= U64_MAX
    ensures var after := PollStep(cfg, t, c);
            after.log != t.log ==>
              && |after.log| == |t.log| + 1
              && var slice := after.log[|t.log|];
              && slice.to - slice.from <= cfg.readBudget * Pow2(Min(t.runtime.budgetStalls, 20))
              && after.runtime.budgetStalls == 0
  {
    var budget := cfg.readBudget * Pow2(Min(t.runtime.budgetStalls, 20));
    var size := |c.content|;
    var r, start := Observe(t.runtime, c.mtime, size), StartState(t.durable, c).lastPosition;
    Doubled(cfg.readBudget, Min(t.runtime.budgetStalls, 20));
    if start < size {
      ReadsWithin(cfg, r, start, size, budget);
    }
  }

  lemma {:induction false} Doubled(budget: nat, n: nat)
    requires budget > 0
    ensures budget * Pow2(n) > 0
  {
    if n > 0 {
      Doubled(budget, n - 1);
      assert budget * Pow2(n) == 2 * (budget * Pow2(n - 1));
    }
  }

  lemma ReadsWithin(cfg: Config, r: Runtime, start: nat, size: nat, budget: nat)
    requires start <= size <= U64_MAX && budget == cfg.readBudget * Pow2(Min(r.budgetStalls, 20)) > 0
    ensures ReadEnd(cfg, r, start, size) <= start + budget
  {}

  // ---- Another file under the name ----

  /** The row says what the last saved emission found. */
  predicate SavedBy(t: Tail, c: Cycle) {
    && t.durable.Some? && t.durable.value.identity == c.identity
    && t.durable.value.fileSize == |c.content| && t.durable.value.mtime == c.mtime
  }

  /** An emission that is saved leaves a row that says what file it found, and how far it got. */
  lemma SaveRecords(cfg: Config, t: Tail, e: Event)
    requires !e.Restart? && Step(cfg, t, e).log != t.log
    requires var log := Step(cfg, t, e).log; |log| > 0 && log[|log| - 1].saved
    ensures e.cycle.saves && SavedBy(Step(cfg, t, e), e.cycle)
    ensures var log := Step(cfg, t, e).log; Position(Step(cfg, t, e).durable) == log[|log| - 1].to
  {
    var log := Step(cfg, t, e).log;
    assert log[|log| - 1].saved == e.cycle.saves;
  }

  lemma StartsOver(cfg: Config, t: Tail, c: Cycle)
    requires t.durable.Some?
    requires (t.durable.value.identity.Some? && c.identity.Some? && t.durable.value.identity != c.identity)
             || |c.content| < t.durable.value.fileSize
    ensures var after := PollStep(cfg, t, c);
            after.log != t.log ==> |after.log| == |t.log| + 1 && after.log[|t.log|].from == 0
  {}

  /**
   * When the file is another one than at the last save, or shorter than it was
   * then, the next emission starts at its beginning.
   */
  lemma OtherFileStartsOver(cfg: Config, es: seq<Event>, save: Event, between: seq<Event>, c: Cycle)
    requires !save.Restart?
    requires var before := RunAll(cfg, NEW_TAIL, es);
             var saved := Step(cfg, before, save);
             && saved.log != before.log && |saved.log| > 0 && saved.log[|saved.log| - 1].saved
             && RunAll(cfg, saved, between).durable == saved.durable
    requires (save.cycle.identity.Some? && c.identity.Some? && save.cycle.identity != c.identity)
             || |c.content| < |save.cycle.content|
    ensures var t := RunAll(cfg, Step(cfg, RunAll(cfg, NEW_TAIL, es), save), between);
            var after := PollStep(cfg, t, c);
            after.log != t.log ==> |after.log| == |t.log| + 1 && after.log[|t.log|].from == 0
  {
    var before := RunAll(cfg, NEW_TAIL, es);
    SaveRecords(cfg, before, save);
    StartsOver(cfg, RunAll(cfg, Step(cfg, before, save), between), c);
  }

  /** And as long as it is the same and has not shrunk, where the checkpoint is. */
  lemma SameFileGoesOn(cfg: Config, t: Tail, c: Cycle)
    requires t.durable.Some? ==>
               (t.durable.value.identity == c.identity || t.durable.value.identity.None? || c.identity.None?)
               && |c.content| >= t.durable.value.fileSize
    ensures var after := PollStep(cfg, t, c);
            after.log != t.log ==> |after.log| == |t.log| + 1 && after.log[|t.log|].from == Position(t.durable)
  {}

  /**
   * A skip does not last when it was the replaced file's: the row keeps the old
   * identity, so the next poll that finds the new file starts over.
   */
  lemma SkipIsForgotten(cfg: Config, t: Tail, c: Cycle, next: Cycle)
    requires t.durable.Some? && t.durable.value.identity.Some? && c.identity.Some?
    requires t.durable.value.identity != c.identity == next.identity
    requires |c.content| > 0 && (cfg.maxFileSize == 0 || |c.content| <= cfg.maxFileSize)
    requires !c.parses && c.saves && t.runtime.parseFailures >= 2
    ensures var after := PollStep(cfg, t, c);
            && after.log == t.log && Position(after.durable) == |c.content|
            && StartState(after.durable, next).lastPosition == 0
  {}
}
