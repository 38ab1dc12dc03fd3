/**
 * Tailing one log file from a durable byte offset, slice by slice: the state
 * that survives a restart, the state that does not, and what is emitted.
 */
module Collector {
  import opened Common
  import opened Lines
  import opened Timestamp
  import opened EntryState
  import opened LogParser
  import opened Boundaries
  import opened Emission

  const QUIESCENT_CYCLES: nat := 2
  const MAX_PARSE_FAILURES: nat := 3

  /** `0` disables either limit. */
  datatype Config = Config(maxFileSize: nat, readBudget: nat)

  /** Device and inode, where the platform has them. */
  type Identity = Option<(nat, nat)>

  datatype FileState = FileState(lastPosition: nat, fileSize: nat, mtime: int, identity: Identity)

  const NEW_FILE: FileState := FileState(0, 0, 0, None)

  datatype Runtime = Runtime(
    lastObserved: Option<(int, nat)>,
    unchangedCycles: nat,
    parseFailures: nat,
    budgetStalls: nat
  )

  const NEW_RUNTIME: Runtime := Runtime(None, 0, 0, 0)

  /** Bytes `[from, to)` parsed and their queries counted; `saved` if the checkpoint write behind them succeeded. */
  datatype Emitted = Emitted(from: nat, to: nat, queries: seq<QueryKey>, saved: bool)

  datatype Tail = Tail(durable: Option<FileState>, runtime: Runtime, log: seq<Emitted>)

  const NEW_TAIL: Tail := Tail(None, NEW_RUNTIME, [])

  /**
   * The file as one cycle finds it, the queries of its slice that pass the
   * filters, and how its fallible steps end.
   */
  datatype Cycle = Cycle(
    content: seq<byte>,
    mtime: int,
    identity: Identity,
    parses: bool,
    included: seq<QueryKey>,
    batch: Batch,
    saves: bool
  )

  datatype Event = Poll(cycle: Cycle) | Restart | Shutdown(cycle: Cycle)

  function Position(durable: Option<FileState>): nat {
    if durable.Some? then durable.value.lastPosition else 0
  }

  function Pow2(n: nat): nat {
    if n == 0 then 1 else 2 * Pow2(n - 1)
  }

  function Saturated(n: nat): nat {
    Min(n, U64_MAX)
  }

  /** `saturating_add` on offsets, which are at most `U64_MAX` themselves. */
  function SaturatingAdd(a: nat, b: nat): (r: nat)
    ensures a <= r
  {
    if a <= Saturated(a + b) then Saturated(a + b) else a
  }

  /** The budget doubles with every stalled cycle, 20 times at most. */
  function EffectiveBudget(cfg: Config, stalls: nat): nat {
    if cfg.readBudget == 0 then 0 else Saturated(cfg.readBudget * Pow2(Min(stalls, 20)))
  }

  function Observe(r: Runtime, mtime: int, size: nat): Runtime {
    if r.lastObserved == Some((mtime, size)) then r.(unchangedCycles := r.unchangedCycles + 1)
    else r.(unchangedCycles := 0, lastObserved := Some((mtime, size)))
  }

  predicate Rotated(state: FileState, c: Cycle) {
    || (state.identity.Some? && c.identity.Some? && state.identity != c.identity)
    || |c.content| < state.fileSize
  }

  /** The state a cycle starts from: a rotated file is read from its beginning. */
  function StartState(durable: Option<FileState>, c: Cycle): FileState {
    var state := if durable.Some? then durable.value else NEW_FILE;
    if Rotated(state, c) then state.(lastPosition := 0, fileSize := 0) else state
  }

  function ReadEnd(cfg: Config, r: Runtime, start: nat, size: nat): (end: nat)
    requires start <= size
    ensures start <= end <= size
  {
    var budget := EffectiveBudget(cfg, r.budgetStalls);
    if budget == 0 then size else Min(size, SaturatingAdd(start, budget))
  }

  /** Where parsing stops: the last complete timestamped line when an entry may still be in the making. */
  function ParseEnd(content: seq<byte>, start: nat, end: nat, holdBack: bool): (r: Option<nat>)
    requires start <= end <= |content|
    ensures r.Some? ==> r.value <= end && (holdBack ==> start < r.value < end)
  {
    if !holdBack then Some(end)
    else
      LastStartMeaning(content[start..end], CompleteLogLine, 0);
      match LastBoundary(content[start..end])
      case None => None
      case Some(b) => if b > 0 then Some(start + b) else None
  }

  /** A failed parse moves nothing, except that the third in a row skips the range. */
  function ParseFailed(t: Tail, state: FileState, c: Cycle): Tail {
    var failures := t.runtime.parseFailures + 1;
    var size := |c.content|;
    if failures >= MAX_PARSE_FAILURES && c.saves then
      t.(durable := Some(state.(lastPosition := size, fileSize := size, mtime := c.mtime)),
         runtime := t.runtime.(parseFailures := 0))
    else t.(runtime := t.runtime.(parseFailures := failures))
  }

  /** Emit, then checkpoint: a failed batch emits nothing, a failed checkpoint leaves the position. */
  function Commit(t: Tail, state: FileState, c: Cycle, end: nat): Tail {
    if !Emits(c.included, c.batch) then t
    else
      var log := t.log + [Emitted(state.lastPosition, end, c.included, c.saves)];
      if c.saves then t.(durable := Some(FileState(end, |c.content|, c.mtime, c.identity)), log := log)
      else t.(log := log)
  }

  /** Read, parse and commit the next slice of a file that has grown past the checkpoint. */
  function IngestStep(cfg: Config, t: Tail, state: FileState, c: Cycle): Tail
    requires state.lastPosition < |c.content|
  {
    var size := |c.content|;
    var end := ReadEnd(cfg, t.runtime, state.lastPosition, size);
    var clamped := end < size;
    var holdBack := t.runtime.unchangedCycles < QUIESCENT_CYCLES || clamped;
    if !c.parses then ParseFailed(t, state, c)
    else
      var parsed := ParseEnd(c.content, state.lastPosition, end, holdBack);
      var progress := parsed.Some? && parsed.value > state.lastPosition;
      var r := t.runtime.(
        parseFailures := 0,
        budgetStalls := if clamped && !progress then t.runtime.budgetStalls + 1 else 0);
      match parsed
      case None => t.(runtime := r)
      case Some(stop) => Commit(t.(runtime := r), state, c, stop)
  }

  /** `process_log_file` */
  function PollStep(cfg: Config, before: Tail, c: Cycle): Tail {
    var size := |c.content|;
    if cfg.maxFileSize > 0 && size > cfg.maxFileSize then before
    else
      var t := before.(runtime := Observe(before.runtime, c.mtime, size));
      var state := StartState(t.durable, c);
      if size <= state.lastPosition then t else IngestStep(cfg, t, state, c)
  }

  /** `process_remaining_content`: parse to the end of the file, whatever is there. */
  function ShutdownStep(t: Tail, c: Cycle): Tail {
    var start, size := Position(t.durable), |c.content|;
    if size <= start || !c.parses then t
    else Commit(t, FileState(start, 0, 0, None), c, size)
  }

  function Step(cfg: Config, t: Tail, e: Event): Tail {
    match e
    case Poll(c) => PollStep(cfg, t, c)
    case Restart => t.(runtime := NEW_RUNTIME)
    case Shutdown(c) => ShutdownStep(t, c)
  }

  function RunAll(cfg: Config, t: Tail, es: seq<Event>): Tail
    decreases |es|
  {
    if es == [] then t else RunAll(cfg, Step(cfg, t, es[0]), es[1..])
  }

  // ---- Tiling ----

  /** Every emission starts at the position committed before it, and moves it to its end if it was saved. */
  predicate Tiling(log: seq<Emitted>, pos: nat)
    decreases |log|
  {
    if log == [] then pos == 0
    else
      var init, last := log[..|log| - 1], log[|log| - 1];
      last.from < last.to &&
      if last.saved then last.to == pos && Tiling(init, last.from) else last.from == pos && Tiling(init, pos)
  }

  /** How many emissions a byte was part of; with `onlySaved`, of those whose checkpoint held. */
  function TimesEmitted(log: seq<Emitted>, x: nat, onlySaved: bool): nat
    decreases |log|
  {
    if log == [] then 0
    else
      var last := log[|log| - 1];
      TimesEmitted(log[..|log| - 1], x, onlySaved) +
      if last.from <= x < last.to && (last.saved || !onlySaved) then 1 else 0
  }

  /** The saved ranges tile what has been committed: no gap, no overlap, nothing beyond. */
  lemma {:induction false} SavedRangesTile(log: seq<Emitted>, pos: nat, x: nat)
    requires Tiling(log, pos)
    ensures TimesEmitted(log, x, true) == if x < pos then 1 else 0
    decreases |log|
  {
    if log != [] {
      var last := log[|log| - 1];
      SavedRangesTile(log[..|log| - 1], if last.saved then last.from else pos, x);
    }
  }

  predicate AllSaved(log: seq<Emitted>) {
    forall i :: 0 <= i < |log| ==> log[i].saved
  }

  lemma {:induction false} EmittedAtLeastOnce(log: seq<Emitted>, x: nat)
    ensures TimesEmitted(log, x, true) <= TimesEmitted(log, x, false)
    ensures AllSaved(log) ==> TimesEmitted(log, x, true) == TimesEmitted(log, x, false)
    decreases |log|
  {
    if log != [] {
      EmittedAtLeastOnce(log[..|log| - 1], x);
    }
  }

  // ---- What was observed ----

  /** The observations of the file since the last restart: its modification time and size, cycle by cycle. */
  function Observed(cfg: Config, seen: seq<(int, nat)>, e: Event): seq<(int, nat)> {
    match e
    case Restart => []
    case Shutdown(_) => seen
    case Poll(c) =>
      if cfg.maxFileSize > 0 && |c.content| > cfg.maxFileSize then seen else seen + [(c.mtime, |c.content|)]
  }

  function ObservedAll(cfg: Config, seen: seq<(int, nat)>, es: seq<Event>): seq<(int, nat)>
    decreases |es|
  {
    if es == [] then seen else ObservedAll(cfg, Observed(cfg, seen, es[0]), es[1..])
  }

  /** The last three observations are the same. */
  predicate Unchanged(seen: seq<(int, nat)>) {
    var n := |seen|;
    n >= 3 && seen[n - 1] == seen[n - 2] == seen[n - 3]
  }

  /** How often the last observation has been repeated. */
  function Repeats(seen: seq<(int, nat)>): nat {
    var n := |seen|;
    if n < 2 || seen[n - 1] != seen[n - 2] then 0 else 1 + Repeats(seen[..n - 1])
  }

  lemma TwoRepeats(seen: seq<(int, nat)>)
    ensures Repeats(seen) >= QUIESCENT_CYCLES <==> Unchanged(seen)
  {
    if |seen| >= 2 {
      var init := seen[..|seen| - 1];
      assert |init| >= 2 ==> init[|init| - 1] == seen[|seen| - 2] && init[|init| - 2] == seen[|seen| - 3];
    }
  }

  /** The runtime remembers the last observation, and how often it was repeated. */
  predicate Remembers(r: Runtime, seen: seq<(int, nat)>) {
    && r.lastObserved == (if seen == [] then None else Some(seen[|seen| - 1]))
    && r.unchangedCycles == Repeats(seen)
  }

  lemma StepRemembers(cfg: Config, t: Tail, e: Event, seen: seq<(int, nat)>)
    requires Remembers(t.runtime, seen)
    ensures Remembers(Step(cfg, t, e).runtime, Observed(cfg, seen, e))
  {
    if e.Poll? {
      ObservesNext(t.runtime, seen, (e.cycle.mtime, |e.cycle.content|));
    }
  }

  lemma ObservesNext(r: Runtime, seen: seq<(int, nat)>, x: (int, nat))
    requires Remembers(r, seen)
    ensures Remembers(Observe(r, x.0, x.1), seen + [x])
  {
    assert (seen + [x])[..|seen|] == seen;
  }

  lemma {:induction false} RunRemembers(cfg: Config, t: Tail, es: seq<Event>, seen: seq<(int, nat)>)
    requires Remembers(t.runtime, seen)
    ensures Remembers(RunAll(cfg, t, es).runtime, ObservedAll(cfg, seen, es))
    decreases |es|
  {
    if es != [] {
      StepRemembers(cfg, t, es[0], seen);
      RunRemembers(cfg, Step(cfg, t, es[0]), es[1..], Observed(cfg, seen, es[0]));
    }
  }

  /** Where a poll's slice may end, given what has been observed. */
  lemma PollHoldsBack(cfg: Config, t: Tail, c: Cycle, seen: seq<(int, nat)>)
    requires Remembers(t.runtime, seen)
    ensures var after := PollStep(cfg, t, c);
            after.log != t.log ==>
              && |after.log| == |t.log| + 1 && after.log[..|t.log|] == t.log
              && var slice := after.log[|t.log|];
              && slice.from < slice.to <= |c.content|
              && if slice.to == |c.content| then Unchanged(Observed(cfg, seen, Poll(c)))
                 else StartsAt(c.content, CompleteLogLine, slice.to)
  {
    var size := |c.content|;
    var r, state := Observe(t.runtime, c.mtime, size), StartState(t.durable, c);
    ObservesNext(t.runtime, seen, (c.mtime, size));
    TwoRepeats(seen + [(c.mtime, size)]);
    if size > state.lastPosition {
      StopsAtLine(c.content, state.lastPosition, ReadEnd(cfg, r, state.lastPosition, size));
    }
  }

  lemma StopsAtLine(content: seq<byte>, start: nat, end: nat)
    requires start <= end <= |content|
    ensures var stop := ParseEnd(content, start, end, true);
            stop.Some? ==> start < stop.value < end && StartsAt(content, CompleteLogLine, stop.value)
  {
    var stop := ParseEnd(content, start, end, true);
    LastStartMeaning(content[start..end], CompleteLogLine, 0);
    if stop.Some? {
      WindowLineInFile(content, start, end, stop.value - start);
    }
  }

  /**
   * A file that is still being written is never read to its end: a poll does
   * that only if two polls before it, since the last restart and with no other
   * observation between, found the file as it is now. Any other slice ends
   * where a complete timestamped line begins.
   */
  lemma TailIsHeldBack(cfg: Config, es: seq<Event>, c: Cycle)
    ensures var t := RunAll(cfg, NEW_TAIL, es);
            var after := PollStep(cfg, t, c);
            after.log != t.log ==>
              && |after.log| == |t.log| + 1
              && var stop := after.log[|t.log|].to;
              if stop == |c.content| then Unchanged(Observed(cfg, ObservedAll(cfg, [], es), Poll(c)))
              else stop < |c.content| && StartsAt(c.content, CompleteLogLine, stop)
  {
    RunRemembers(cfg, NEW_TAIL, es, []);
    PollHoldsBack(cfg, RunAll(cfg, NEW_TAIL, es), c, ObservedAll(cfg, [], es));
  }

  // ---- Safety over a run ----

  /** The file only grows, from `seen` bytes on, into `file`, and keeps its identity. */
  predicate Steady(file: seq<byte>, id: Identity, seen: nat, e: Event) {
    e.Restart? ||
    (seen <= |e.cycle.content| <= |file| && e.cycle.content == file[..|e.cycle.content|] && e.cycle.identity == id)
  }

  function SeenAfter(seen: nat, e: Event): nat {
    if e.Restart? then seen else |e.cycle.content|
  }

  /** No third parse failure in a row. */
  predicate KeepsTrying(t: Tail, e: Event) {
    e.Poll? && !e.cycle.parses ==> t.runtime.parseFailures + 1 < MAX_PARSE_FAILURES
  }

  /** A flush to the end of a file, by a shutdown or a poll that finds it unchanged, ends where an entry does. */
  predicate FlushesCleanly(cfg: Config, t: Tail, e: Event, file: seq<byte>, seen: seq<(int, nat)>) {
    var log := Step(cfg, t, e).log;
    e.Shutdown? || (e.Poll? && Unchanged(Observed(cfg, seen, e))) ==>
      |log| > |t.log| && log[|log| - 1].to == |e.cycle.content| ==> GoodCut(file, |e.cycle.content|)
  }

  ghost predicate Orderly(cfg: Config, t: Tail, es: seq<Event>, file: seq<byte>, id: Identity, seen: nat)
    decreases |es|
  {
    es != [] ==>
      && Steady(file, id, seen, es[0]) && KeepsTrying(t, es[0])
      && Orderly(cfg, Step(cfg, t, es[0]), es[1..], file, id, SeenAfter(seen, es[0]))
  }

  ghost predicate CleanFlushes(cfg: Config, t: Tail, es: seq<Event>, file: seq<byte>, seen: seq<(int, nat)>)
    decreases |es|
  {
    es != [] ==>
      && FlushesCleanly(cfg, t, es[0], file, seen)
      && CleanFlushes(cfg, Step(cfg, t, es[0]), es[1..], file, Observed(cfg, seen, es[0]))
  }

  /** What every step of an orderly run keeps. */
  predicate Sound(t: Tail, id: Identity, seen: nat) {
    && Tiling(t.log, Position(t.durable)) && Position(t.durable) <= seen
    && (t.durable.Some? ==>
      t.durable.value.fileSize <= seen && (t.durable.value.identity == id || t.durable.value.identity.None?))
  }

  lemma TilingCommit(log: seq<Emitted>, pos: nat, e: Emitted)
    requires Tiling(log, pos) && e.from == pos < e.to
    ensures Tiling(log + [e], if e.saved then e.to else pos)
  {
    assert (log + [e])[..|log + [e]| - 1] == log;
  }

  lemma CommitKeepsSound(t: Tail, state: FileState, c: Cycle, id: Identity, seen: nat, end: nat)
    requires Sound(t, id, seen) && seen <= |c.content| && c.identity == id
    requires state.lastPosition == Position(t.durable) < end <= |c.content|
    ensures Sound(Commit(t, state, c, end), id, |c.content|)
    ensures Follows(t, Commit(t, state, c, end))
  {
    if Emits(c.included, c.batch) {
      TilingCommit(t.log, Position(t.durable), Emitted(state.lastPosition, end, c.included, c.saves));
    }
  }

  /** The log grows by at most one emission, from the committed position on. */
  predicate Follows(t: Tail, after: Tail) {
    after.log == t.log ||
    (|after.log| == |t.log| + 1 && after.log[..|t.log|] == t.log && after.log[|t.log|].from == Position(t.durable))
  }

  lemma IngestKeepsSound(cfg: Config, t: Tail, state: FileState, c: Cycle, id: Identity, seen: nat)
    requires Sound(t, id, seen) && seen <= |c.content| && c.identity == id
    requires state.lastPosition == Position(t.durable) < |c.content|
    requires c.parses || t.runtime.parseFailures + 1 < MAX_PARSE_FAILURES
    ensures Sound(IngestStep(cfg, t, state, c), id, |c.content|) && Follows(t, IngestStep(cfg, t, state, c))
  {
    if c.parses {
      var next := IngestStep(cfg, t, state, c);
      var end := ReadEnd(cfg, t.runtime, state.lastPosition, |c.content|);
      var holdBack := t.runtime.unchangedCycles < QUIESCENT_CYCLES || end < |c.content|;
      var parsed := ParseEnd(c.content, state.lastPosition, end, holdBack);
      if parsed.Some? {
        CommitKeepsSound(t.(runtime := next.runtime), state, c, id, seen, parsed.value);
      }
    }
  }

  lemma StepKeepsSound(cfg: Config, t: Tail, e: Event, file: seq<byte>, id: Identity, seen: nat)
    requires Sound(t, id, seen) && Steady(file, id, seen, e) && KeepsTrying(t, e)
    ensures Sound(Step(cfg, t, e), id, SeenAfter(seen, e))
    ensures Follows(t, Step(cfg, t, e))
  {
    match e
    case Restart =>
    case Shutdown(c) =>
      if |c.content| > Position(t.durable) {
        CommitKeepsSound(t, FileState(Position(t.durable), 0, 0, None), c, id, seen, |c.content|);
      }
    case Poll(c) =>
      var state := StartState(t.durable, c);
      if |c.content| > state.lastPosition {
        IngestKeepsSound(cfg, t.(runtime := Observe(t.runtime, c.mtime, |c.content|)), state, c, id, seen);
      }
  }

  /** The queries counted, emission by emission. */
  function Counted(log: seq<Emitted>): seq<QueryKey>
    decreases |log|
  {
    if log == [] then [] else Counted(log[..|log| - 1]) + log[|log| - 1].queries
  }

  lemma CountedSnoc(log: seq<Emitted>, e: Emitted)
    ensures Counted(log + [e]) == Counted(log) + e.queries
  {
    assert (log + [e])[..|log|] == log;
  }

  /** A failed state batch counts nothing and moves nothing. */
  lemma FailedBatchIsInvisible(cfg: Config, t: Tail, c: Cycle)
    requires c.parses && c.included != [] && c.batch.None?
    ensures PollStep(cfg, t, c).durable == t.durable && PollStep(cfg, t, c).log == t.log
    ensures ShutdownStep(t, c) == t
  {}

  lemma CommitNeedsNoBatch(t: Tail, state: FileState, c: Cycle, end: nat, batch: Batch)
    requires c.included == []
    ensures Commit(t, state, c, end) == Commit(t, state, c.(batch := batch), end)
  {}

  lemma IngestNeedsNoBatch(cfg: Config, t: Tail, state: FileState, c: Cycle, batch: Batch)
    requires c.included == [] && state.lastPosition < |c.content|
    ensures IngestStep(cfg, t, state, c) == IngestStep(cfg, t, state, c.(batch := batch))
  {
    var other, size := c.(batch := batch), |c.content|;
    if c.parses {
      var end := ReadEnd(cfg, t.runtime, state.lastPosition, size);
      var holdBack := t.runtime.unchangedCycles < QUIESCENT_CYCLES || end < size;
      var parsed := ParseEnd(c.content, state.lastPosition, end, holdBack);
      if parsed.Some? {
        CommitNeedsNoBatch(t.(runtime := IngestStep(cfg, t, state, c).runtime), state, c, parsed.value, batch);
      }
    }
  }

  /** Without queries there is no batch that could fail. */
  lemma EmptySliceNeedsNoBatch(cfg: Config, t: Tail, c: Cycle, batch: Batch)
    requires c.included == []
    ensures PollStep(cfg, t, c) == PollStep(cfg, t, c.(batch := batch))
    ensures ShutdownStep(t, c) == ShutdownStep(t, c.(batch := batch))
  {
    var state := StartState(t.durable, c);
    assert StartState(t.durable, c.(batch := batch)) == state;
    if |c.content| > state.lastPosition {
      IngestNeedsNoBatch(cfg, t.(runtime := Observe(t.runtime, c.mtime, |c.content|)), state, c, batch);
    }
    if |c.content| > Position(t.durable) {
      CommitNeedsNoBatch(t, FileState(Position(t.durable), 0, 0, None), c, |c.content|, batch);
    }
  }

  /**
   * A cycle counts all queries of its slice or none of them, the checkpoint
   * does not move without them, and behind a failed batch neither happens.
   */
  lemma CycleCountsAllOrNone(cfg: Config, t: Tail, c: Cycle)
    requires c.parses
    ensures var after := PollStep(cfg, t, c);
            && Counted(after.log) == Counted(t.log) + (if after.log == t.log then [] else c.included)
            && (after.log == t.log ==> after.durable == t.durable)
            && (c.included != [] && c.batch.None? ==> after.log == t.log)
  {
    var after := PollStep(cfg, t, c);
    if after.log != t.log {
      CountedSnoc(t.log, after.log[|t.log|]);
    }
  }

  /** Over any orderly run the checkpoint is what the emissions tile. */
  lemma {:induction false} RunKeepsSound(cfg: Config, t: Tail, es: seq<Event>, file: seq<byte>, id: Identity, seen: nat)
    returns (seen': nat)
    requires Sound(t, id, seen) && Orderly(cfg, t, es, file, id, seen)
    ensures Sound(RunAll(cfg, t, es), id, seen')
    decreases |es|
  {
    seen' := seen;
    if es != [] {
      StepKeepsSound(cfg, t, es[0], file, id, seen);
      seen' := RunKeepsSound(cfg, Step(cfg, t, es[0]), es[1..], file, id, SeenAfter(seen, es[0]));
    }
  }

  /** Every committed byte was emitted by exactly one saved range, and exactly once in all if no checkpoint failed. */
  lemma TailingIsTiled(cfg: Config, es: seq<Event>, file: seq<byte>, id: Identity, x: nat)
    requires Orderly(cfg, NEW_TAIL, es, file, id, 0)
    ensures var t := RunAll(cfg, NEW_TAIL, es);
            && TimesEmitted(t.log, x, true) == (if x < Position(t.durable) then 1 else 0)
            && (x < Position(t.durable) ==> TimesEmitted(t.log, x, false) >= 1)
            && (AllSaved(t.log) ==> TimesEmitted(t.log, x, false) == if x < Position(t.durable) then 1 else 0)
  {
    var t := RunAll(cfg, NEW_TAIL, es);
    var seen := RunKeepsSound(cfg, NEW_TAIL, es, file, id, 0);
    SavedRangesTile(t.log, Position(t.durable), x);
    EmittedAtLeastOnce(t.log, x);
  }

  // ---- Slicing is invisible ----

  /** The plans emitted, in order; with `onlySaved`, those whose checkpoint held. */
  function PlansOf(env: Env, lim: Limits, file: seq<byte>, log: seq<Emitted>, onlySaved: bool): seq<QueryPlan>
    decreases |log|
  {
    if log == [] then []
    else
      var last := log[|log| - 1];
      PlansOf(env, lim, file, log[..|log| - 1], onlySaved) +
      if (last.saved || !onlySaved) && last.from <= last.to <= |file| then Plans(env, lim, file[last.from..last.to]) else []
  }

  predicate EndsWell(file: seq<byte>, log: seq<Emitted>) {
    forall i :: 0 <= i < |log| ==> log[i].to <= |file| && GoodCut(file, log[i].to)
  }

  predicate CutOrStart(file: seq<byte>, p: nat) {
    p == 0 || GoodCut(file, p)
  }

  /** One more slice, between two good cuts. */
  lemma SliceAppends(env: Env, lim: Limits, file: seq<byte>, a: nat, b: nat)
    requires a < b <= |file| && CutOrStart(file, a) && GoodCut(file, b)
    requires TS_CORE_LEN <= lim.maxLine && Intact(env, lim, file[..b])
    ensures Plans(env, lim, file[..b]) == Plans(env, lim, file[..a]) + Plans(env, lim, file[a..b])
    ensures Intact(env, lim, file[..a]) && Intact(env, lim, file[a..b])
  {
    if a == 0 {
      PlansOfNothing(env, lim);
      assert file[..0] == [] && file[0..b] == file[..b];
      return;
    }
    var head, slice := file[..a], file[a..b];
    assert head + slice == file[..b];
    SliceStarts(file, a, b);
    IntactSlices(env, lim, head, slice);
    SplitLaw(env, lim, head, slice);
  }

  /** A slice between two good cuts starts an entry, behind whole lines. */
  lemma SliceStarts(file: seq<byte>, a: nat, b: nat)
    requires 0 < a < b <= |file| && GoodCut(file, a) && GoodCut(file, b)
    ensures StartsEntry(file[a..b]) && LineStart(file[..a] + file[a..b], NEWLINE, a)
  {
    var rest := file[a..];
    assert (file[..a] + file[a..b])[a - 1] == file[a - 1];
    assert file[a..b] == rest[..b - a];
    if b < |file| {
      assert rest[b - a - 1] == file[b - 1];
    }
    FirstLineOfSlice(rest, b - a);
  }

  /** A slice that ends where a line does, or with the file, starts with the same line. */
  lemma FirstLineOfSlice(s: seq<byte>, n: nat)
    requires 0 < n <= |s| && (n == |s| || s[n - 1] == NEWLINE)
    ensures s[..n][..FirstLineLen(s[..n], NEWLINE)] == s[..FirstLineLen(s, NEWLINE)]
  {
    FirstLineShape(s, NEWLINE);
    var len := FirstLineLen(s, NEWLINE);
    if n < |s| {
      assert len <= n;
    }
    FirstLineLenUnique(s[..n], NEWLINE, len);
    assert s[..n][..len] == s[..len];
  }

  lemma PlansOfNothing(env: Env, lim: Limits)
    ensures Plans(env, lim, []) == []
  {}

  /** Plans emitted over tiling ranges are the plans of one pass over what they cover. */
  lemma {:induction false} TiledIsOnePass(env: Env, lim: Limits, file: seq<byte>, log: seq<Emitted>, pos: nat)
    requires Tiling(log, pos) && pos <= |file| && EndsWell(file, log)
    requires TS_CORE_LEN <= lim.maxLine && Intact(env, lim, file[..pos])
    ensures PlansOf(env, lim, file, log, true) == Plans(env, lim, file[..pos])
    decreases |log|
  {
    if log == [] {
      PlansOfNothing(env, lim);
    } else {
      var init, last := log[..|log| - 1], log[|log| - 1];
      assert EndsWell(file, init);
      if last.saved {
        TilingStartsWell(file, init, last.from);
        SliceAppends(env, lim, file, last.from, last.to);
        TiledIsOnePass(env, lim, file, init, last.from);
      } else {
        TiledIsOnePass(env, lim, file, init, pos);
      }
    }
  }

  /** A committed position is the start of the file or the end of a saved range. */
  lemma {:induction false} TilingStartsWell(file: seq<byte>, log: seq<Emitted>, pos: nat)
    requires Tiling(log, pos) && EndsWell(file, log)
    ensures CutOrStart(file, pos)
    decreases |log|
  {
    if log != [] && !log[|log| - 1].saved {
      TilingStartsWell(file, log[..|log| - 1], pos);
    }
  }

  /** Each step ends its slice where the file may be cut. */
  lemma StepEndsWell(cfg: Config, t: Tail, e: Event, file: seq<byte>, id: Identity, size: nat, seen: seq<(int, nat)>)
    requires Sound(t, id, size) && Steady(file, id, size, e) && KeepsTrying(t, e) && Remembers(t.runtime, seen)
    requires FlushesCleanly(cfg, t, e, file, seen) && EndsWell(file, t.log)
    ensures EndsWell(file, Step(cfg, t, e).log)
  {
    var after := Step(cfg, t, e);
    StepKeepsSound(cfg, t, e, file, id, size);
    if after.log != t.log {
      SliceEndsWell(cfg, t, e, file, id, size, seen);
      var n := |t.log|;
      forall i | 0 <= i < |after.log| ensures after.log[i].to <= |file| && GoodCut(file, after.log[i].to) {
        assert i < n ==> after.log[i] == after.log[..n][i];
      }
    }
  }

  lemma SliceEndsWell(cfg: Config, t: Tail, e: Event, file: seq<byte>, id: Identity, size: nat, seen: seq<(int, nat)>)
    requires Steady(file, id, size, e) && Remembers(t.runtime, seen) && FlushesCleanly(cfg, t, e, file, seen)
    requires Follows(t, Step(cfg, t, e)) && Step(cfg, t, e).log != t.log
    ensures var stop := Step(cfg, t, e).log[|t.log|].to; stop <= |file| && GoodCut(file, stop)
  {
    var stop := Step(cfg, t, e).log[|t.log|].to;
    if e.Poll? {
      PollHoldsBack(cfg, t, e.cycle, seen);
      if stop != |e.cycle.content| {
        HeldBackEndsWell(cfg, t, e.cycle, file, stop);
      }
    }
  }

  lemma SliceOfPrefix(s: seq<byte>, n: nat, a: nat, b: nat)
    requires a <= b <= n <= |s|
    ensures s[..n][a..b] == s[a..b]
  {}

  /** A slice that stops short of the file's end stops at a timestamped line. */
  lemma HeldBackEndsWell(cfg: Config, t: Tail, c: Cycle, file: seq<byte>, stop: nat)
    requires |c.content| <= |file| && c.content == file[..|c.content|] && stop != |c.content|
    requires var log := PollStep(cfg, t, c).log; |log| == |t.log| + 1 && log[|t.log|].to == stop
    ensures stop <= |file| && GoodCut(file, stop)
  {
    var size := |c.content|;
    var r := Observe(t.runtime, c.mtime, size);
    var start := StartState(t.durable, c).lastPosition;
    var end := ReadEnd(cfg, r, start, size);
    SliceOfPrefix(file, size, start, end);
    assert ParseEnd(c.content, start, end, true) == Some(stop);
    ParseEndIsGoodCut(file, start, end);
    assert ParseEnd(file, start, end, true) == Some(stop);
  }

  lemma ParseEndIsGoodCut(file: seq<byte>, start: nat, end: nat)
    requires start <= end <= |file|
    ensures var stop := ParseEnd(file, start, end, true); stop.Some? ==> stop.value <= |file| && GoodCut(file, stop.value)
  {
    var stop := ParseEnd(file, start, end, true);
    if stop.Some? {
      LastStartMeaning(file[start..end], CompleteLogLine, 0);
      BoundaryIsGoodCut(file, start, end, stop.value - start);
    }
  }

  lemma {:induction false} RunEndsWell(
    cfg: Config, t: Tail, es: seq<Event>, file: seq<byte>, id: Identity, size: nat, seen: seq<(int, nat)>)
    requires Sound(t, id, size) && Orderly(cfg, t, es, file, id, size) && Remembers(t.runtime, seen)
    requires CleanFlushes(cfg, t, es, file, seen) && EndsWell(file, t.log) && size <= |file|
    ensures EndsWell(file, RunAll(cfg, t, es).log)
    ensures Position(RunAll(cfg, t, es).durable) <= |file|
    decreases |es|
  {
    if es != [] {
      StepKeepsSound(cfg, t, es[0], file, id, size);
      StepEndsWell(cfg, t, es[0], file, id, size, seen);
      StepRemembers(cfg, t, es[0], seen);
      RunEndsWell(cfg, Step(cfg, t, es[0]), es[1..], file, id, SeenAfter(size, es[0]), Observed(cfg, seen, es[0]));
    }
  }

  lemma {:induction false} AllSavedPlans(env: Env, lim: Limits, file: seq<byte>, log: seq<Emitted>)
    requires AllSaved(log)
    ensures PlansOf(env, lim, file, log, false) == PlansOf(env, lim, file, log, true)
    decreases |log|
  {
    if log != [] {
      assert log[|log| - 1].saved;
      AllSavedPlans(env, lim, file, log[..|log| - 1]);
    }
  }

  /**
   * Incremental ingestion is one pass: over any orderly run whose flushes end
   * at entry ends, if the entry cap throws nothing away in front of the
   * checkpoint, the plans of the saved ranges are those of one parse of
   * everything in front of it; and so are all plans emitted, if no checkpoint
   * write failed.
   */
  lemma TailingIsOnePass(cfg: Config, es: seq<Event>, file: seq<byte>, id: Identity, env: Env, lim: Limits)
    requires Orderly(cfg, NEW_TAIL, es, file, id, 0) && CleanFlushes(cfg, NEW_TAIL, es, file, [])
    requires TS_CORE_LEN <= lim.maxLine
    ensures var t := RunAll(cfg, NEW_TAIL, es);
            var done := Position(t.durable);
            && done <= |file|
            && (Intact(env, lim, file[..done]) ==>
              && PlansOf(env, lim, file, t.log, true) == Plans(env, lim, file[..done])
              && (AllSaved(t.log) ==> PlansOf(env, lim, file, t.log, false) == Plans(env, lim, file[..done])))
  {
    var t := RunAll(cfg, NEW_TAIL, es);
    var seen := RunKeepsSound(cfg, NEW_TAIL, es, file, id, 0);
    RunEndsWell(cfg, NEW_TAIL, es, file, id, 0, []);
    if Intact(env, lim, file[..Position(t.durable)]) {
      TiledIsOnePass(env, lim, file, t.log, Position(t.durable));
      if AllSaved(t.log) {
        AllSavedPlans(env, lim, file, t.log);
      }
    }
  }

  /**
   * On a file that only grows, the checkpoint passes bytes that were not
   * emitted exactly when a third parse in a row fails and the skip is saved.
   */
  lemma SkipsExactly(cfg: Config, t: Tail, c: Cycle, file: seq<byte>, id: Identity, seen: nat)
    requires Sound(t, id, seen) && Steady(file, id, seen, Poll(c))
    ensures var after := PollStep(cfg, t, c);
            var size := |c.content|;
            (after.log == t.log && Position(after.durable) != Position(t.durable)) <==>
            && (cfg.maxFileSize == 0 || size <= cfg.maxFileSize) && size > Position(t.durable)
            && !c.parses && c.saves && t.runtime.parseFailures + 1 >= MAX_PARSE_FAILURES
  {
    assert StartState(t.durable, c).lastPosition == Position(t.durable);
  }

  // ---- The collector ----

  /** The collector's bookkeeping for one file. */
  class LogCollector {
    const cfg: Config
    const metrics: Metrics
    /** The row of the state store. */
    var durable: Option<FileState>
    /** Lost on restart. */
    var runtime: Runtime
    ghost var log: seq<Emitted>

    ghost function View(): Tail
      reads this
    {
      Tail(durable, runtime, log)
    }

    /** What is scraped is what was emitted. */
    ghost predicate Valid()
      reads this, metrics
    {
      metrics.counted == Counted(log)
    }

    constructor (cfg: Config)
      ensures Valid() && fresh(metrics)
      ensures View() == NEW_TAIL && this.cfg == cfg
    {
      this.cfg := cfg;
      metrics := new Metrics();
      durable := None;
      runtime := NEW_RUNTIME;
      log := [];
    }

    method ProcessLogFile(c: Cycle)
      requires Valid()
      modifies this, metrics
      ensures Valid() && View() == PollStep(cfg, old(View()), c)
    {
      var size := |c.content|;
      if cfg.maxFileSize > 0 && size > cfg.maxFileSize {
        return;
      }
      NoteSize(c.mtime, size);
      var state := Resume(c);
      if size > state.lastPosition {
        Ingest(state, c);
      }
    }

    /** Counts the cycles in which the file has not changed. */
    method NoteSize(mtime: int, size: nat)
      modifies this`runtime
      ensures runtime == Observe(old(runtime), mtime, size)
    {
      if runtime.lastObserved == Some((mtime, size)) {
        runtime := runtime.(unchangedCycles := runtime.unchangedCycles + 1);
      } else {
        runtime := runtime.(unchangedCycles := 0, lastObserved := Some((mtime, size)));
      }
    }

    /** Where to read on; from the beginning of a file that was rotated or truncated. */
    method Resume(c: Cycle) returns (state: FileState)
      ensures state == StartState(durable, c)
    {
      state := if durable.Some? then durable.value else NEW_FILE;
      var identityChanged := state.identity.Some? && c.identity.Some? && state.identity != c.identity;
      if identityChanged || |c.content| < state.fileSize {
        state := state.(lastPosition := 0, fileSize := 0);
      }
    }

    method Ingest(state: FileState, c: Cycle)
      requires Valid() && state.lastPosition < |c.content|
      modifies this, metrics
      ensures Valid() && View() == IngestStep(cfg, old(View()), state, c)
    {
      if !c.parses {
        FailParse(state, c);
        return;
      }
      var size := |c.content|;
      var quiescent := runtime.unchangedCycles >= QUIESCENT_CYCLES;
      var readEnd := ReadEnd(cfg, runtime, state.lastPosition, size);
      var clamped := readEnd < size;
      var parsed := ParseRange(c.content, state.lastPosition, readEnd, !quiescent || clamped);
      if clamped && (parsed.None? || parsed.value <= state.lastPosition) {
        runtime := runtime.(parseFailures := 0, budgetStalls := runtime.budgetStalls + 1);
      } else {
        runtime := runtime.(parseFailures := 0, budgetStalls := 0);
      }
      if parsed.Some? {
        EmitAndSave(state, c, parsed.value);
      }
    }

    /** Retry later, or skip the range after too many failures. */
    method FailParse(state: FileState, c: Cycle)
      modifies this`durable, this`runtime
      ensures View() == ParseFailed(old(View()), state, c)
    {
      var failures := runtime.parseFailures + 1;
      runtime := runtime.(parseFailures := failures);
      if failures >= MAX_PARSE_FAILURES {
        if !c.saves {
          return;
        }
        durable := Some(state.(lastPosition := |c.content|, fileSize := |c.content|, mtime := c.mtime));
        runtime := runtime.(parseFailures := 0);
      }
    }

    /** How far `[start, end)` is parsed: to its end, or to its last complete timestamped line. */
    method ParseRange(content: seq<byte>, start: nat, end: nat, holdBack: bool) returns (stop: Option<nat>)
      requires start <= end <= |content|
      ensures stop == ParseEnd(content, start, end, holdBack)
    {
      if !holdBack {
        return Some(end);
      }
      var boundary := LastEntryBoundary(content[start..end]);
      if boundary.None? || boundary.value == 0 {
        return None;
      }
      return Some(start + boundary.value);
    }

    /**
     * Everything fallible about the batch comes first; the checkpoint follows
     * the counters, which hold the slice's queries exactly if the emission
     * is logged.
     */
    method EmitAndSave(state: FileState, c: Cycle, end: nat)
      requires Valid()
      modifies this`durable, this`log, metrics
      ensures Valid() && View() == Commit(old(View()), state, c, end)
      ensures metrics.counted == old(metrics.counted) + if Emits(c.included, c.batch) then c.included else []
    {
      var ok := metrics.EmitQueryMetrics(c.included, c.batch);
      if !ok {
        return;
      }
      ghost var slice := Emitted(state.lastPosition, end, c.included, c.saves);
      CountedSnoc(log, slice);
      log, durable := log + [slice], if c.saves then Some(FileState(end, |c.content|, c.mtime, c.identity)) else durable;
    }

    method ProcessRemainingContent(c: Cycle)
      requires Valid()
      modifies this, metrics
      ensures Valid() && View() == ShutdownStep(old(View()), c)
    {
      var start := if durable.Some? then durable.value.lastPosition else 0;
      if |c.content| <= start || !c.parses {
        return;
      }
      EmitAndSave(FileState(start, 0, 0, None), c, |c.content|);
    }
  }
}
