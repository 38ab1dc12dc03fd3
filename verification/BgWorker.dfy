/**
 * The background worker's tail: each tick is one transaction that commits the
 * rows of a chunk together with the offset behind it.
 */
module BgWorker {
  import opened Common
  import opened Lines
  import opened Timestamp
  import opened EntryState
  import opened LogParser
  import opened Utf8
  import opened Boundaries
  import opened Collector
  import opened Lossy

  /** The committed offset, and the chunks whose rows are committed. */
  datatype Ingest = Ingest(offset: nat, chunks: seq<seq<byte>>)

  const EMPTY: Ingest := Ingest(0, [])

  /** The file as a tick finds it, or its failure to open; and whether the transaction commits. */
  datatype Tick = Tick(file: Option<seq<byte>>, commits: bool)

  /** `read_new_complete`: the chunk up to the last entry header, and the offset to resume from. */
  function ReadNewComplete(file: seq<byte>, offset: nat, maxRead: nat): (seq<byte>, nat) {
    var start := if |file| < offset then 0 else offset;
    if |file| <= start then ([], start)
    else
      var window := file[start..start + Min(|file| - start, maxRead)];
      var boundary := CompleteBoundary(window);
      CompleteBoundaryInWindow(window);
      (window[..boundary], start + boundary)
  }

  lemma CompleteBoundaryInWindow(s: seq<byte>)
    ensures CompleteBoundary(s) <= |s|
  {
    LastStartMeaning(s, IsEntryHeader, 0);
    if TwoStarts(s, IsEntryHeader) {
      TwoStartsLast(s, IsEntryHeader, 0);
    }
  }

  function FlushCycle(t: Ingest, tick: Tick, maxRead: nat): Ingest {
    if tick.file.None? || !tick.commits then t
    else
      var (chunk, next) := ReadNewComplete(tick.file.value, t.offset, maxRead);
      Ingest(next, if chunk == [] then t.chunks else t.chunks + [chunk])
  }

  function TickAll(t: Ingest, ticks: seq<Tick>, maxRead: nat): Ingest
    decreases |ticks|
  {
    if ticks == [] then t else TickAll(FlushCycle(t, ticks[0], maxRead), ticks[1..], maxRead)
  }

  /** The file only grows, from `seen` bytes on, into `file`. */
  ghost predicate Growing(ticks: seq<Tick>, file: seq<byte>, seen: nat)
    decreases |ticks|
  {
    ticks != [] ==>
      var now := ticks[0].file;
      && (now.Some? ==> seen <= |now.value| <= |file| && now.value == file[..|now.value|])
      && Growing(ticks[1..], file, if now.Some? then |now.value| else seen)
  }

  /** An offset is the beginning of the file or of an entry header in it. */
  predicate AtEntry(file: seq<byte>, offset: nat) {
    offset == 0 || StartsAt(file, IsEntryHeader, offset)
  }

  /** The committed chunks spell the file up to the offset, which splits no entry. */
  ghost predicate Consistent(t: Ingest, file: seq<byte>, seen: nat) {
    && t.offset <= seen <= |file| && AtEntry(file, t.offset)
    && Flatten(t.chunks) == file[..t.offset]
  }

  /** The header found in a window is one in the whole file, however its line goes on. */
  lemma HeaderInFile(file: seq<byte>, start: nat, end: nat, c: nat)
    requires start <= end <= |file| && c > 0 && StartsAt(file[start..end], IsEntryHeader, c)
    ensures StartsAt(file, IsEntryHeader, start + c)
  {
    var w, p := file[start..end], start + c;
    assert file[p - 1] == w[c - 1] == NEWLINE;
    var part, whole := LineAt(w, c), LineAt(file, p);
    var rest := file[p..];
    assert w[c..] == rest[..end - p];
    FirstLineOfPrefix(rest, NEWLINE, end - p);
    assert whole[..|part|] == part;
    HeaderPrefix(part, whole[|part|..]);
    assert whole == part + whole[|part|..];
  }

  /** A chunk read off the file at the offset. */
  lemma ChunkKeepsConsistent(t: Ingest, file: seq<byte>, seen: nat, end: nat, now: nat)
    requires Consistent(t, file, seen) && t.offset <= end <= now <= |file| && seen <= now
    ensures var b := CompleteBoundary(file[t.offset..end]);
            && b <= end - t.offset
            && Consistent(Ingest(t.offset + b, t.chunks + [file[t.offset..end][..b]]), file, now)
            && (b == 0 ==> Consistent(t, file, now))
  {
    var b := BoundaryAtEntry(file, t.offset, end);
    ChunkAppends(t.chunks, file, t.offset, end, b);
  }

  /** A boundary other than 0 is at an entry of the file. */
  lemma BoundaryAtEntry(file: seq<byte>, start: nat, end: nat) returns (b: nat)
    requires start <= end <= |file|
    ensures b == CompleteBoundary(file[start..end]) <= end - start
    ensures b > 0 ==> AtEntry(file, start + b)
  {
    var window := file[start..end];
    b := CompleteBoundary(window);
    CompleteBoundaryInWindow(window);
    if TwoStarts(window, IsEntryHeader) {
      TwoStartsLast(window, IsEntryHeader, 0);
      LastStartMeaning(window, IsEntryHeader, 0);
      HeaderInFile(file, start, end, b);
    }
  }

  lemma FlushKeepsConsistent(t: Ingest, tick: Tick, maxRead: nat, file: seq<byte>, seen: nat)
    requires Consistent(t, file, seen)
    requires tick.file.Some? ==>
      seen <= |tick.file.value| <= |file| && tick.file.value == file[..|tick.file.value|]
    ensures Consistent(FlushCycle(t, tick, maxRead), file,
                       if tick.file.Some? then |tick.file.value| else seen)
    ensures t.offset <= FlushCycle(t, tick, maxRead).offset
  {
    if tick.file.Some? {
      var now := |tick.file.value|;
      var end := t.offset + Min(now - t.offset, maxRead);
      SliceOfPrefix(file, now, t.offset, end);
      FlushReads(t, tick, maxRead, file[t.offset..end]);
      ChunkKeepsConsistent(t, file, seen, end, now);
    }
  }

  /** A flush of a file that did not shrink. */
  lemma FlushReads(t: Ingest, tick: Tick, maxRead: nat, window: seq<byte>)
    requires tick.file.Some? && t.offset <= |tick.file.value|
    requires window == tick.file.value[t.offset..t.offset + Min(|tick.file.value| - t.offset, maxRead)]
    ensures var b := CompleteBoundary(window);
            b <= |window| && FlushCycle(t, tick, maxRead)
                          == if tick.commits && b > 0 then Ingest(t.offset + b, t.chunks + [window[..b]]) else t
  {
    CompleteBoundaryInWindow(window);
  }

  lemma ChunkAppends(chunks: seq<seq<byte>>, file: seq<byte>, start: nat, end: nat, b: nat)
    requires start <= end <= |file| && b <= end - start && Flatten(chunks) == file[..start]
    ensures Flatten(chunks + [file[start..end][..b]]) == file[..start + b]
  {
    var chunk := file[start..end][..b];
    FlattenSnoc(chunks, chunk);
    assert chunk == file[start..start + b];
  }

  /** Whatever the schedule and the read window: no gap, no overlap, no entry split. */
  lemma {:induction false} TicksKeepConsistent(t: Ingest, ticks: seq<Tick>, maxRead: nat, file: seq<byte>, seen: nat)
    returns (seen': nat)
    requires Consistent(t, file, seen) && Growing(ticks, file, seen)
    ensures Consistent(TickAll(t, ticks, maxRead), file, seen')
    decreases |ticks|
  {
    seen' := seen;
    if ticks != [] {
      FlushKeepsConsistent(t, ticks[0], maxRead, file, seen);
      seen' := TicksKeepConsistent(FlushCycle(t, ticks[0], maxRead), ticks[1..], maxRead, file,
                                   if ticks[0].file.Some? then |ticks[0].file.value| else seen);
    }
  }

  /** The plans of the chunks, each parsed once it has been decoded. */
  function PlansOfChunks(env: Env, lim: Limits, chunks: seq<seq<byte>>): seq<QueryPlan>
    decreases |chunks|
  {
    if chunks == [] then []
    else PlansOfChunks(env, lim, chunks[..|chunks| - 1]) + Plans(env, lim, Recode(chunks[|chunks| - 1]))
  }

  /** What the ingested chunks have in common: each ends where the next starts, at an entry. */
  ghost predicate CutAtEntries(chunks: seq<seq<byte>>, file: seq<byte>)
    decreases |chunks|
  {
    chunks != [] ==>
      && chunks[|chunks| - 1] != []
      && Flatten(chunks) <= file && AtEntry(file, |Flatten(chunks)|)
      && CutAtEntries(chunks[..|chunks| - 1], file)
  }

  lemma FlushCutsAtEntries(t: Ingest, tick: Tick, maxRead: nat, file: seq<byte>, seen: nat)
    requires Consistent(t, file, seen) && CutAtEntries(t.chunks, file)
    requires tick.file.Some? ==>
      seen <= |tick.file.value| <= |file| && tick.file.value == file[..|tick.file.value|]
    ensures CutAtEntries(FlushCycle(t, tick, maxRead).chunks, file)
  {
    var after := FlushCycle(t, tick, maxRead);
    FlushKeepsConsistent(t, tick, maxRead, file, seen);
    if after.chunks != t.chunks {
      assert after.chunks[..|after.chunks| - 1] == t.chunks;
    }
  }

  lemma {:induction false} TicksCutAtEntries(t: Ingest, ticks: seq<Tick>, maxRead: nat, file: seq<byte>, seen: nat)
    requires Consistent(t, file, seen) && CutAtEntries(t.chunks, file) && Growing(ticks, file, seen)
    ensures CutAtEntries(TickAll(t, ticks, maxRead).chunks, file)
    decreases |ticks|
  {
    if ticks != [] {
      FlushKeepsConsistent(t, ticks[0], maxRead, file, seen);
      FlushCutsAtEntries(t, ticks[0], maxRead, file, seen);
      TicksCutAtEntries(FlushCycle(t, ticks[0], maxRead), ticks[1..], maxRead, file,
                        if ticks[0].file.Some? then |ticks[0].file.value| else seen);
    }
  }

  /** Decoding and parsing chunk by chunk is decoding and parsing once. */
  lemma {:induction false} ChunksAreOnePass(env: Env, lim: Limits, chunks: seq<seq<byte>>, file: seq<byte>)
    requires CutAtEntries(chunks, file) && Flatten(chunks) <= file
    requires TS_CORE_LEN <= lim.maxLine && Intact(env, lim, Recode(Flatten(chunks)))
    ensures PlansOfChunks(env, lim, chunks) == Plans(env, lim, Recode(Flatten(chunks)))
    decreases |chunks|
  {
    if chunks == [] {
      PlansOfNothing(env, lim);
    } else {
      var init, last := chunks[..|chunks| - 1], chunks[|chunks| - 1];
      assert chunks == init + [last];
      FlattenSnoc(init, last);
      InitCutAtEntries(init, file);
      ChunkAppendsPlans(env, lim, Flatten(init), last, file);
      ChunksAreOnePass(env, lim, init, file);
    }
  }

  lemma ChunkAppendsPlans(env: Env, lim: Limits, head: seq<byte>, chunk: seq<byte>, file: seq<byte>)
    requires TS_CORE_LEN <= lim.maxLine && Intact(env, lim, Recode(head + chunk))
    requires chunk != [] && head + chunk <= file && CutOrStart(file, |head|) && GoodCut(file, |head + chunk|)
    ensures Plans(env, lim, Recode(head + chunk)) == Plans(env, lim, Recode(head)) + Plans(env, lim, Recode(chunk))
    ensures Intact(env, lim, Recode(head))
  {
    if head == [] {
      assert head + chunk == chunk;
      PlansOfNothing(env, lim);
      var none: seq<QueryPlan> := [];
      assert none + Plans(env, lim, Recode(chunk)) == Plans(env, lim, Recode(chunk));
    } else {
      var a, b := |head|, |head + chunk|;
      assert file[..b] == head + chunk;
      assert file[..a] == head && file[a..b] == file[..b][a..] == chunk;
      SliceStarts(file, a, b);
      LossySplitLaw(env, lim, head, chunk);
    }
  }

  lemma InitCutAtEntries(chunks: seq<seq<byte>>, file: seq<byte>)
    requires CutAtEntries(chunks, file)
    ensures Flatten(chunks) <= file && CutOrStart(file, |Flatten(chunks)|)
  {}

  /**
   * The worker ingests one pass: over any schedule of ticks, aborted ones
   * included, on a file that only grows, the plans of the committed chunks,
   * each decoded on its own, are those of one parse of everything in front of
   * the offset: of its decoded text if the entry cap throws nothing of that
   * away, of its bytes if neither cap acts on either.
   */
  lemma IngestIsOnePass(ticks: seq<Tick>, maxRead: nat, file: seq<byte>, env: Env, lim: Limits)
    requires TS_CORE_LEN <= lim.maxLine && Growing(ticks, file, 0)
    ensures var t := TickAll(EMPTY, ticks, maxRead);
            && t.offset <= |file| && AtEntry(file, t.offset) && Flatten(t.chunks) == file[..t.offset]
            && var done := file[..t.offset];
            && (Intact(env, lim, Recode(done)) ==>
              PlansOfChunks(env, lim, t.chunks) == Plans(env, lim, Recode(done)))
            && (Fits(env, lim, done) && Fits(env, lim, Recode(done)) ==>
              PlansOfChunks(env, lim, t.chunks) == Plans(env, lim, done))
  {
    var t := TickAll(EMPTY, ticks, maxRead);
    var seen := TicksKeepConsistent(EMPTY, ticks, maxRead, file, 0);
    TicksCutAtEntries(EMPTY, ticks, maxRead, file, 0);
    var done := file[..t.offset];
    if Intact(env, lim, Recode(done)) {
      ChunksAreOnePass(env, lim, t.chunks, file);
      if Fits(env, lim, done) && Fits(env, lim, Recode(done)) {
        LossyIsInvisible(env, lim, done);
      }
    }
  }

  lemma AdvancesOnTwoStarts(t: Ingest, file: seq<byte>, maxRead: nat, window: seq<byte>)
    requires t.offset <= |file| && window == file[t.offset..t.offset + Min(|file| - t.offset, maxRead)]
    ensures FlushCycle(t, Tick(Some(file), true), maxRead).offset > t.offset <==> TwoStarts(window, IsEntryHeader)
  {
    FlushReads(t, Tick(Some(file), true), maxRead, window);
    if TwoStarts(window, IsEntryHeader) {
      TwoStartsLast(window, IsEntryHeader, 0);
    }
  }

  /** A tick advances exactly when its window holds a second entry header. */
  lemma AdvancesExactly(t: Ingest, file: seq<byte>, maxRead: nat)
    requires t.offset <= |file|
    ensures var window := file[t.offset..t.offset + Min(|file| - t.offset, maxRead)];
            FlushCycle(t, Tick(Some(file), true), maxRead).offset > t.offset <==> HasTwo(window)
  {
    var window := file[t.offset..t.offset + Min(|file| - t.offset, maxRead)];
    AdvancesOnTwoStarts(t, file, maxRead, window);
    TwoStartsIff(window);
  }

  /** A header begins at `b`, and none behind it. */
  ghost predicate LastHeader(s: seq<byte>, b: nat) {
    StartsAt(s, IsEntryHeader, b) && forall c: nat :: StartsAt(s, IsEntryHeader, c) ==> c <= b
  }

  /** The boundary of a window with two headers is the last of them. */
  lemma BoundaryIsLast(window: seq<byte>)
    requires HasTwo(window)
    ensures var b := CompleteBoundary(window); 0 < b <= |window| && LastHeader(window, b)
  {
    TwoStartsIff(window);
    TwoStartsLast(window, IsEntryHeader, 0);
    LastStartMeaning(window, IsEntryHeader, 0);
  }

  /** Then it advances to the last header of its window: what is behind it may not be complete. */
  lemma AdvancesToLast(t: Ingest, tick: Tick, maxRead: nat, window: seq<byte>) returns (b: nat)
    requires tick.file.Some? && tick.commits && t.offset <= |tick.file.value| && HasTwo(window)
    requires window == tick.file.value[t.offset..t.offset + Min(|tick.file.value| - t.offset, maxRead)]
    ensures 0 < b <= |window| && LastHeader(window, b)
    ensures FlushCycle(t, tick, maxRead) == Ingest(t.offset + b, t.chunks + [window[..b]])
  {
    b := CompleteBoundary(window);
    BoundaryIsLast(window);
    FlushReads(t, tick, maxRead, window);
  }

  // ---- A file that was replaced ----

  /** More chunks in front. */
  function Behind(chunks: seq<seq<byte>>, t: Ingest): Ingest {
    Ingest(t.offset, chunks + t.chunks)
  }

  lemma FlushBehind(chunks: seq<seq<byte>>, t: Ingest, tick: Tick, maxRead: nat)
    ensures FlushCycle(Behind(chunks, t), tick, maxRead) == Behind(chunks, FlushCycle(t, tick, maxRead))
  {
    if tick.file.Some? {
      Assoc(chunks, t.chunks, [ReadNewComplete(tick.file.value, t.offset, maxRead).0]);
    }
  }

  lemma {:induction false} TicksBehind(chunks: seq<seq<byte>>, t: Ingest, ticks: seq<Tick>, maxRead: nat)
    ensures TickAll(Behind(chunks, t), ticks, maxRead) == Behind(chunks, TickAll(t, ticks, maxRead))
    decreases |ticks|
  {
    if ticks != [] {
      FlushBehind(chunks, t, ticks[0], maxRead);
      TicksBehind(chunks, FlushCycle(t, ticks[0], maxRead), ticks[1..], maxRead);
    }
  }

  /**
   * A committed tick that finds the file shorter than the offset reads it from
   * its start, and it and every later tick ingest what a new worker would.
   */
  lemma ShrunkFileStartsOver(t: Ingest, ticks: seq<Tick>, maxRead: nat)
    requires ticks != [] && ticks[0].file.Some? && ticks[0].commits && |ticks[0].file.value| < t.offset
    ensures var anew := TickAll(EMPTY, ticks, maxRead);
            TickAll(t, ticks, maxRead) == Ingest(anew.offset, t.chunks + anew.chunks)
  {
    var stale := FlushCycle(t, ticks[0], maxRead);
    var anew := FlushCycle(EMPTY, ticks[0], maxRead);
    assert ReadNewComplete(ticks[0].file.value, t.offset, maxRead) == ReadNewComplete(ticks[0].file.value, 0, maxRead);
    assert stale == Behind(t.chunks, anew);
    TicksBehind(t.chunks, anew, ticks[1..], maxRead);
  }

  lemma {:induction false} PlansOfMoreChunks(env: Env, lim: Limits, a: seq<seq<byte>>, b: seq<seq<byte>>)
    ensures PlansOfChunks(env, lim, a + b) == PlansOfChunks(env, lim, a) + PlansOfChunks(env, lim, b)
    decreases |b|
  {
    if b == [] {
      assert a + b == a;
    } else {
      var n := |b| - 1;
      assert (a + b)[..|a + b| - 1] == a + b[..n];
      PlansOfMoreChunks(env, lim, a, b[..n]);
      Assoc(PlansOfChunks(env, lim, a), PlansOfChunks(env, lim, b[..n]), Plans(env, lim, Recode(b[n])));
    }
  }

  /** Of a file that replaces a longer one and then grows, the plans of one parse are added. */
  lemma ReplacedFileIsOnePass(t: Ingest, ticks: seq<Tick>, maxRead: nat, file: seq<byte>, env: Env, lim: Limits)
    requires TS_CORE_LEN <= lim.maxLine && Growing(ticks, file, 0)
    requires ticks != [] && ticks[0].file.Some? && ticks[0].commits && |ticks[0].file.value| < t.offset
    ensures var after := TickAll(t, ticks, maxRead);
            && after.offset <= |file|
            && var done := file[..after.offset];
            (Intact(env, lim, Recode(done)) ==>
              PlansOfChunks(env, lim, after.chunks) == PlansOfChunks(env, lim, t.chunks) + Plans(env, lim, Recode(done)))
  {
    ShrunkFileStartsOver(t, ticks, maxRead);
    IngestIsOnePass(ticks, maxRead, file, env, lim);
    PlansOfMoreChunks(env, lim, t.chunks, TickAll(EMPTY, ticks, maxRead).chunks);
  }

  ghost predicate HasTwo(s: seq<byte>) {
    exists c: nat, d: nat :: c < d && StartsAt(s, IsEntryHeader, c) && StartsAt(s, IsEntryHeader, d)
  }

  lemma TwoStartsIff(s: seq<byte>)
    ensures TwoStarts(s, IsEntryHeader) <==> HasTwo(s)
  {
    if TwoStarts(s, IsEntryHeader) {
      var c, d := TwoStartsWitness(s, IsEntryHeader);
    }
    if HasTwo(s) {
      var c: nat, d: nat :| c < d && StartsAt(s, IsEntryHeader, c) && StartsAt(s, IsEntryHeader, d);
      TwoStartsMeaning(s, IsEntryHeader, c, d);
    }
  }

  /** A line behind the first one is a line of the whole. */
  lemma StartsLater(s: seq<byte>, p: seq<byte> -> bool, n: nat, c: nat)
    requires s != [] && n == FirstLineLen(s, NEWLINE) && StartsAt(s[n..], p, c)
    ensures StartsAt(s, p, n + c)
  {
    StartsAtFirst(s, p, n + c);
  }

  lemma FirstStarts(s: seq<byte>, p: seq<byte> -> bool, n: nat)
    requires s != [] && n == FirstLineLen(s, NEWLINE) && p(s[..n])
    ensures StartsAt(s, p, 0)
  {
    StartsAtFirst(s, p, 0);
  }

  lemma SomeStart(s: seq<byte>, p: seq<byte> -> bool) returns (d: nat)
    requires LastStart(s, p, 0).Some?
    ensures StartsAt(s, p, d)
  {
    LastStartMeaning(s, p, 0);
    d := LastStart(s, p, 0).value;
  }

  lemma FirstWitness(s: seq<byte>, p: seq<byte> -> bool, n: nat) returns (d: nat)
    requires s != [] && n == FirstLineLen(s, NEWLINE) && p(s[..n]) && LastStart(s[n..], p, 0).Some?
    ensures 0 < d && StartsAt(s, p, 0) && StartsAt(s, p, d)
  {
    FirstStarts(s, p, n);
    d := SomeStart(s[n..], p);
    StartsLater(s, p, n, d);
    d := n + d;
  }

  lemma LaterWitness(s: seq<byte>, p: seq<byte> -> bool, n: nat, c: nat, d: nat)
    requires s != [] && n == FirstLineLen(s, NEWLINE) && StartsAt(s[n..], p, c) && StartsAt(s[n..], p, d)
    ensures StartsAt(s, p, n + c) && StartsAt(s, p, n + d)
  {
    StartsLater(s, p, n, c);
    StartsLater(s, p, n, d);
  }

  lemma {:induction false} TwoStartsWitness(s: seq<byte>, p: seq<byte> -> bool) returns (c: nat, d: nat)
    requires TwoStarts(s, p)
    ensures c < d && StartsAt(s, p, c) && StartsAt(s, p, d)
    decreases |s|
  {
    var n := FirstLineLen(s, NEWLINE);
    if p(s[..n]) {
      c := 0;
      d := FirstWitness(s, p, n);
    } else {
      c, d := TwoStartsWitness(s[n..], p);
      LaterWitness(s, p, n, c, d);
      c, d := n + c, n + d;
    }
  }

  lemma DecodesToSomething(s: seq<byte>)
    ensures Decode(s) == [] <==> s == []
  {}

  /** The worker: one row holds the offset, the chunks stand for the rows they were turned into. */
  class Worker {
    const maxRead: nat
    var offset: nat
    ghost var chunks: seq<seq<byte>>

    ghost function View(): Ingest
      reads this
    {
      Ingest(offset, chunks)
    }

    constructor (maxRead: nat)
      ensures View() == EMPTY && this.maxRead == maxRead
    {
      this.maxRead := maxRead;
      offset := 0;
      chunks := [];
    }

    /** One flush in its transaction: nothing of it stays if the transaction aborts. */
    method Flush(tick: Tick) returns (text: Text)
      modifies this
      ensures View() == FlushCycle(old(View()), tick, maxRead)
      ensures text == if tick.file.None? then [] else Decode(ReadNewComplete(tick.file.value, old(offset), maxRead).0)
    {
      text := [];
      if tick.file.None? {
        return;
      }
      ghost var chunk := ReadNewComplete(tick.file.value, offset, maxRead).0;
      var next;
      text, next := ReadChunk(tick.file.value);
      if !tick.commits {
        return;
      }
      offset := next;
      DecodesToSomething(chunk);
      if text != [] {
        chunks := chunks + [chunk];
      }
    }

    /** The boundary is found in the raw bytes; what is returned to be parsed is decoded. */
    method ReadChunk(file: seq<byte>) returns (text: Text, next: nat)
      ensures text == Decode(ReadNewComplete(file, offset, maxRead).0)
      ensures next == ReadNewComplete(file, offset, maxRead).1
    {
      var start := if |file| < offset then 0 else offset;
      if |file| <= start {
        return [], start;
      }
      var buf := file[start..start + Min(|file| - start, maxRead)];
      var boundary := LastCompleteBoundary(buf);
      CompleteBoundaryInWindow(buf);
      return Decode(buf[..boundary]), start + boundary;
    }
  }
}
