/** From the log file to the statistics table, across every tick of the worker. */
module WorkerTable {
  import opened Common
  import opened Timestamp
  import opened EntryState
  import opened LogParser
  import opened Fingerprints
  import opened Lossy
  import opened BgWorker
  import opened StatRow
  import opened Statements
  import opened Retention

  /** The plans of each committed chunk, decoded: one batch per tick. */
  function Batches(env: Env, lim: Limits, chunks: seq<seq<byte>>): seq<seq<QueryPlan>>
    decreases |chunks|
  {
    if chunks == [] then [] else Batches(env, lim, chunks[..|chunks| - 1]) + [Plans(env, lim, Recode(chunks[|chunks| - 1]))]
  }

  lemma {:induction false} BatchesFlatten(env: Env, lim: Limits, chunks: seq<seq<byte>>)
    ensures Flatten(Batches(env, lim, chunks)) == PlansOfChunks(env, lim, chunks)
    decreases |chunks|
  {
    if chunks != [] {
      BatchesFlatten(env, lim, chunks[..|chunks| - 1]);
      FlattenSnoc(Batches(env, lim, chunks[..|chunks| - 1]), Plans(env, lim, Recode(chunks[|chunks| - 1])));
    }
  }

  /**
   * Over any schedule of ticks on a growing file, the table of cumulative
   * statistics is the one a single parse of everything in front of the
   * committed offset would give, if the entry cap throws nothing of its
   * decoded text away, or neither cap acts on its bytes: same groups, same
   * representatives, same counts, sums, extremes, hours, minutes and latency
   * buckets.
   */
  lemma TableIsOnePass(
    ticks: seq<Tick>, maxRead: nat, file: seq<byte>, env: Env, lim: Limits, ms: Scale, threshold: real, sql: Sql)
    requires TS_CORE_LEN <= lim.maxLine && Growing(ticks, file, 0) && KeepsOrder(ms)
    ensures var t := TickAll(BgWorker.EMPTY, ticks, maxRead);
            && t.offset <= |file|
            && var done := file[..t.offset];
            && var table := UpsertAll(ms, threshold, sql, Batches(env, lim, t.chunks));
            && (Intact(env, lim, Recode(done)) ==> table == RowsOf(ms, threshold, sql, Plans(env, lim, Recode(done))))
            && (Fits(env, lim, done) && Fits(env, lim, Recode(done)) ==>
              table == RowsOf(ms, threshold, sql, Plans(env, lim, done)))
  {
    var t := TickAll(BgWorker.EMPTY, ticks, maxRead);
    IngestIsOnePass(ticks, maxRead, file, env, lim);
    BatchesFlatten(env, lim, t.chunks);
    BatchesAreOnePass(ms, threshold, sql, Batches(env, lim, t.chunks));
  }

  /**
   * The same with old minutes neither written nor kept: of the minutes, those
   * from the last write cut on are the ones a single parse would give.
   */
  lemma RetainedTableIsOnePass(
    ticks: seq<Tick>, maxRead: nat, file: seq<byte>, env: Env, lim: Limits, ms: Scale, threshold: real, sql: Sql,
    cuts: seq<Cuts>)
    requires TS_CORE_LEN <= lim.maxLine && Growing(ticks, file, 0) && KeepsOrder(ms)
    requires |TickAll(BgWorker.EMPTY, ticks, maxRead).chunks| == |cuts| > 0 && Orderly(cuts)
    ensures var t := TickAll(BgWorker.EMPTY, ticks, maxRead);
            && t.offset <= |file| && |Batches(env, lim, t.chunks)| == |cuts|
            && var done, cut := file[..t.offset], cuts[|cuts| - 1].write;
            && var table := Persisted(ms, threshold, sql, Batches(env, lim, t.chunks), cuts);
            && (Intact(env, lim, Recode(done)) ==>
              SameFrom(table, RowsOf(ms, threshold, sql, Plans(env, lim, Recode(done))), cut))
            && (Fits(env, lim, done) && Fits(env, lim, Recode(done)) ==>
              SameFrom(table, RowsOf(ms, threshold, sql, Plans(env, lim, done)), cut))
  {
    var t := TickAll(BgWorker.EMPTY, ticks, maxRead);
    IngestIsOnePass(ticks, maxRead, file, env, lim);
    BatchPerChunk(env, lim, t.chunks);
    BatchesFlatten(env, lim, t.chunks);
    RetainedIsOnePass(ms, threshold, sql, Batches(env, lim, t.chunks), cuts);
  }

  lemma {:induction false} BatchPerChunk(env: Env, lim: Limits, chunks: seq<seq<byte>>)
    ensures |Batches(env, lim, chunks)| == |chunks|
    decreases |chunks|
  {
    if chunks != [] {
      BatchPerChunk(env, lim, chunks[..|chunks| - 1]);
    }
  }
}
