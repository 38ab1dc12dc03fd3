/** What is left of the minutes when old ones are neither written nor kept. */
module Retention {
  import opened Common
  import opened EntryState
  import opened Fingerprints
  import opened Groups
  import opened Rollup
  import opened StatRow
  import opened Statements

  /**
   * What one batch compares minutes with: the system's clock before it writes
   * them, the transaction's time when it deletes old ones. A batch that is
   * empty writes nothing, and one cut low enough deletes nothing.
   */
  datatype Cuts = Cuts(write: real, purge: real)

  function KeepFrom<V>(m: map<int, V>, cut: real): map<int, V> {
    map k | k in m && k as real >= cut :: m[k]
  }

  function Trim(row: Row, cut: real): Row {
    row.(windows := KeepFrom(row.windows, cut))
  }

  function TrimAll(t: Table, cut: real): Table {
    map key | key in t :: Trim(t[key], cut)
  }

  /** The table after every batch: young minutes upserted, old ones deleted in every row. */
  ghost function Persisted(
    ms: Scale, threshold: real, sql: Sql, batches: seq<seq<QueryPlan>>, cuts: seq<Cuts>): Table
    requires |batches| == |cuts|
  {
    if batches == [] then map[]
    else
      var n := |batches| - 1;
      var rows := RowsOf(ms, threshold, sql, batches[n]);
      Persist(Persisted(ms, threshold, sql, batches[..n], cuts[..n]), rows, cuts[n])
  }

  function Persist(t: Table, rows: Table, cut: Cuts): Table {
    TrimAll(MergeBy(Upsert, t, TrimAll(rows, cut.write)), cut.purge)
  }

  /** Clocks do not run back, and a transaction starts before it writes. */
  ghost predicate Orderly(cuts: seq<Cuts>) {
    && (forall i :: 0 <= i < |cuts| ==> cuts[i].purge <= cuts[i].write)
    && (forall i, j :: 0 <= i < j < |cuts| ==> cuts[i].write <= cuts[j].write)
  }

  /** The same rows, and the same minutes from `cut` on. */
  ghost predicate SameFrom(t: Table, u: Table, cut: real) {
    t.Keys == u.Keys && forall key :: key in t && key in u ==> SameRowFrom(t[key], u[key], cut)
  }

  /** All but the minutes is the same, and each minute from `cut` on is in both or in neither. */
  ghost predicate SameRowFrom(a: Row, b: Row, cut: real) {
    && a.representative == b.representative && a.totals == b.totals
    && a.firstSeen == b.firstSeen && a.lastSeen == b.lastSeen && a.hours == b.hours
    && forall m :: (m in a.windows || m in b.windows) && m as real >= cut ==>
         m in a.windows && m in b.windows && a.windows[m] == b.windows[m]
  }

  // ---- Trimming ----

  lemma TrimmedAlike(t: Table, u: Table, cut: real)
    requires TrimAll(t, cut) == TrimAll(u, cut)
    ensures SameFrom(t, u, cut)
  {
    TrimKeys(t, cut);
    TrimKeys(u, cut);
    forall key | key in t && key in u ensures SameRowFrom(t[key], u[key], cut) {
      assert TrimAll(t, cut)[key] == TrimAll(u, cut)[key];
      RowTrimmedAlike(t[key], u[key], cut);
    }
  }

  lemma RowTrimmedAlike(a: Row, b: Row, cut: real)
    requires Trim(a, cut) == Trim(b, cut)
    ensures SameRowFrom(a, b, cut)
  {
    var l, r := KeepFrom(a.windows, cut), KeepFrom(b.windows, cut);
    assert l == r;
    forall m | (m in a.windows || m in b.windows) && m as real >= cut
      ensures m in a.windows && m in b.windows && a.windows[m] == b.windows[m]
    {
      assert m in l && m in r && l[m] == r[m];
    }
  }

  lemma KeepMerged<V>(join: (V, V) -> V, m: map<int, V>, n: map<int, V>, cut: real)
    ensures KeepFrom(MergeBy(join, m, n), cut) == MergeBy(join, KeepFrom(m, cut), KeepFrom(n, cut))
  {
    var l, r := KeepFrom(MergeBy(join, m, n), cut), MergeBy(join, KeepFrom(m, cut), KeepFrom(n, cut));
    assert l.Keys == r.Keys;
    SameMap(l, r);
  }

  lemma KeepLess<V>(m: map<int, V>, early: real, late: real)
    requires early <= late
    ensures KeepFrom(KeepFrom(m, early), late) == KeepFrom(m, late)
  {
    var l, r := KeepFrom(KeepFrom(m, early), late), KeepFrom(m, late);
    assert l.Keys == r.Keys;
    SameMap(l, r);
  }

  lemma TrimUpsert(a: Row, b: Row, cut: real)
    ensures Trim(Upsert(a, b), cut) == Upsert(Trim(a, cut), Trim(b, cut))
  {
    KeepMerged(JoinWindows, a.windows, b.windows, cut);
  }

  lemma TrimMerged(t: Table, u: Table, cut: real)
    ensures TrimAll(MergeBy(Upsert, t, u), cut) == MergeBy(Upsert, TrimAll(t, cut), TrimAll(u, cut))
  {
    TrimKeys(MergeBy(Upsert, t, u), cut);
    TrimKeys(t, cut);
    TrimKeys(u, cut);
    forall key | key in t && key in u
      ensures Trim(Upsert(t[key], u[key]), cut) == Upsert(TrimAll(t, cut)[key], TrimAll(u, cut)[key])
    {
      TrimUpsert(t[key], u[key], cut);
    }
    SameMap(TrimAll(MergeBy(Upsert, t, u), cut), MergeBy(Upsert, TrimAll(t, cut), TrimAll(u, cut)));
  }

  lemma TrimKeys(t: Table, cut: real)
    ensures TrimAll(t, cut).Keys == t.Keys
  {}

  lemma TrimLess(t: Table, early: real, late: real)
    requires early <= late
    ensures TrimAll(TrimAll(t, early), late) == TrimAll(t, late)
  {
    var l, r := TrimAll(TrimAll(t, early), late), TrimAll(t, late);
    forall key | key in l.Keys ensures l[key] == r[key] {
      KeepLess(t[key].windows, early, late);
    }
    SameMap(l, r);
  }

  // ---- One pass ----

  /** From the write cut on, a batch leaves what it would leave without cuts. */
  lemma PersistStep(before: Table, all: Table, rows: Table, cut: Cuts)
    requires cut.purge <= cut.write && TrimAll(before, cut.write) == TrimAll(all, cut.write)
    ensures TrimAll(Persist(before, rows, cut), cut.write) == TrimAll(MergeBy(Upsert, all, rows), cut.write)
  {
    TrimLess(MergeBy(Upsert, before, TrimAll(rows, cut.write)), cut.purge, cut.write);
    TrimMerged(before, TrimAll(rows, cut.write), cut.write);
    TrimLess(rows, cut.write, cut.write);
    TrimMerged(all, rows, cut.write);
  }

  /**
   * From the last write cut on, every minute of every row is the one a single
   * pass over all plans would have; the rest of each row has no cuts.
   */
  lemma RetainedIsOnePass(
    ms: Scale, threshold: real, sql: Sql, batches: seq<seq<QueryPlan>>, cuts: seq<Cuts>)
    requires |batches| == |cuts| > 0 && Orderly(cuts) && KeepsOrder(ms)
    ensures SameFrom(Persisted(ms, threshold, sql, batches, cuts), RowsOf(ms, threshold, sql, Flatten(batches)),
                     cuts[|cuts| - 1].write)
  {
    TrimmedIsOnePass(ms, threshold, sql, batches, cuts);
    TrimmedAlike(Persisted(ms, threshold, sql, batches, cuts), RowsOf(ms, threshold, sql, Flatten(batches)),
                 cuts[|cuts| - 1].write);
  }

  lemma {:induction false} TrimmedIsOnePass(
    ms: Scale, threshold: real, sql: Sql, batches: seq<seq<QueryPlan>>, cuts: seq<Cuts>)
    requires |batches| == |cuts| > 0 && Orderly(cuts) && KeepsOrder(ms)
    ensures TrimAll(Persisted(ms, threshold, sql, batches, cuts), cuts[|cuts| - 1].write)
         == TrimAll(RowsOf(ms, threshold, sql, Flatten(batches)), cuts[|cuts| - 1].write)
    decreases |batches|
  {
    var n := |batches| - 1;
    var before := Persisted(ms, threshold, sql, batches[..n], cuts[..n]);
    var all := RowsOf(ms, threshold, sql, Flatten(batches[..n]));
    if n == 0 {
      NoRows(ms, threshold, sql, batches[..n]);
    } else {
      TrimmedIsOnePass(ms, threshold, sql, batches[..n], cuts[..n]);
      TrimLess(before, cuts[n - 1].write, cuts[n].write);
      TrimLess(all, cuts[n - 1].write, cuts[n].write);
    }
    PersistStep(before, all, RowsOf(ms, threshold, sql, batches[n]), cuts[n]);
    RowsAppend(ms, threshold, sql, Flatten(batches[..n]), batches[n]);
    FlattenLast(batches);
  }

  lemma NoRows(ms: Scale, threshold: real, sql: Sql, batches: seq<seq<QueryPlan>>)
    requires batches == []
    ensures RowsOf(ms, threshold, sql, Flatten(batches)) == map[]
  {
    assert Keys(sql, []) == {};
  }

  /** Nothing older than the last purge cut is left. */
  lemma PurgedIsGone(
    ms: Scale, threshold: real, sql: Sql, batches: seq<seq<QueryPlan>>, cuts: seq<Cuts>, key: Text, minute: int)
    requires |batches| == |cuts| > 0
    requires key in Persisted(ms, threshold, sql, batches, cuts)
    requires minute in Persisted(ms, threshold, sql, batches, cuts)[key].windows
    ensures minute as real >= cuts[|cuts| - 1].purge
  {}
}
