/** Counting the queries of a slice: all of them, or none. */
module Emission {
  import opened Common

  /** Fingerprint and database. */
  type QueryKey = (Text, Text)

  /** When each query was seen first and last: what the state batch answers, if it answers. */
  type Batch = Option<map<QueryKey, (int, int)>>

  /** A slice without queries needs no batch and cannot fail. */
  predicate Emits(included: seq<QueryKey>, batch: Batch) {
    included == [] || batch.Some?
  }

  /** The monotonic counters that are scraped. */
  class Metrics {
    var counted: seq<QueryKey>

    constructor ()
      ensures counted == []
    {
      counted := [];
    }

    /**
     * `emit_query_metrics`. The one fallible step, the state batch, comes
     * before the first counter moves, so a failure leaves no query of the
     * slice counted.
     */
    method EmitQueryMetrics(included: seq<QueryKey>, batch: Batch) returns (ok: bool)
      modifies this
      ensures ok == Emits(included, batch)
      ensures counted == old(counted) + if ok then included else []
    {
      if included == [] {
        return true;
      }
      if batch.None? {
        return false;
      }
      for i := 0 to |included|
        invariant counted == old(counted) + included[..i]
      {
        counted := counted + [included[i]];
      }
      assert included[..|included|] == included;
      return true;
    }
  }
}
