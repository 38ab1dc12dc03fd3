/** The batch path: every plan resident, one index list per group. */
module Batch {
  import opened Common
  import opened EntryState
  import opened Fingerprints
  import opened Groups
  import opened Grouping

  type Buckets = map<Text, seq<nat>>

  predicate InBounds(at: seq<nat>, n: nat) {
    forall j :: 0 <= j < |at| ==> at[j] < n
  }

  /** The plans at `at`, in the order listed. */
  function PlansAt(plans: seq<QueryPlan>, at: seq<nat>): seq<QueryPlan>
    requires InBounds(at, |plans|)
  {
    if at == [] then [] else PlansAt(plans, at[..|at| - 1]) + [plans[at[|at| - 1]]]
  }

  /** Aggregate one group in a single fused pass over its indices. */
  method ProcessQueryGroup(plans: seq<QueryPlan>, indices: seq<nat>) returns (g: Group)
    requires indices != [] && InBounds(indices, |plans|)
    ensures PlansAt(plans, indices) != [] && g == Summary(PlansAt(plans, indices))
  {
    var first: nat := indices[0];
    var executions: seq<Execution> := [];
    var minTimestamp, maxTimestamp := plans[first].timestamp, plans[first].timestamp;
    var slowest: nat, slowestDuration := first, plans[first].duration;
    ghost var done: seq<QueryPlan> := [];
    for k := 0 to |indices|
      invariant slowest < |plans| && slowestDuration == plans[slowest].duration
      invariant done == PlansAt(plans, indices[..k]) && (done == [] <==> k == 0)
      invariant Fused(done, plans[first], Group(plans[slowest], executions, minTimestamp, maxTimestamp))
    {
      var plan := plans[indices[k]];
      PlansAtStep(plans, indices, k);
      FusedStep(done, plans[first], Group(plans[slowest], executions, minTimestamp, maxTimestamp), plan);
      if plan.timestamp < minTimestamp {
        minTimestamp := plan.timestamp;
      }
      if plan.timestamp > maxTimestamp {
        maxTimestamp := plan.timestamp;
      }
      if plan.duration >= slowestDuration {
        slowest := indices[k];
        slowestDuration := plan.duration;
      }
      executions := executions + [ExecutionOf(plan)];
      done := done + [plan];
    }
    assert indices[..|indices|] == indices;
    g := Group(plans[slowest], executions, minTimestamp, maxTimestamp);
  }

  /** The running values after `done`: the summary, seeded with the first plan before it is seen. */
  ghost predicate Fused(done: seq<QueryPlan>, first: QueryPlan, g: Group) {
    if done == [] then g == Group(first, [], first.timestamp, first.timestamp)
    else done[0] == first && g == Summary(done)
  }

  lemma FusedStep(done: seq<QueryPlan>, first: QueryPlan, g: Group, plan: QueryPlan)
    requires Fused(done, first, g) && (done == [] ==> plan == first)
    ensures Fused(done + [plan], first, Combined(g, Single(plan)))
  {
    assert (done + [plan])[..|done + [plan]| - 1] == done;
  }

  lemma PlansAtStep(plans: seq<QueryPlan>, indices: seq<nat>, k: nat)
    requires k < |indices| && InBounds(indices, |plans|)
    ensures PlansAt(plans, indices[..k + 1]) == PlansAt(plans, indices[..k]) + [plans[indices[k]]]
  {
    assert indices[..k + 1][..k] == indices[..k];
  }

  /** The index lists of the first `n` plans. */
  ghost predicate Bucketed(sql: Sql, plans: seq<QueryPlan>, n: nat, buckets: Buckets)
    requires n <= |plans|
  {
    && buckets.Keys == Keys(sql, plans[..n])
    && (forall key :: key in buckets ==> InBounds(buckets[key], n))
    && (forall key :: key in buckets ==> PlansAt(plans, buckets[key]) == Select(sql, plans[..n], key))
  }

  /** A batch-local memo in front of the cache. */
  ghost predicate MemoSound(memo: map<Text, Text>, sql: Sql) {
    forall t :: t in memo ==> memo[t] == FingerprintOf(sql, t)
  }

  method ResolveKey(plan: QueryPlan, sql: Sql, cache: FingerprintCache, memo: map<Text, Text>, ghost texts: iset<Text>)
    returns (key: Text, memo': map<Text, Text>)
    requires cache.Valid() && Faithful(sql, texts) && Sound(cache.entries, sql, texts)
    requires plan.queryText in texts && MemoSound(memo, sql)
    modifies cache
    ensures cache.Valid() && Sound(cache.entries, sql, texts)
    ensures key == KeyOf(sql, plan) && MemoSound(memo', sql)
  {
    memo' := memo;
    if plan.queryText in memo {
      key := memo[plan.queryText];
    } else {
      key := FingerprintFor(cache, sql, plan.queryText, texts);
      memo' := memo[plan.queryText := key];
    }
    if plan.database.Some? {
      key := GroupKey(key, plan.database.value);
    }
  }

  /** `get_processed_queries`, up to the shared finalization of each group. */
  method GetProcessedQueries(plans: seq<QueryPlan>, sql: Sql, cache: FingerprintCache, ghost texts: iset<Text>)
    returns (r: GroupMap)
    requires cache.Valid() && Faithful(sql, texts) && Sound(cache.entries, sql, texts)
    requires forall i :: 0 <= i < |plans| ==> plans[i].queryText in texts
    modifies cache
    ensures cache.Valid() && Sound(cache.entries, sql, texts)
    ensures r == GroupsOf(sql, plans)
  {
    var buckets: Buckets := map[];
    var memo: map<Text, Text> := map[];
    for n := 0 to |plans|
      invariant cache.Valid() && Sound(cache.entries, sql, texts) && MemoSound(memo, sql)
      invariant Bucketed(sql, plans, n, buckets)
    {
      var key;
      key, memo := ResolveKey(plans[n], sql, cache, memo, texts);
      BucketStep(sql, plans, n, buckets);
      buckets := WithIndex(buckets, key, n);
    }
    assert plans[..|plans|] == plans;
    r := ProcessBuckets(sql, plans, buckets);
  }

  function WithIndex(buckets: Buckets, key: Text, n: nat): Buckets {
    buckets[key := (if key in buckets then buckets[key] else []) + [n]]
  }

  lemma BucketStep(sql: Sql, plans: seq<QueryPlan>, n: nat, buckets: Buckets)
    requires n < |plans| && Bucketed(sql, plans, n, buckets)
    ensures Bucketed(sql, plans, n + 1, WithIndex(buckets, KeyOf(sql, plans[n]), n))
  {
    var key := KeyOf(sql, plans[n]);
    var after := WithIndex(buckets, key, n);
    assert plans[..n + 1][..n] == plans[..n];
    assert after.Keys == Keys(sql, plans[..n + 1]);
    forall k | k in after
      ensures InBounds(after[k], n + 1) && PlansAt(plans, after[k]) == Select(sql, plans[..n + 1], k)
    {
      var before := if k in buckets then buckets[k] else [];
      SelectNonempty(sql, plans[..n], k);
      BucketStepAt(sql, plans, n, before, k);
    }
  }

  lemma BucketStepAt(sql: Sql, plans: seq<QueryPlan>, n: nat, before: seq<nat>, k: Text)
    requires n < |plans| && InBounds(before, n) && PlansAt(plans, before) == Select(sql, plans[..n], k)
    ensures var at := if k == KeyOf(sql, plans[n]) then before + [n] else before;
            InBounds(at, n + 1) && PlansAt(plans, at) == Select(sql, plans[..n + 1], k)
  {
    SelectNext(sql, plans, n, k);
    PlansAtSnoc(plans, before, n);
  }

  lemma PlansAtSnoc(plans: seq<QueryPlan>, at: seq<nat>, n: nat)
    requires n < |plans| && InBounds(at, |plans|)
    ensures PlansAt(plans, at + [n]) == PlansAt(plans, at) + [plans[n]]
  {
    assert (at + [n])[..|at + [n]| - 1] == at;
  }

  lemma SelectNext(sql: Sql, plans: seq<QueryPlan>, n: nat, k: Text)
    requires n < |plans|
    ensures Select(sql, plans[..n + 1], k)
         == if k == KeyOf(sql, plans[n]) then Select(sql, plans[..n], k) + [plans[n]] else Select(sql, plans[..n], k)
  {
    assert plans[..n + 1][..n] == plans[..n];
    assert Select(sql, plans[..n], k) + [] == Select(sql, plans[..n], k);
  }

  method ProcessBuckets(sql: Sql, plans: seq<QueryPlan>, buckets: Buckets) returns (r: GroupMap)
    requires Bucketed(sql, plans, |plans|, buckets)
    ensures r == GroupsOf(sql, plans)
  {
    assert plans[..|plans|] == plans;
    r := map[];
    var rest := buckets.Keys;
    while rest != {}
      invariant rest <= buckets.Keys && r.Keys == buckets.Keys - rest
      invariant forall k :: k in r ==> k in GroupsOf(sql, plans) && r[k] == GroupsOf(sql, plans)[k]
      decreases rest
    {
      var key :| key in rest;
      SelectNonempty(sql, plans, key);
      var group := ProcessQueryGroup(plans, buckets[key]);
      r := r[key := group];
      rest := rest - {key};
    }
  }

  /**
   * Streaming through a grouper in use, whatever its cache and memo hold,
   * against batching the first plans that pass its filter and cap, through any
   * other sound cache: the same groups, for every input.
   */
  method StreamedAndBatched(plans: seq<QueryPlan>, grouper: QueryGrouper, cache: FingerprintCache)
    returns (streamed: GroupMap, batched: GroupMap, truncated: bool)
    requires grouper.Valid() && grouper.taken == [] && !grouper.truncated
    requires cache.Valid() && Sound(cache.entries, grouper.sql, grouper.texts) && cache != grouper.cache
    requires forall i :: 0 <= i < |plans| ==> plans[i].queryText in grouper.texts
    modifies grouper, grouper.cache, grouper.groups.Values, cache
    ensures streamed == batched
    ensures var ps := old(grouper.View()).Passing(plans);
            var room := if grouper.maxPlans == 0 then |ps| else Min(|ps|, grouper.maxPlans);
            batched == GroupsOf(grouper.sql, ps[..room]) && (truncated <==> room < |ps|)
    ensures grouper.Valid() && grouper.View() == old(grouper.View())
    ensures cache.Valid() && Sound(cache.entries, grouper.sql, grouper.texts)
  {
    var first := FirstPassing(plans, grouper.filter, grouper.maxPlans, grouper.texts);
    streamed, truncated := StreamThrough(plans, grouper);
    batched := GetProcessedQueries(first, grouper.sql, cache, grouper.texts);
  }

  method StreamThrough(plans: seq<QueryPlan>, grouper: QueryGrouper) returns (groups: GroupMap, truncated: bool)
    requires grouper.Valid() && forall i :: 0 <= i < |plans| ==> plans[i].queryText in grouper.texts
    modifies grouper, grouper.cache, grouper.groups.Values
    ensures grouper.Valid() && grouper.View() == Intake(grouper.filter, grouper.maxPlans, [], false)
    ensures var k := old(grouper.View()).OfferAll(plans);
            groups == GroupsOf(grouper.sql, k.taken) && truncated == k.dropped
  {
    grouper.FoldAll(plans);
    truncated := grouper.truncated;
    groups := grouper.TakeGroups();
  }

  /** `&plans[..max]` of the plans a filter lets through. */
  method FirstPassing(plans: seq<QueryPlan>, filter: Option<DateFilter>, maxPlans: nat, ghost texts: iset<Text>)
    returns (first: seq<QueryPlan>)
    requires forall i :: 0 <= i < |plans| ==> plans[i].queryText in texts
    ensures var k := Intake(filter, maxPlans, [], false);
            var ps := k.Passing(plans);
            var room := if maxPlans == 0 then |ps| else Min(|ps|, maxPlans);
            && first == ps[..room] == k.OfferAll(plans).taken
            && (k.OfferAll(plans).dropped <==> room < |ps|)
    ensures forall i :: 0 <= i < |first| ==> first[i].queryText in texts
  {
    var k := Intake(filter, maxPlans, [], false);
    TakesFirstPassing(k, plans);
    TakenAreOffered(k, plans, texts);
    first := k.OfferAll(plans).taken;
    var ps := k.Passing(plans);
    ghost var taken := ps[..if maxPlans == 0 then |ps| else Min(|ps|, maxPlans)];
    assert [] + taken == taken;
  }

  lemma {:induction false} TakenAreOffered(k: Intake, plans: seq<QueryPlan>, texts: iset<Text>)
    requires forall i :: 0 <= i < |plans| ==> plans[i].queryText in texts
    requires forall i :: 0 <= i < |k.taken| ==> k.taken[i].queryText in texts
    ensures forall i :: 0 <= i < |k.OfferAll(plans).taken| ==> k.OfferAll(plans).taken[i].queryText in texts
    decreases |plans|
  {
    if plans != [] {
      TakenAreOffered(k.Offer(plans[0]), plans[1..], texts);
    }
  }
}
