/**
 * The streaming grouper, which folds each plan into its group and drops it,
 * and the batch path it must agree with.
 */
module Grouping {
  import opened Common
  import opened EntryState
  import opened Fingerprints
  import opened Groups

  /** One group in progress. */
  class GroupAccumulator {
    var representative: QueryPlan
    var representativeDuration: int
    var executions: seq<Execution>
    var minTimestamp: int
    var maxTimestamp: int

    ghost predicate Valid()
      reads this
    {
      representativeDuration == representative.duration
    }

    function View(): Group
      reads this
    {
      Group(representative, executions, minTimestamp, maxTimestamp)
    }

    constructor (plan: QueryPlan)
      ensures Valid() && View() == Single(plan)
    {
      representative := plan;
      representativeDuration := plan.duration;
      executions := [ExecutionOf(plan)];
      minTimestamp := plan.timestamp;
      maxTimestamp := plan.timestamp;
    }

    method Push(plan: QueryPlan)
      requires Valid()
      modifies this
      ensures Valid() && View() == Combined(old(View()), Single(plan))
    {
      if plan.timestamp < minTimestamp {
        minTimestamp := plan.timestamp;
      }
      if plan.timestamp > maxTimestamp {
        maxTimestamp := plan.timestamp;
      }
      executions := executions + [ExecutionOf(plan)];
      if plan.duration >= representativeDuration {
        representativeDuration := plan.duration;
        representative := plan;
      }
    }

    method Merge(other: GroupAccumulator)
      requires Valid() && other.Valid() && other != this
      modifies this
      ensures Valid() && View() == Combined(old(View()), other.View())
    {
      if other.minTimestamp < minTimestamp {
        minTimestamp := other.minTimestamp;
      }
      if other.maxTimestamp > maxTimestamp {
        maxTimestamp := other.maxTimestamp;
      }
      executions := executions + other.executions;
      if other.representativeDuration >= representativeDuration {
        representativeDuration := other.representativeDuration;
        representative := other.representative;
      }
    }
  }

  type Accumulators = map<Text, GroupAccumulator>

  /** No two keys share an accumulator. */
  ghost predicate Owned(groups: Accumulators) {
    forall k, l :: k in groups && l in groups && groups[k] == groups[l] ==> k == l
  }

  ghost predicate AllValid(groups: Accumulators)
    reads groups.Values
  {
    forall k :: k in groups ==> groups[k].Valid()
  }

  /** The values the accumulators hold. */
  function Views(groups: Accumulators): GroupMap
    reads groups.Values
  {
    map k | k in groups :: groups[k].View()
  }

  class QueryGrouper {
    var groups: Accumulators
    const cache: FingerprintCache
    var last: Option<(Hash, Text)>
    const filter: Option<DateFilter>
    const maxPlans: nat
    var accepted: nat
    var truncated: bool
    const sql: Sql
    /** The texts this grouper may be given; on them the hash decides no answer. */
    ghost const texts: iset<Text>
    /** The plans accepted since the groups were last taken. */
    ghost var taken: seq<QueryPlan>

    ghost predicate Valid()
      reads this, cache, groups.Values
    {
      GroupsReady() && AnswersSound()
    }

    /** The groups are those of the plans taken. */
    ghost predicate GroupsReady()
      reads this`groups, this`taken, this`accepted, groups.Values
    {
      && Owned(groups) && AllValid(groups)
      && Views(groups) == GroupsOf(sql, taken)
      && accepted == |taken|
    }

    /** Memo and cache answer as normalization does. */
    ghost predicate AnswersSound()
      reads this`last, cache
    {
      && Faithful(sql, texts)
      && cache.Valid() && Sound(cache.entries, sql, texts)
      && MemoSound()
    }

    /** The one-entry memo answers as the cache would. */
    ghost predicate MemoSound()
      reads this`last
    {
      last.Some? ==> forall t :: t in texts && sql.hash(t) == last.value.0 ==> last.value.1 == FingerprintOf(sql, t)
    }

    function IsFull(): bool
      reads this
    {
      maxPlans > 0 && accepted >= maxPlans
    }

    /** The grouper as a sink. */
    ghost function View(): Intake
      reads this
    {
      Intake(filter, maxPlans, taken, truncated)
    }

    constructor (sql: Sql, cacheCap: nat, filter: Option<DateFilter>, maxPlans: nat, ghost texts: iset<Text>)
      requires Faithful(sql, texts)
      ensures Valid() && View() == Intake(filter, maxPlans, [], false)
      ensures fresh(cache) && groups == map[]
      ensures this.sql == sql && this.texts == texts && cache.cap == cacheCap
    {
      this.sql := sql;
      this.filter := filter;
      this.maxPlans := maxPlans;
      this.texts := texts;
      cache := new FingerprintCache(cacheCap);
      groups := map[];
      last := None;
      accepted := 0;
      truncated := false;
      taken := [];
    }

    /** Memo, then cache, then normalization: none of them shows in the answer. */
    method Fingerprint(text: Text) returns (f: Text)
      requires AnswersSound() && text in texts
      modifies this`last, cache
      ensures AnswersSound()
      ensures f == FingerprintOf(sql, text)
    {
      var hash := sql.hash(text);
      if last.Some? && last.value.0 == hash {
        return last.value.1;
      }
      f := FingerprintFor(cache, sql, text, texts);
      last := Some((hash, f));
    }

    /** Fold one plan into its group; false if it was dropped. */
    method Fold(plan: QueryPlan) returns (ok: bool)
      requires Valid() && plan.queryText in texts
      modifies this, cache, groups.Values
      ensures Valid()
      ensures View() == old(View()).Offer(plan)
      ensures ok <==> |taken| > |old(taken)|
      ensures fresh(groups.Values - old(groups.Values))
    {
      if filter.Some? && !filter.value.Matches(plan.timestamp) {
        return false;
      }
      if IsFull() {
        truncated := true;
        return false;
      }
      var key := Fingerprint(plan.queryText);
      if plan.database.Some? {
        key := GroupKey(key, plan.database.value);
      }
      Admit(key, plan);
      return true;
    }

    /** Fold a run of plans, as the read loop and the capture drain do. */
    method FoldAll(plans: seq<QueryPlan>)
      requires Valid() && forall i :: 0 <= i < |plans| ==> plans[i].queryText in texts
      modifies this, cache, groups.Values
      ensures Valid() && View() == old(View()).OfferAll(plans)
      ensures fresh(groups.Values - old(groups.Values))
    {
      ghost var goal := View().OfferAll(plans);
      for i := 0 to |plans|
        invariant Valid() && fresh(groups.Values - old(groups.Values))
        invariant View().OfferAll(plans[i..]) == goal
      {
        var _ := Fold(plans[i]);
        assert plans[i..][1..] == plans[i + 1..];
      }
    }

    method Admit(key: Text, plan: QueryPlan)
      requires GroupsReady() && key == KeyOf(sql, plan)
      modifies this`groups, this`accepted, this`taken, groups.Values
      ensures GroupsReady() && taken == old(taken) + [plan]
      ensures fresh(groups.Values - old(groups.Values))
    {
      GroupsAddOne(sql, taken, plan);
      ghost var all := taken + [plan];
      AddToGroup(key, plan);
      NoteTaken(all, accepted + 1);
    }

    method AddToGroup(key: Text, plan: QueryPlan)
      requires Owned(groups) && AllValid(groups)
      modifies this`groups, groups.Values
      ensures Owned(groups) && AllValid(groups)
      ensures Views(groups) == Added(old(Views(groups)), key, plan)
      ensures fresh(groups.Values - old(groups.Values))
    {
      if key in groups {
        groups[key].Push(plan);
      } else {
        var group := new GroupAccumulator(plan);
        groups := groups[key := group];
      }
    }

    /**
     * Take over every group of `other`, whose plans follow this grouper's in
     * parse order. The visiting order of the groups is left open.
     */
    method Merge(other: QueryGrouper)
      requires Valid() && other.Valid() && other != this
      requires other.sql == sql && groups.Values !! other.groups.Values
      modifies this`groups, this`accepted, this`truncated, this`last, this`taken
      modifies groups.Values, other.groups.Values
      ensures Valid()
      ensures taken == old(taken) + other.taken && truncated == (old(truncated) || other.truncated)
    {
      MergeTaken(other);
      truncated, last := truncated || other.truncated, None;
    }

    method MergeTaken(other: QueryGrouper)
      requires GroupsReady() && other.GroupsReady() && other != this
      requires other.sql == sql && groups.Values !! other.groups.Values
      modifies this`groups, this`accepted, this`taken, groups.Values, other.groups.Values
      ensures GroupsReady() && taken == old(taken) + other.taken
    {
      ghost var all := taken + other.taken;
      MergeViews(other);
      NoteTaken(all, accepted + other.accepted);
    }

    /** The groups stay; what they are the groups of is brought up to date. */
    method NoteTaken(ghost all: seq<QueryPlan>, count: nat)
      requires Owned(groups) && AllValid(groups) && Views(groups) == GroupsOf(sql, all) && count == |all|
      modifies this`accepted, this`taken
      ensures GroupsReady() && taken == all
    {
      accepted, taken := count, all;
    }

    /** The groups become those of both plan sequences in a row. */
    method MergeViews(other: QueryGrouper)
      requires GroupsReady() && other.GroupsReady() && other != this
      requires other.sql == sql && groups.Values !! other.groups.Values
      modifies this`groups, groups.Values, other.groups.Values
      ensures Owned(groups) && AllValid(groups)
      ensures Views(groups) == GroupsOf(sql, taken + other.taken)
    {
      GroupsAppend(sql, taken, other.taken);
      MergeGroups(other.groups);
    }

    method MergeGroups(others: Accumulators)
      requires Owned(groups) && AllValid(groups) && Owned(others) && AllValid(others)
      requires groups.Values !! others.Values
      modifies this`groups, groups.Values, others.Values
      ensures Owned(groups) && AllValid(groups)
      ensures Views(groups) == Merged(old(Views(groups)), old(Views(others)))
    {
      ghost var mine, theirs := Views(groups), Views(others);
      var rest := others.Keys;
      MergedPartEnds(mine, theirs);
      while rest != {}
        invariant rest <= others.Keys
        invariant Owned(groups) && AllValid(groups)
        invariant groups.Values <= old(groups.Values) + others.Values
        invariant Unmerged(others, theirs, rest, groups.Values)
        invariant Views(groups) == MergedPart(mine, theirs, rest)
        decreases rest
      {
        var key :| key in rest;
        MergedPartStep(mine, theirs, rest, key);
        UnmergedStep(others, theirs, rest, key, groups.Values);
        Absorb(key, others[key]);
        rest := rest - {key};
      }
    }

    /** Merge one group in, or move it over if its key is new. */
    method Absorb(key: Text, group: GroupAccumulator)
      requires Owned(groups) && AllValid(groups) && group.Valid() && group !in groups.Values
      modifies this`groups, groups.Values
      ensures Owned(groups) && AllValid(groups)
      ensures Views(groups) == WithMerged(old(Views(groups)), key, old(group.View()))
      ensures groups.Values <= old(groups.Values) + {group}
    {
      if key in groups {
        groups[key].Merge(group);
      } else {
        groups := groups[key := group];
      }
    }

    /** Hand over the groups and start again; the fingerprint cache stays warm. */
    method TakeGroups() returns (r: GroupMap)
      requires Valid()
      modifies this
      ensures Valid()
      ensures r == GroupsOf(sql, old(taken))
      ensures View() == Intake(filter, maxPlans, [], false)
      ensures cache.entries == old(cache.entries) && groups == map[]
    {
      r := Views(groups);
      accepted := 0;
      truncated := false;
      last := None;
      groups := map[];
      taken := [];
    }

    /** The read loop stopped with input unread. */
    method MarkTruncated()
      requires Valid()
      modifies this`truncated
      ensures Valid() && View() == old(View()).(dropped := true)
    {
      truncated := true;
    }
  }

  /** The groups of `rest` are untouched and not yet owned elsewhere. */
  ghost predicate Unmerged(others: Accumulators, views: GroupMap, rest: set<Text>, owned: set<GroupAccumulator>)
    reads others.Values
  {
    forall k :: k in rest ==>
      k in others && k in views && others[k] !in owned && others[k].Valid() && others[k].View() == views[k]
  }

  lemma UnmergedStep(others: Accumulators, views: GroupMap, rest: set<Text>, key: Text, owned: set<GroupAccumulator>)
    requires Owned(others) && key in rest && Unmerged(others, views, rest, owned)
    ensures Unmerged(others, views, rest - {key}, owned + {others[key]})
  {}

  function WithMerged(m: GroupMap, key: Text, group: Group): GroupMap {
    m[key := if key in m then Combined(m[key], group) else group]
  }

  /** `n` merged into `m` but for the keys of `rest`. */
  function MergedPart(m: GroupMap, n: GroupMap, rest: set<Text>): GroupMap {
    Merged(m, n - rest)
  }

  lemma MergedPartEnds(m: GroupMap, n: GroupMap)
    ensures MergedPart(m, n, n.Keys) == m
    ensures MergedPart(m, n, {}) == Merged(m, n)
  {
    assert n - n.Keys == map[] && n - {} == n;
    MergedIdentity(m);
  }

  lemma MergedPartStep(m: GroupMap, n: GroupMap, rest: set<Text>, key: Text)
    requires rest <= n.Keys && key in rest
    ensures MergedPart(m, n, rest - {key}) == WithMerged(MergedPart(m, n, rest), key, n[key])
  {
    var l, r := MergedPart(m, n, rest - {key}), WithMerged(MergedPart(m, n, rest), key, n[key]);
    assert l.Keys == r.Keys;
  }
}
