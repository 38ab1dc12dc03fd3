/**
 * Grouping executions by fingerprint and database: what the groups of a
 * sequence of plans are, and how they combine.
 */
module Groups {
  import opened Common
  import opened Lines
  import opened EntryState
  import opened Fingerprints

  datatype Execution = Execution(timestamp: int, duration: int)

  /** What a group keeps: the slowest execution's plan, and every execution in order. */
  datatype Group = Group(
    representative: QueryPlan,
    executions: seq<Execution>,
    minTimestamp: int,
    maxTimestamp: int
  )

  datatype DateFilter = DateFilter(since: Option<int>, until: Option<int>) {
    predicate Matches(timestamp: int) {
      && (since.Some? ==> since.value <= timestamp)
      && (until.Some? ==> timestamp <= until.value)
    }
  }

  const UNIT_SEPARATOR: nat := 0x1f

  function GroupKey(fingerprint: Text, database: Text): Text {
    fingerprint + [UNIT_SEPARATOR] + database
  }

  function KeyOf(sql: Sql, plan: QueryPlan): Text {
    var fingerprint := FingerprintOf(sql, plan.queryText);
    match plan.database
    case None => fingerprint
    case Some(database) => GroupKey(fingerprint, database)
  }

  /** Two databases never share a group, nor do two fingerprints. */
  lemma GroupKeyInjective(f: Text, d: Text, g: Text, e: Text)
    requires UNIT_SEPARATOR !in f && UNIT_SEPARATOR !in g
    ensures GroupKey(f, d) != g
    ensures GroupKey(f, d) == GroupKey(g, e) ==> f == g && d == e
  {
    var s := GroupKey(f, d);
    SeparatorAt(f, d);
    assert s[|f|] == UNIT_SEPARATOR;
    if s == GroupKey(g, e) {
      SeparatorAt(g, e);
      assert s[..|f|] == f && s[..|g|] == g && s[|f| + 1..] == d && s[|g| + 1..] == e;
    }
  }

  lemma SeparatorAt(f: Text, d: Text)
    requires UNIT_SEPARATOR !in f
    ensures FirstLineLen(GroupKey(f, d), UNIT_SEPARATOR) == |f| + 1
  {
    FirstLineLenUnique(GroupKey(f, d), UNIT_SEPARATOR, |f| + 1);
  }

  function ExecutionOf(plan: QueryPlan): Execution {
    Execution(plan.timestamp, plan.duration)
  }

  function Min2(a: int, b: int): int { if b < a then b else a }

  function Max2(a: int, b: int): int { if b > a then b else a }

  // ---- One group ----

  function Single(plan: QueryPlan): Group {
    Group(plan, [ExecutionOf(plan)], plan.timestamp, plan.timestamp)
  }

  /** `a` precedes `b`; on a tie the later execution represents. */
  function Combined(a: Group, b: Group): Group {
    Group(
      if b.representative.duration >= a.representative.duration then b.representative else a.representative,
      a.executions + b.executions,
      Min2(a.minTimestamp, b.minTimestamp),
      Max2(a.maxTimestamp, b.maxTimestamp))
  }

  lemma CombinedAssociative(a: Group, b: Group, c: Group)
    ensures Combined(Combined(a, b), c) == Combined(a, Combined(b, c))
  {
    Assoc(a.executions, b.executions, c.executions);
  }

  /** The group of a nonempty sequence of plans, in one pass. */
  function Summary(plans: seq<QueryPlan>): Group
    requires plans != []
  {
    if |plans| == 1 then Single(plans[0])
    else Combined(Summary(plans[..|plans| - 1]), Single(plans[|plans| - 1]))
  }

  lemma {:induction false} SummaryAppend(a: seq<QueryPlan>, b: seq<QueryPlan>)
    requires a != [] && b != []
    ensures Summary(a + b) == Combined(Summary(a), Summary(b))
    decreases |b|
  {
    var init, last := b[..|b| - 1], b[|b| - 1];
    assert (a + b)[..|a + b| - 1] == a + init;
    if |b| == 1 {
      assert a + init == a;
    } else {
      SummaryAppend(a, init);
      CombinedAssociative(Summary(a), Summary(init), Single(last));
    }
  }

  function Executions(plans: seq<QueryPlan>): seq<Execution> {
    if plans == [] then [] else Executions(plans[..|plans| - 1]) + [ExecutionOf(plans[|plans| - 1])]
  }

  /** `r` is where the last of the slowest executions stands. */
  ghost predicate LastSlowest(plans: seq<QueryPlan>, r: nat) {
    && r < |plans|
    && (forall i :: 0 <= i < |plans| ==> plans[i].duration <= plans[r].duration)
    && (forall i :: r < i < |plans| ==> plans[i].duration < plans[r].duration)
  }

  ghost predicate TimeRange(plans: seq<QueryPlan>, lo: int, hi: int) {
    && (forall i :: 0 <= i < |plans| ==> lo <= plans[i].timestamp <= hi)
    && (exists i :: 0 <= i < |plans| && plans[i].timestamp == lo)
    && (exists i :: 0 <= i < |plans| && plans[i].timestamp == hi)
  }

  /** What the group of a sequence is, without running over it. */
  lemma {:induction false} SummaryMeaning(plans: seq<QueryPlan>) returns (r: nat)
    requires plans != []
    ensures LastSlowest(plans, r) && Summary(plans).representative == plans[r]
    ensures Summary(plans).executions == Executions(plans)
    ensures TimeRange(plans, Summary(plans).minTimestamp, Summary(plans).maxTimestamp)
  {
    var n := |plans| - 1;
    var init := plans[..n];
    if n == 0 {
      r := 0;
      assert Executions(init) == [];
      assert plans[0].timestamp == Summary(plans).minTimestamp;
    } else {
      r := SummaryMeaning(init);
      var g := Summary(init);
      r := LastSlowestStep(plans, n, r);
      TimeRangeStep(plans, n, g.minTimestamp, g.maxTimestamp);
    }
  }

  lemma LastSlowestStep(plans: seq<QueryPlan>, n: nat, before: nat) returns (r: nat)
    requires n == |plans| - 1 && LastSlowest(plans[..n], before)
    ensures LastSlowest(plans, r)
    ensures r == if plans[n].duration >= plans[before].duration then n else before
  {
    assert forall i :: 0 <= i < n ==> plans[i] == plans[..n][i];
    r := if plans[n].duration >= plans[before].duration then n else before;
  }

  lemma TimeRangeStep(plans: seq<QueryPlan>, n: nat, lo: int, hi: int)
    requires n == |plans| - 1 && TimeRange(plans[..n], lo, hi)
    ensures TimeRange(plans, Min2(lo, plans[n].timestamp), Max2(hi, plans[n].timestamp))
  {
    var init := plans[..n];
    var i :| 0 <= i < n && init[i].timestamp == lo;
    var j :| 0 <= j < n && init[j].timestamp == hi;
    assert plans[i].timestamp == lo && plans[j].timestamp == hi;
    assert forall k :: 0 <= k < n ==> plans[k] == init[k];
    assert plans[n].timestamp == plans[|plans| - 1].timestamp;
  }

  /** There is one last slowest execution. */
  lemma LastSlowestUnique(plans: seq<QueryPlan>, r: nat, q: nat)
    requires LastSlowest(plans, r) && LastSlowest(plans, q)
    ensures r == q
  {
    assert plans[r].duration == plans[q].duration;
  }

  // ---- All groups ----

  type GroupMap = map<Text, Group>

  /** The plans of one key, in order. */
  function Select(sql: Sql, plans: seq<QueryPlan>, key: Text): seq<QueryPlan> {
    if plans == [] then []
    else
      var init, last := plans[..|plans| - 1], plans[|plans| - 1];
      Select(sql, init, key) + (if KeyOf(sql, last) == key then [last] else [])
  }

  function Keys(sql: Sql, plans: seq<QueryPlan>): set<Text> {
    if plans == [] then {} else Keys(sql, plans[..|plans| - 1]) + {KeyOf(sql, plans[|plans| - 1])}
  }

  lemma {:induction false} SelectNonempty(sql: Sql, plans: seq<QueryPlan>, key: Text)
    ensures key in Keys(sql, plans) <==> Select(sql, plans, key) != []
  {
    if plans != [] {
      SelectNonempty(sql, plans[..|plans| - 1], key);
    }
  }

  /** One group per key, each the summary of its plans. */
  function GroupsOf(sql: Sql, plans: seq<QueryPlan>): GroupMap {
    map key | key in Keys(sql, plans) ::
      (SelectNonempty(sql, plans, key); Summary(Select(sql, plans, key)))
  }

  function Merged(m: GroupMap, n: GroupMap): GroupMap {
    map key | key in m.Keys + n.Keys ::
      if key !in n then m[key] else if key !in m then n[key] else Combined(m[key], n[key])
  }

  lemma MergedIdentity(m: GroupMap)
    ensures Merged(m, map[]) == m && Merged(map[], m) == m
  {}

  /** Merging is associative on any groups. */
  lemma MergedAssociative(a: GroupMap, b: GroupMap, c: GroupMap)
    ensures Merged(Merged(a, b), c) == Merged(a, Merged(b, c))
  {
    var l, r := Merged(Merged(a, b), c), Merged(a, Merged(b, c));
    assert l.Keys == r.Keys;
    forall key | key in l ensures l[key] == r[key] {
      if key in a && key in b && key in c {
        CombinedAssociative(a[key], b[key], c[key]);
      }
    }
  }

  lemma {:induction false} SelectAppend(sql: Sql, a: seq<QueryPlan>, b: seq<QueryPlan>, key: Text)
    ensures Select(sql, a + b, key) == Select(sql, a, key) + Select(sql, b, key)
    decreases |b|
  {
    if b == [] {
      assert a + b == a;
    } else {
      var init, last := b[..|b| - 1], b[|b| - 1];
      assert (a + b)[..|a + b| - 1] == a + init;
      SelectAppend(sql, a, init, key);
      Assoc(Select(sql, a, key), Select(sql, init, key), if KeyOf(sql, last) == key then [last] else []);
    }
  }

  lemma {:induction false} KeysAppend(sql: Sql, a: seq<QueryPlan>, b: seq<QueryPlan>)
    ensures Keys(sql, a + b) == Keys(sql, a) + Keys(sql, b)
    decreases |b|
  {
    if b == [] {
      assert a + b == a;
    } else {
      assert (a + b)[..|a + b| - 1] == a + b[..|b| - 1];
      KeysAppend(sql, a, b[..|b| - 1]);
    }
  }

  /** Grouping turns concatenation into merging. */
  lemma GroupsAppend(sql: Sql, a: seq<QueryPlan>, b: seq<QueryPlan>)
    ensures GroupsOf(sql, a + b) == Merged(GroupsOf(sql, a), GroupsOf(sql, b))
  {
    KeysAppend(sql, a, b);
    var l, r := GroupsOf(sql, a + b), Merged(GroupsOf(sql, a), GroupsOf(sql, b));
    forall key | key in l ensures l[key] == r[key] {
      GroupAppendAt(sql, a, b, key);
    }
  }

  lemma GroupAppendAt(sql: Sql, a: seq<QueryPlan>, b: seq<QueryPlan>, key: Text)
    requires key in GroupsOf(sql, a + b) && key in Merged(GroupsOf(sql, a), GroupsOf(sql, b))
    ensures GroupsOf(sql, a + b)[key] == Merged(GroupsOf(sql, a), GroupsOf(sql, b))[key]
  {
    SelectAppend(sql, a, b, key);
    SelectNonempty(sql, a, key);
    SelectNonempty(sql, b, key);
    var s, t := Select(sql, a, key), Select(sql, b, key);
    if s == [] {
      assert s + t == t;
    } else if t == [] {
      assert s + t == s;
    } else {
      SummaryAppend(s, t);
    }
  }

  /** Any way of combining adjacent per-file results, empty ones included. */
  datatype Reduction = Nothing | File(plans: seq<QueryPlan>) | Adjacent(left: Reduction, right: Reduction)
  {
    function Plans(): seq<QueryPlan> {
      match this
      case Nothing => []
      case File(plans) => plans
      case Adjacent(left, right) => left.Plans() + right.Plans()
    }

    function Value(sql: Sql): GroupMap {
      match this
      case Nothing => map[]
      case File(plans) => GroupsOf(sql, plans)
      case Adjacent(left, right) => Merged(left.Value(sql), right.Value(sql))
    }
  }

  /** However adjacent results are parenthesised, the outcome is one left-to-right pass. */
  lemma {:induction false} ReductionIsOnePass(sql: Sql, r: Reduction)
    ensures r.Value(sql) == GroupsOf(sql, r.Plans())
  {
    match r
    case Nothing =>
    case File(plans) =>
    case Adjacent(left, right) =>
      ReductionIsOnePass(sql, left);
      ReductionIsOnePass(sql, right);
      GroupsAppend(sql, left.Plans(), right.Plans());
  }

  /** One plan more. */
  function Added(m: GroupMap, key: Text, plan: QueryPlan): GroupMap {
    m[key := if key in m then Combined(m[key], Single(plan)) else Single(plan)]
  }

  lemma GroupsOfOne(sql: Sql, plan: QueryPlan)
    ensures GroupsOf(sql, [plan]) == map[KeyOf(sql, plan) := Single(plan)]
  {
    var one := [plan];
    var key := KeyOf(sql, plan);
    assert one[..|one| - 1] == [];
    assert Keys(sql, one[..0]) == {} && Select(sql, one[..0], key) == [];
    assert Keys(sql, one) == {key} && Select(sql, one, key) == one;
  }

  lemma GroupsAddOne(sql: Sql, plans: seq<QueryPlan>, plan: QueryPlan)
    ensures GroupsOf(sql, plans + [plan]) == Added(GroupsOf(sql, plans), KeyOf(sql, plan), plan)
  {
    GroupsAppend(sql, plans, [plan]);
    GroupsOfOne(sql, plan);
    MergedOne(GroupsOf(sql, plans), KeyOf(sql, plan), plan);
  }

  lemma MergedOne(m: GroupMap, key: Text, plan: QueryPlan)
    ensures Merged(m, map[key := Single(plan)]) == Added(m, key, plan)
  {
    var one := map[key := Single(plan)];
    assert one.Keys == {key};
    assert Merged(m, one).Keys == Added(m, key, plan).Keys;
  }

  // ---- Which plans share a group ----

  /** The fingerprints of two texts agree: what normalization answers, or a hash in its place. */
  predicate AnswersAlike(sql: Sql, a: Text, b: Text) {
    AnswerOf(sql, a) == AnswerOf(sql, b)
  }

  function AnswerOf(sql: Sql, text: Text): Text {
    if sql.normalize(text).Some? then sql.normalize(text).value else sql.hex(sql.hash(text))
  }

  /** One database, or none in both, and one fingerprint. */
  predicate Together(sql: Sql, p: QueryPlan, q: QueryPlan) {
    p.database == q.database && AnswersAlike(sql, p.queryText, q.queryText)
  }

  /** Fingerprints hold no separator; those in use are numbers in base 16. */
  ghost predicate NoSeparators(sql: Sql, plans: seq<QueryPlan>) {
    forall i :: 0 <= i < |plans| ==> UNIT_SEPARATOR !in AnswerOf(sql, plans[i].queryText)
  }

  /** The plans that belong together with `p`, in order. */
  function Companions(sql: Sql, plans: seq<QueryPlan>, p: QueryPlan): seq<QueryPlan>
    decreases |plans|
  {
    if plans == [] then []
    else (if Together(sql, plans[0], p) then [plans[0]] else []) + Companions(sql, plans[1..], p)
  }

  lemma KeysTogether(sql: Sql, p: QueryPlan, q: QueryPlan)
    requires UNIT_SEPARATOR !in AnswerOf(sql, p.queryText) && UNIT_SEPARATOR !in AnswerOf(sql, q.queryText)
    ensures KeyOf(sql, p) == KeyOf(sql, q) <==> Together(sql, p, q)
  {
    var f, g := FingerprintOf(sql, p.queryText), FingerprintOf(sql, q.queryText);
    if p.database.Some? {
      GroupKeyInjective(f, p.database.value, g, if q.database.Some? then q.database.value else []);
    }
    if q.database.Some? {
      GroupKeyInjective(g, q.database.value, f, if p.database.Some? then p.database.value else []);
    }
  }

  lemma SelectOne(sql: Sql, plan: QueryPlan, key: Text)
    ensures Select(sql, [plan], key) == if KeyOf(sql, plan) == key then [plan] else []
  {
    var one := [plan];
    assert one[..|one| - 1] == [];
  }

  lemma SelectCons(sql: Sql, plans: seq<QueryPlan>, key: Text)
    requires plans != []
    ensures Select(sql, plans, key) == (if KeyOf(sql, plans[0]) == key then [plans[0]] else []) + Select(sql, plans[1..], key)
  {
    var one, rest := [plans[0]], plans[1..];
    assert plans == one + rest;
    SelectOne(sql, plans[0], key);
    SelectAppend(sql, one, rest, key);
  }

  lemma {:induction false} SelectsCompanions(sql: Sql, plans: seq<QueryPlan>, p: QueryPlan)
    requires NoSeparators(sql, plans) && UNIT_SEPARATOR !in AnswerOf(sql, p.queryText)
    ensures Select(sql, plans, KeyOf(sql, p)) == Companions(sql, plans, p)
    decreases |plans|
  {
    if plans != [] {
      SelectCons(sql, plans, KeyOf(sql, p));
      KeysTogether(sql, plans[0], p);
      forall i | 0 <= i < |plans[1..]| ensures UNIT_SEPARATOR !in AnswerOf(sql, plans[1..][i].queryText) {
        assert plans[1..][i] == plans[i + 1];
      }
      SelectsCompanions(sql, plans[1..], p);
    }
  }

  lemma {:induction false} KeysAreThose(sql: Sql, plans: seq<QueryPlan>, key: Text)
    ensures key in Keys(sql, plans) <==> exists i :: 0 <= i < |plans| && KeyOf(sql, plans[i]) == key
    decreases |plans|
  {
    if plans != [] {
      var n := |plans| - 1;
      KeysAreThose(sql, plans[..n], key);
      assert forall i :: 0 <= i < n ==> plans[..n][i] == plans[i];
    }
  }

  /**
   * Two plans share a group exactly if they are of one database, or both of
   * none, and their texts have one fingerprint; a group is what its plans, in
   * order, amount to; and there are no other groups.
   */
  lemma GroupsAreClasses(sql: Sql, plans: seq<QueryPlan>) returns (keys: seq<Text>)
    requires NoSeparators(sql, plans)
    ensures |keys| == |plans|
    ensures forall i, j :: 0 <= i < |plans| && 0 <= j < |plans| ==>
              (keys[i] == keys[j] <==> Together(sql, plans[i], plans[j]))
    ensures forall i :: 0 <= i < |plans| ==>
              Companions(sql, plans, plans[i]) != []
              && keys[i] in GroupsOf(sql, plans)
              && GroupsOf(sql, plans)[keys[i]] == Summary(Companions(sql, plans, plans[i]))
    ensures forall key :: key in GroupsOf(sql, plans) ==> key in keys
  {
    keys := seq(|plans|, i requires 0 <= i < |plans| => KeyOf(sql, plans[i]));
    forall i, j | 0 <= i < |plans| && 0 <= j < |plans| ensures keys[i] == keys[j] <==> Together(sql, plans[i], plans[j]) {
      KeysTogether(sql, plans[i], plans[j]);
    }
    forall i | 0 <= i < |plans|
      ensures Companions(sql, plans, plans[i]) != [] && keys[i] in GroupsOf(sql, plans)
      ensures GroupsOf(sql, plans)[keys[i]] == Summary(Companions(sql, plans, plans[i]))
    {
      KeysAreThose(sql, plans, keys[i]);
      SelectNonempty(sql, plans, keys[i]);
      SelectsCompanions(sql, plans, plans[i]);
    }
    forall key | key in GroupsOf(sql, plans) ensures key in keys {
      KeysAreThose(sql, plans, key);
      var i :| 0 <= i < |plans| && KeyOf(sql, plans[i]) == key;
      assert keys[i] == key;
    }
  }

  // ---- What a sink lets in ----

  /** A sink's settings and what it has taken so far. */
  datatype Intake = Intake(filter: Option<DateFilter>, maxPlans: nat, taken: seq<QueryPlan>, dropped: bool) {
    predicate Passes(plan: QueryPlan) {
      filter.Some? ==> filter.value.Matches(plan.timestamp)
    }

    /** `0` is no cap. */
    predicate Full() {
      maxPlans > 0 && |taken| >= maxPlans
    }

    function Offer(plan: QueryPlan): Intake {
      if !Passes(plan) then this
      else if Full() then this.(dropped := true)
      else this.(taken := taken + [plan])
    }

    function OfferAll(plans: seq<QueryPlan>): Intake
      decreases |plans|
    {
      if plans == [] then this else Offer(plans[0]).OfferAll(plans[1..])
    }

    function Passing(plans: seq<QueryPlan>): seq<QueryPlan>
      decreases |plans|
    {
      if plans == [] then []
      else (if Passes(plans[0]) then [plans[0]] else []) + Passing(plans[1..])
    }
  }

  lemma {:induction false} OfferAllAppend(k: Intake, a: seq<QueryPlan>, b: seq<QueryPlan>)
    ensures k.OfferAll(a + b) == k.OfferAll(a).OfferAll(b)
    decreases |a|
  {
    if a == [] {
      assert a + b == b;
    } else {
      HeadTail(a, b);
      OfferAllAppend(k.Offer(a[0]), a[1..], b);
    }
  }

  lemma {:induction false} FullTakesNoMore(k: Intake, plans: seq<QueryPlan>)
    requires k.Full()
    ensures k.OfferAll(plans).taken == k.taken
    ensures k.OfferAll(plans).dropped <==> k.dropped || k.Passing(plans) != []
    decreases |plans|
  {
    if plans != [] {
      FullTakesNoMore(k.Offer(plans[0]), plans[1..]);
    }
  }

  /** A sink takes the first plans that pass its filter, up to its cap, and reports exactly when more came. */
  lemma {:induction false} TakesFirstPassing(k: Intake, plans: seq<QueryPlan>)
    requires k.maxPlans == 0 || |k.taken| <= k.maxPlans
    ensures var ps := k.Passing(plans);
            var room := if k.maxPlans == 0 then |ps| else Min(|ps|, k.maxPlans - |k.taken|);
            && k.OfferAll(plans).taken == k.taken + ps[..room]
            && (k.OfferAll(plans).dropped <==> k.dropped || room < |ps|)
    decreases |plans|
  {
    if plans != [] {
      var ps, rest := k.Passing(plans), k.Passing(plans[1..]);
      if k.Full() {
        FullTakesNoMore(k, plans);
        assert ps[..0] == [];
      } else {
        var next := k.Offer(plans[0]);
        TakesFirstPassing(next, plans[1..]);
        PassingSame(k, next, plans[1..]);
        if k.Passes(plans[0]) {
          var room := if k.maxPlans == 0 then |rest| else Min(|rest|, k.maxPlans - |next.taken|);
          assert ps == [plans[0]] + rest;
          assert ps[..room + 1] == [plans[0]] + rest[..room];
          Assoc(k.taken, [plans[0]], rest[..room]);
        } else {
          assert ps == rest;
        }
      }
    }
  }

  lemma {:induction false} PassingSame(k: Intake, m: Intake, plans: seq<QueryPlan>)
    requires k.filter == m.filter
    ensures k.Passing(plans) == m.Passing(plans)
    decreases |plans|
  {
    if plans != [] {
      PassingSame(k, m, plans[1..]);
    }
  }

  /** Both bounds belong to the range; a bound that is missing is none. */
  predicate Between(timestamp: int, since: Option<int>, until: Option<int>) {
    !(since.Some? && timestamp < since.value) && !(until.Some? && timestamp > until.value)
  }

  /** The plans of a range, in order. */
  function InRange(plans: seq<QueryPlan>, since: Option<int>, until: Option<int>): seq<QueryPlan>
    decreases |plans|
  {
    if plans == [] then []
    else (if Between(plans[0].timestamp, since, until) then [plans[0]] else []) + InRange(plans[1..], since, until)
  }

  /** A sink with a date filter takes the plans of its range, up to its cap; without one, all plans. */
  lemma TakesFirstInRange(k: Intake, plans: seq<QueryPlan>, since: Option<int>, until: Option<int>)
    requires k.filter == Some(DateFilter(since, until)) || (k.filter == None && since == None && until == None)
    requires k.taken == [] && !k.dropped
    ensures var ps := InRange(plans, since, until);
            var room := if k.maxPlans == 0 then |ps| else Min(|ps|, k.maxPlans);
            k.OfferAll(plans).taken == ps[..room] && (k.OfferAll(plans).dropped <==> room < |ps|)
  {
    TakesFirstPassing(k, plans);
    PassingIsInRange(k, plans, since, until);
  }

  lemma {:induction false} PassingIsInRange(k: Intake, plans: seq<QueryPlan>, since: Option<int>, until: Option<int>)
    requires k.filter == Some(DateFilter(since, until)) || (k.filter == None && since == None && until == None)
    ensures k.Passing(plans) == InRange(plans, since, until)
    decreases |plans|
  {
    if plans != [] {
      PassingIsInRange(k, plans[1..], since, until);
    }
  }
}
