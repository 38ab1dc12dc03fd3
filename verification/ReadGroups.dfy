/** The read loop with a grouper as its sink: from bytes to groups. */
module ReadGroups {
  import opened Common
  import opened EntryState
  import opened LogParser
  import opened LogReader
  import opened Groups
  import opened Grouping

  /** The grouper may be given these plans. */
  ghost predicate Known(plans: seq<QueryPlan>, texts: iset<Text>) {
    forall i :: 0 <= i < |plans| ==> plans[i].queryText in texts
  }

  lemma KnownParts(a: seq<QueryPlan>, b: seq<QueryPlan>, texts: iset<Text>)
    requires Known(a + b, texts)
    ensures Known(a, texts) && Known(b, texts)
  {
    forall i | 0 <= i < |a| ensures a[i].queryText in texts {
      assert a[i] == (a + b)[i];
    }
    forall i | 0 <= i < |b| ensures b[i].queryText in texts {
      assert b[i] == (a + b)[|a| + i];
    }
  }

  /** With what is still to come, of which `open` is last, the grouper takes what it was to take. */
  ghost predicate Ready(still: seq<QueryPlan>, open: seq<QueryPlan>, k: Intake, goal: Intake, texts: iset<Text>) {
    k.OfferAll(still) == goal && Known(still, texts) && (k.Full() ==> open == [])
  }

  lemma ReadyStep(plans: seq<QueryPlan>, still: seq<QueryPlan>, before: seq<QueryPlan>, open: seq<QueryPlan>, k: Intake, goal: Intake, texts: iset<Text>)
    requires Ready(plans + still, before, k, goal, texts) && !k.Full()
    requires |plans| <= 1 && (plans != [] ==> open == [])
    ensures Known(plans, texts) && k.OfferAll(plans).dropped == k.dropped
    ensures Ready(still, open, k.OfferAll(plans), goal, texts)
  {
    OfferAllAppend(k, plans, still);
    KnownParts(plans, still, texts);
    if plans != [] {
      assert plans[1..] == [];
    }
  }

  /** What the open entry adds at the end. */
  lemma ReadyEnd(still: seq<QueryPlan>, open: seq<QueryPlan>, k: Intake, goal: Intake, texts: iset<Text>)
    requires Ready(still, open, k, goal, texts) && |open| <= 1 && (k.Full() || still == open)
    ensures Known(open, texts)
    ensures k.OfferAll(open).taken == goal.taken && k.OfferAll(open).dropped == k.dropped
    ensures k.Full() ==> open == []
    ensures goal.dropped ==> k.dropped || still != open
  {
    if open != [] {
      assert open[1..] == [];
    }
    if k.Full() {
      FullTakesNoMore(k, still);
    }
  }

  /** Read a line, if there is one: the plan it completes, if any, comes first of what was still to come. */
  method NextPlans(reader: BufReader, machine: EntryMachine, env: Env, lim: Limits)
    returns (consumed: nat, plans: seq<QueryPlan>)
    requires reader.Valid() && lim.maxLine > 0
    modifies reader, machine
    ensures reader.Valid() && reader.pos == old(reader.pos) + consumed
    ensures consumed == 0 <==> old(reader.Rest()) == []
    ensures consumed == 0 ==> reader.Rest() == []
    ensures |plans| <= 1 && (plans != [] ==> Finish(env, machine.View()) == [])
    ensures old(Pending(env, lim, machine.View(), reader.Rest()))
         == plans + Pending(env, lim, machine.View(), reader.Rest())
  {
    ghost var rest, before := reader.Rest(), machine.View();
    consumed, plans := ReadPlans(reader, machine, env, lim);
    if consumed > 0 {
      PendingStep(env, lim, before, rest);
      if plans != [] {
        DeliverySettles(env, lim, before, CutLine(rest[..consumed], lim.maxLine));
      }
    } else {
      assert plans + Pending(env, lim, before, rest) == Pending(env, lim, before, rest);
    }
  }

  /** Fold the plan that comes next. */
  method FoldNext(grouper: QueryGrouper, plans: seq<QueryPlan>, ghost still: seq<QueryPlan>, ghost before: seq<QueryPlan>, ghost open: seq<QueryPlan>, ghost goal: Intake)
    requires grouper.Valid() && !grouper.IsFull() && Ready(plans + still, before, grouper.View(), goal, grouper.texts)
    requires |plans| <= 1 && (plans != [] ==> open == [])
    modifies grouper, grouper.cache, grouper.groups.Values
    ensures grouper.Valid() && fresh(grouper.groups.Values - old(grouper.groups.Values))
    ensures Ready(still, open, grouper.View(), goal, grouper.texts)
    ensures grouper.truncated == old(grouper.truncated)
  {
    ReadyStep(plans, still, before, open, grouper.View(), goal, grouper.texts);
    grouper.FoldAll(plans);
  }

  /** One iteration: the plan a line completes is folded. */
  method ReadAndFold(reader: BufReader, machine: EntryMachine, env: Env, lim: Limits, grouper: QueryGrouper, ghost goal: Intake)
    returns (consumed: nat)
    requires reader.Valid() && lim.maxLine > 0 && grouper.Valid() && !grouper.IsFull()
    requires Ready(Pending(env, lim, machine.View(), reader.Rest()), Finish(env, machine.View()), grouper.View(), goal, grouper.texts)
    modifies reader, machine, grouper, grouper.cache, grouper.groups.Values
    ensures reader.Valid() && grouper.Valid() && fresh(grouper.groups.Values - old(grouper.groups.Values))
    ensures reader.pos == old(reader.pos) + consumed && (consumed == 0 ==> reader.Rest() == [])
    ensures Ready(Pending(env, lim, machine.View(), reader.Rest()), Finish(env, machine.View()), grouper.View(), goal, grouper.texts)
    ensures grouper.truncated == old(grouper.truncated)
  {
    ghost var before := Finish(env, machine.View());
    var plans;
    consumed, plans := NextPlans(reader, machine, env, lim);
    assert grouper.Valid() && grouper.View() == old(grouper.View());
    ghost var still, open := Pending(env, lim, machine.View(), reader.Rest()), Finish(env, machine.View());
    FoldNext(grouper, plans, still, before, open, goal);
  }

  /** Read on until the grouper is full or the input ends. */
  method ReadUntilFull(reader: BufReader, machine: EntryMachine, env: Env, lim: Limits, grouper: QueryGrouper, ghost goal: Intake)
    requires reader.Valid() && lim.maxLine > 0 && grouper.Valid()
    requires Ready(Pending(env, lim, machine.View(), reader.Rest()), Finish(env, machine.View()), grouper.View(), goal, grouper.texts)
    modifies reader, machine, grouper, grouper.cache, grouper.groups.Values
    ensures reader.Valid() && grouper.Valid() && fresh(grouper.groups.Values - old(grouper.groups.Values))
    ensures Ready(Pending(env, lim, machine.View(), reader.Rest()), Finish(env, machine.View()), grouper.View(), goal, grouper.texts)
    ensures grouper.truncated == old(grouper.truncated)
    ensures grouper.IsFull() || reader.Rest() == []
  {
    while !grouper.IsFull()
      invariant reader.Valid() && grouper.Valid() && fresh(grouper.groups.Values - old(grouper.groups.Values))
      invariant Ready(Pending(env, lim, machine.View(), reader.Rest()), Finish(env, machine.View()), grouper.View(), goal, grouper.texts)
      invariant grouper.truncated == old(grouper.truncated)
      decreases |reader.data| - reader.pos
    {
      var consumed := ReadAndFold(reader, machine, env, lim, grouper, goal);
      if consumed == 0 {
        break;
      }
    }
  }

  lemma ReadyAtStart(env: Env, lim: Limits, input: seq<byte>, k: Intake, texts: iset<Text>)
    requires Known(Plans(env, lim, input), texts)
    ensures Ready(Pending(env, lim, START, input), Finish(env, START), k, k.OfferAll(Plans(env, lim, input)), texts)
  {}

  lemma NothingButOpen(env: Env, lim: Limits, l: Loop, rest: seq<byte>)
    ensures rest == [] ==> Pending(env, lim, l, rest) == Finish(env, l)
    ensures |Finish(env, l)| <= 1
  {}

  /** Report input left unread, and fold what the open entry still delivers. */
  method Conclude(grouper: QueryGrouper, unread: bool, open: seq<QueryPlan>, ghost still: seq<QueryPlan>, ghost goal: Intake)
    requires grouper.Valid() && Ready(still, open, grouper.View(), goal, grouper.texts)
    requires |open| <= 1 && (unread ==> grouper.IsFull()) && (!unread ==> still == open)
    modifies grouper, grouper.cache, grouper.groups.Values
    ensures grouper.Valid() && grouper.taken == goal.taken
    ensures grouper.truncated <==> old(grouper.truncated) || unread
    ensures goal.dropped ==> grouper.truncated
  {
    ReadyEnd(still, open, grouper.View(), goal, grouper.texts);
    if unread {
      grouper.MarkTruncated();
    } else {
      grouper.FoldAll(open);
    }
  }

  /**
   * Parse what is left in `reader` into `grouper`: it ends with what it would
   * have taken of all the plans, although reading stops once it is full, and
   * reports truncation exactly if input was left.
   */
  method ParseIntoGrouper(reader: BufReader, env: Env, lim: Limits, grouper: QueryGrouper)
    requires reader.Valid() && lim.maxLine > 0 && grouper.Valid()
    requires Known(Plans(env, lim, reader.Rest()), grouper.texts)
    modifies reader, grouper, grouper.cache, grouper.groups.Values
    ensures reader.Valid() && grouper.Valid()
    ensures var goal := old(grouper.View()).OfferAll(Plans(env, lim, old(reader.Rest())));
            grouper.taken == goal.taken && (goal.dropped ==> grouper.truncated)
    ensures grouper.truncated <==> old(grouper.truncated) || reader.Rest() != []
  {
    ghost var goal := grouper.View().OfferAll(Plans(env, lim, reader.Rest()));
    ReadyAtStart(env, lim, reader.Rest(), grouper.View(), grouper.texts);
    var machine := new EntryMachine();
    ReadToEnd(reader, machine, env, lim, grouper, goal);
  }

  /** The read loop, and what follows it. */
  method ReadToEnd(reader: BufReader, machine: EntryMachine, env: Env, lim: Limits, grouper: QueryGrouper, ghost goal: Intake)
    requires reader.Valid() && lim.maxLine > 0 && grouper.Valid()
    requires Ready(Pending(env, lim, machine.View(), reader.Rest()), Finish(env, machine.View()), grouper.View(), goal, grouper.texts)
    modifies reader, machine, grouper, grouper.cache, grouper.groups.Values
    ensures reader.Valid() && grouper.Valid() && grouper.taken == goal.taken && (goal.dropped ==> grouper.truncated)
    ensures grouper.truncated <==> old(grouper.truncated) || reader.Rest() != []
  {
    ReadUntilFull(reader, machine, env, lim, grouper, goal);
    var pending := reader.FillBuf();
    NothingButOpen(env, lim, machine.View(), reader.Rest());
    ghost var still := Pending(env, lim, machine.View(), reader.Rest());
    Conclude(grouper, pending != [], Finish(env, machine.View()), still, goal);
  }

  /** Read lines until reading fails behind `n` of them, unless the loop ends first. */
  method ReadUntilFailure(reader: BufReader, machine: EntryMachine, env: Env, lim: Limits, grouper: QueryGrouper, n: nat, ghost goal: Intake)
    returns (failed: bool)
    requires reader.Valid() && lim.maxLine > 0 && grouper.Valid()
    requires Ready(Pending(env, lim, machine.View(), reader.Rest()), Finish(env, machine.View()), grouper.View(), goal, grouper.texts)
    modifies reader, machine, grouper, grouper.cache, grouper.groups.Values
    ensures reader.Valid() && grouper.Valid() && fresh(grouper.groups.Values - old(grouper.groups.Values))
    ensures Ready(Pending(env, lim, machine.View(), reader.Rest()), Finish(env, machine.View()), grouper.View(), goal, grouper.texts)
    ensures grouper.truncated == old(grouper.truncated)
    ensures !failed ==> grouper.IsFull() || reader.Rest() == []
  {
    for i := 0 to n
      invariant reader.Valid() && grouper.Valid() && fresh(grouper.groups.Values - old(grouper.groups.Values))
      invariant Ready(Pending(env, lim, machine.View(), reader.Rest()), Finish(env, machine.View()), grouper.View(), goal, grouper.texts)
      invariant grouper.truncated == old(grouper.truncated)
    {
      if grouper.IsFull() {
        return false;
      }
      var consumed := ReadAndFold(reader, machine, env, lim, grouper, goal);
      if consumed == 0 {
        return false;
      }
    }
    failed := !grouper.IsFull();
  }

  /**
   * From bytes to groups: those of the first plans of the parse that pass the
   * filter, up to the cap. Reading may fail behind some line; what was folded
   * by then is discarded, so that the next parse starts clean either way.
   */
  method ParseAndTake(reader: BufReader, env: Env, lim: Limits, grouper: QueryGrouper, failsBehind: Option<nat>)
    returns (groups: Option<GroupMap>)
    requires reader.Valid() && lim.maxLine > 0 && grouper.Valid() && grouper.taken == []
    requires Known(Plans(env, lim, reader.Rest()), grouper.texts)
    modifies reader, grouper, grouper.cache, grouper.groups.Values
    ensures grouper.Valid() && grouper.View() == Intake(grouper.filter, grouper.maxPlans, [], false)
    ensures groups.None? ==> failsBehind.Some?
    ensures var ps := old(grouper.View()).Passing(Plans(env, lim, old(reader.Rest())));
            var room := if grouper.maxPlans == 0 then |ps| else Min(|ps|, grouper.maxPlans);
            groups.Some? ==> groups.value == GroupsOf(grouper.sql, ps[..room])
  {
    ghost var view, all := grouper.View(), Plans(env, lim, reader.Rest());
    var ok := ParseUnlessFailing(reader, env, lim, grouper, failsBehind);
    TakesFirstPassing(view, all);
    var taken := grouper.TakeGroups();
    if !ok {
      return None;
    }
    ghost var ps := view.Passing(all);
    ghost var first := ps[..if view.maxPlans == 0 then |ps| else Min(|ps|, view.maxPlans)];
    assert [] + first == first;
    return Some(taken);
  }

  /** A parse that may fail half-way, leaving a grouper that has taken who knows what. */
  method ParseUnlessFailing(reader: BufReader, env: Env, lim: Limits, grouper: QueryGrouper, failsBehind: Option<nat>)
    returns (ok: bool)
    requires reader.Valid() && lim.maxLine > 0 && grouper.Valid()
    requires Known(Plans(env, lim, reader.Rest()), grouper.texts)
    modifies reader, grouper, grouper.cache, grouper.groups.Values
    ensures reader.Valid() && grouper.Valid() && (!ok ==> failsBehind.Some?)
    ensures ok ==> grouper.taken == old(grouper.View()).OfferAll(Plans(env, lim, old(reader.Rest()))).taken
  {
    if failsBehind.None? {
      ParseIntoGrouper(reader, env, lim, grouper);
      return true;
    }
    ghost var goal := grouper.View().OfferAll(Plans(env, lim, reader.Rest()));
    ReadyAtStart(env, lim, reader.Rest(), grouper.View(), grouper.texts);
    var machine := new EntryMachine();
    var failed := ReadUntilFailure(reader, machine, env, lim, grouper, failsBehind.value, goal);
    if failed {
      return false;
    }
    ReadToEnd(reader, machine, env, lim, grouper, goal);
    return true;
  }
}
