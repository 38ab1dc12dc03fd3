/** Pairing executor starts with executor ends, by the address of the query descriptor. */
module Hook {
  import opened Common

  const SAMPLE_MAP_CAP: nat := 1024

  /** Settings read when a query started, used again when it ends. */
  datatype Sample = Sample(trackIo: bool, trackTiming: bool, capturePlan: bool)

  datatype Entry = Entry(addr: nat, sample: Sample)

  // ---- The vector ----

  function Position(m: seq<Entry>, addr: nat): (i: nat)
    ensures i <= |m|
  {
    if m == [] || m[0].addr == addr then 0 else 1 + Position(m[1..], addr)
  }

  lemma {:induction false} PositionIsFirst(m: seq<Entry>, addr: nat)
    ensures var i := Position(m, addr);
            (forall k :: 0 <= k < i ==> m[k].addr != addr) && (i < |m| ==> m[i].addr == addr)
  {
    if m != [] && m[0].addr != addr {
      PositionIsFirst(m[1..], addr);
      forall k | 0 <= k < Position(m, addr) ensures m[k].addr != addr {
        assert k > 0 ==> m[k] == m[1..][k - 1];
      }
    }
  }

  /** The last element takes the place of the removed one. */
  function SwapRemove<T>(s: seq<T>, i: nat): seq<T>
    requires i < |s|
  {
    s[i := s[|s| - 1]][..|s| - 1]
  }

  function Remove(m: seq<Entry>, addr: nat): seq<Entry> {
    var i := Position(m, addr);
    if i < |m| then SwapRemove(m, i) else m
  }

  function Push(m: seq<Entry>, e: Entry): seq<Entry> {
    (if |m| >= SAMPLE_MAP_CAP then m[1..] else m) + [e]
  }

  /** What the end of a query at `addr` finds. */
  function Taken(m: seq<Entry>, addr: nat): Option<Sample> {
    var i := Position(m, addr);
    if i < |m| then Some(m[i].sample) else None
  }

  // ---- Events ----

  datatype Event = Start(addr: nat, owned: bool, sample: Sample) | End(addr: nat) | TransactionEnd

  function Step(m: seq<Entry>, e: Event): seq<Entry> {
    match e
    case Start(addr, owned, sample) =>
      var rest := Remove(m, addr);
      if owned then Push(rest, Entry(addr, sample)) else rest
    case End(addr) => Remove(m, addr)
    case TransactionEnd => []
  }

  function Run(events: seq<Event>): seq<Entry> {
    if events == [] then [] else Step(Run(events[..|events| - 1]), events[|events| - 1])
  }

  /** The hooks, over the backend's one map. */
  class SampleMap {
    var entries: seq<Entry>

    constructor ()
      ensures entries == []
    {
      entries := [];
    }

    method Find(addr: nat) returns (i: nat)
      ensures i == Position(entries, addr)
    {
      i := 0;
      while i < |entries| && entries[i].addr != addr
        invariant i <= |entries|
        invariant Position(entries, addr) == i + Position(entries[i..], addr)
      {
        assert entries[i..][1..] == entries[i + 1..];
        i := i + 1;
      }
    }

    /** The bookkeeping of `executor_start`; `owned` if it allocated the instrumentation. */
    method ExecutorStart(addr: nat, owned: bool, sample: Sample)
      modifies this
      ensures entries == Step(old(entries), Start(addr, owned, sample))
    {
      var stale := Find(addr);
      if stale < |entries| {
        entries := SwapRemove(entries, stale);
      }
      if owned {
        if |entries| >= SAMPLE_MAP_CAP {
          entries := entries[1..];
        }
        entries := entries + [Entry(addr, sample)];
      }
    }

    /** The bookkeeping of `executor_end`: the settings to capture with, if the query is ours. */
    method ExecutorEnd(addr: nat) returns (taken: Option<Sample>)
      modifies this
      ensures entries == Step(old(entries), End(addr)) && taken == Taken(old(entries), addr)
    {
      taken := None;
      var i := Find(addr);
      if i < |entries| {
        taken := Some(entries[i].sample);
        entries := SwapRemove(entries, i);
      }
    }

    method XactCallback()
      modifies this
      ensures entries == Step(old(entries), TransactionEnd)
    {
      entries := [];
    }
  }

  // ---- What the map should hold ----

  /** An event that decides what an end at `addr` may find. */
  predicate Touches(e: Event, addr: nat) {
    match e
    case Start(a, _, _) => a == addr
    case End(a) => a == addr
    case TransactionEnd => true
  }

  /** The query at `addr` that has started, is ours, and has not ended. */
  function Pending(events: seq<Event>, addr: nat): Option<Sample> {
    if events == [] then None
    else
      var last := events[|events| - 1];
      if !Touches(last, addr) then Pending(events[..|events| - 1], addr)
      else if last.Start? && last.owned then Some(last.sample)
      else None
  }

  /** The last event that touches the address is an owned start with these settings. */
  ghost predicate LatestIsStart(events: seq<Event>, addr: nat, sample: Sample) {
    exists k :: 0 <= k < |events| && events[k] == Start(addr, true, sample)
      && forall j :: k < j < |events| ==> !Touches(events[j], addr)
  }

  lemma {:induction false} PendingIsLatestStart(events: seq<Event>, addr: nat, sample: Sample)
    ensures Pending(events, addr) == Some(sample) <==> LatestIsStart(events, addr, sample)
  {
    if events != [] {
      var n := |events| - 1;
      var before := events[..n];
      PendingIsLatestStart(before, addr, sample);
      if !Touches(events[n], addr) && LatestIsStart(before, addr, sample) {
        var k :| 0 <= k < n && before[k] == Start(addr, true, sample) && forall j :: k < j < n ==> !Touches(before[j], addr);
        assert forall j :: k < j < n ==> before[j] == events[j];
        assert events[k] == Start(addr, true, sample);
      }
      if !Touches(events[n], addr) && LatestIsStart(events, addr, sample) {
        var k :| 0 <= k <= n && events[k] == Start(addr, true, sample) && forall j :: k < j <= n ==> !Touches(events[j], addr);
        assert before[k] == Start(addr, true, sample);
      }
    }
  }

  // ---- Safety ----

  ghost predicate Distinct(m: seq<Entry>) {
    forall i, j :: 0 <= i < j < |m| ==> m[i].addr != m[j].addr
  }

  lemma TakenIsMember(m: seq<Entry>, addr: nat, sample: Sample)
    requires Distinct(m)
    ensures Taken(m, addr) == Some(sample) <==> Entry(addr, sample) in m
  {
    PositionIsFirst(m, addr);
  }

  lemma SwapRemoveDrops(m: seq<Entry>, i: nat)
    requires Distinct(m) && i < |m|
    ensures Distinct(SwapRemove(m, i))
    ensures forall e :: e in SwapRemove(m, i) <==> e in m && e.addr != m[i].addr
  {
    var n := |m| - 1;
    var r := SwapRemove(m, i);
    forall k | 0 <= k < n ensures r[k] == if k == i then m[n] else m[k] {}
    forall e | e in m && e.addr != m[i].addr ensures e in r {
      var k :| 0 <= k < |m| && m[k] == e;
      assert r[if k == n then i else k] == e;
    }
  }

  lemma RemoveDrops(m: seq<Entry>, addr: nat)
    requires Distinct(m)
    ensures Distinct(Remove(m, addr)) && |Remove(m, addr)| <= |m|
    ensures forall e :: e in Remove(m, addr) <==> e in m && e.addr != addr
  {
    PositionIsFirst(m, addr);
    var i := Position(m, addr);
    if i < |m| {
      SwapRemoveDrops(m, i);
    }
  }

  /** Every entry is the pending query at its address, and no address has two. */
  ghost predicate Sound(m: seq<Entry>, events: seq<Event>) {
    && Distinct(m) && |m| <= SAMPLE_MAP_CAP
    && forall e :: e in m ==> Pending(events, e.addr) == Some(e.sample)
  }

  lemma StepKeepsSound(m: seq<Entry>, events: seq<Event>, e: Event)
    requires Sound(m, events)
    ensures Sound(Step(m, e), events + [e])
  {
    StepKeepsShape(m, e);
    forall x | x in Step(m, e) ensures Pending(events + [e], x.addr) == Some(x.sample) {
      PendingSnoc(events, e, x.addr);
    }
  }

  lemma StepKeepsShape(m: seq<Entry>, e: Event)
    requires Distinct(m) && |m| <= SAMPLE_MAP_CAP
    ensures Distinct(Step(m, e)) && |Step(m, e)| <= SAMPLE_MAP_CAP
    ensures forall x :: x in Step(m, e) ==>
              (x in m && !Touches(e, x.addr)) || (e.Start? && e.owned && x == Entry(e.addr, e.sample))
  {
    if !e.TransactionEnd? {
      RemoveDrops(m, e.addr);
      if e.Start? && e.owned {
        PushKeepsDistinct(Remove(m, e.addr), Entry(e.addr, e.sample));
      }
    }
  }

  lemma PushKeepsDistinct(m: seq<Entry>, e: Entry)
    requires Distinct(m) && |m| <= SAMPLE_MAP_CAP && forall x :: x in m ==> x.addr != e.addr
    ensures Distinct(Push(m, e)) && |Push(m, e)| <= SAMPLE_MAP_CAP
    ensures forall x :: x in Push(m, e) ==> x in m || x == e
  {}

  lemma PendingSnoc(events: seq<Event>, e: Event, addr: nat)
    ensures Pending(events + [e], addr) ==
            if !Touches(e, addr) then Pending(events, addr)
            else if e.Start? && e.owned then Some(e.sample)
            else None
  {
    var after := events + [e];
    assert after[..|events|] == events && after[|events|] == e;
  }

  /** Whatever the interleaving: one entry per address, at most 1024, all of them pending. */
  lemma {:induction false} RunIsSound(events: seq<Event>)
    ensures Sound(Run(events), events)
  {
    if events != [] {
      var n := |events| - 1;
      RunIsSound(events[..n]);
      StepKeepsSound(Run(events[..n]), events[..n], events[n]);
      assert events[..n] + [events[n]] == events;
    }
  }

  /** An end is given the settings of the latest start at its own address, or nothing. */
  lemma EndTakesItsOwnStart(events: seq<Event>, addr: nat)
    ensures var t := Taken(Run(events), addr); t.Some? ==> LatestIsStart(events, addr, t.value)
  {
    var t := Taken(Run(events), addr);
    RunIsSound(events);
    if t.Some? {
      TakenIsMember(Run(events), addr, t.value);
      PendingIsLatestStart(events, addr, t.value);
    }
  }

  // ---- When nothing is lost ----

  /** The addresses with a pending query. */
  function PendingAt(events: seq<Event>): set<nat> {
    if events == [] then {}
    else
      var before := PendingAt(events[..|events| - 1]);
      match events[|events| - 1]
      case Start(addr, owned, _) => if owned then before + {addr} else before - {addr}
      case End(addr) => before - {addr}
      case TransactionEnd => {}
  }

  lemma {:induction false} PendingAtIsPending(events: seq<Event>, addr: nat)
    ensures addr in PendingAt(events) <==> Pending(events, addr).Some?
  {
    if events != [] {
      PendingAtIsPending(events[..|events| - 1], addr);
    }
  }

  /** The map holds every pending query. */
  ghost predicate Complete(events: seq<Event>) {
    forall addr :: Pending(events, addr).Some? ==> Taken(Run(events), addr) == Pending(events, addr)
  }

  ghost predicate CompleteThroughout(events: seq<Event>) {
    forall i :: 0 <= i <= |events| ==> Complete(events[..i])
  }

  /** There are never more than 1024 pending queries. */
  ghost predicate NeverTooMany(events: seq<Event>) {
    forall i :: 0 <= i <= |events| ==> |PendingAt(events[..i])| <= SAMPLE_MAP_CAP
  }

  function Addrs(m: seq<Entry>): set<nat> {
    set i | 0 <= i < |m| :: m[i].addr
  }

  lemma {:induction false} AddrsCount(m: seq<Entry>)
    requires Distinct(m)
    ensures |Addrs(m)| == |m|
  {
    if m != [] {
      var n := |m| - 1;
      AddrsCount(m[..n]);
      assert Addrs(m) == Addrs(m[..n]) + {m[n].addr};
      assert m[n].addr !in Addrs(m[..n]);
    }
  }

  lemma CompleteIsAll(events: seq<Event>)
    ensures Complete(events) <==> Addrs(Run(events)) == PendingAt(events)
  {
    var m := Run(events);
    RunIsSound(events);
    forall addr ensures addr in Addrs(m) ==> addr in PendingAt(events) {
      PendingAtIsPending(events, addr);
    }
    if Complete(events) {
      forall addr | addr in PendingAt(events) ensures addr in Addrs(m) {
        PendingAtIsPending(events, addr);
        PositionIsFirst(m, addr);
      }
    }
    if Addrs(m) == PendingAt(events) {
      forall addr | Pending(events, addr).Some? ensures Taken(m, addr) == Pending(events, addr) {
        PendingAtIsPending(events, addr);
        var i :| 0 <= i < |m| && m[i].addr == addr;
        TakenIsMember(m, addr, m[i].sample);
      }
    }
  }

  /** The vector and the set of pending addresses have one size while nothing is lost. */
  lemma CompleteSize(events: seq<Event>)
    requires Complete(events)
    ensures |Run(events)| == |PendingAt(events)| && |PendingAt(events)| <= SAMPLE_MAP_CAP
  {
    RunIsSound(events);
    CompleteIsAll(events);
    AddrsCount(Run(events));
  }

  lemma RemoveAddrs(m: seq<Entry>, addr: nat)
    requires Distinct(m)
    ensures Addrs(Remove(m, addr)) == Addrs(m) - {addr}
  {
    RemoveDrops(m, addr);
    forall a ensures a in Addrs(Remove(m, addr)) <==> a in Addrs(m) - {addr} {
      if a in Addrs(m) - {addr} {
        var i :| 0 <= i < |m| && m[i].addr == a;
        assert m[i] in Remove(m, addr);
      }
    }
  }

  /** Below the cap, a step loses nothing. */
  lemma StepLosesNothing(before: seq<Event>, e: Event)
    requires Complete(before) && |PendingAt(before + [e])| <= SAMPLE_MAP_CAP
    ensures Complete(before + [e])
  {
    var after, m := before + [e], Run(before);
    assert after[..|before|] == before && after[|before|] == e;
    CompleteIsAll(before);
    RunIsSound(before);
    if !e.TransactionEnd? {
      RemoveDrops(m, e.addr);
      RemoveAddrs(m, e.addr);
      AddrsCount(Remove(m, e.addr));
    }
    if e.Start? && e.owned {
      var rest := Remove(m, e.addr);
      PushFits(rest, Entry(e.addr, e.sample));
      assert Addrs(rest) + {e.addr} == PendingAt(after);
    }
    assert Addrs(Run(after)) == PendingAt(after);
    CompleteIsAll(after);
  }

  lemma PushFits(m: seq<Entry>, e: Entry)
    requires Distinct(m) && e.addr !in Addrs(m)
    requires |Addrs(m) + {e.addr}| <= SAMPLE_MAP_CAP
    ensures Addrs(Push(m, e)) == Addrs(m) + {e.addr}
  {
    AddrsCount(m);
    var r := m + [e];
    forall a | a in Addrs(m) ensures a in Addrs(r) {
      var i :| 0 <= i < |m| && m[i].addr == a;
      assert r[i] == m[i];
    }
    assert r[|m|] == e;
  }

  lemma FewBefore(events: seq<Event>)
    requires events != [] && NeverTooMany(events)
    ensures NeverTooMany(events[..|events| - 1]) && |PendingAt(events)| <= SAMPLE_MAP_CAP
  {
    var before := events[..|events| - 1];
    assert events[..|events|] == events;
    forall i | 0 <= i <= |before| ensures |PendingAt(before[..i])| <= SAMPLE_MAP_CAP {
      assert before[..i] == events[..i];
    }
  }

  lemma CompleteThen(events: seq<Event>)
    requires events != [] && CompleteThroughout(events[..|events| - 1]) && Complete(events)
    ensures CompleteThroughout(events)
  {
    var before := events[..|events| - 1];
    forall i | 0 <= i <= |events| ensures Complete(events[..i]) {
      if i < |events| {
        assert before[..i] == events[..i];
      } else {
        assert events[..i] == events;
      }
    }
  }

  lemma {:induction false} FewIsComplete(events: seq<Event>)
    requires NeverTooMany(events)
    ensures CompleteThroughout(events)
  {
    if events != [] {
      var n := |events| - 1;
      FewBefore(events);
      FewIsComplete(events[..n]);
      assert events[..n][..n] == events[..n] && events[..n] + [events[n]] == events;
      StepLosesNothing(events[..n], events[n]);
      CompleteThen(events);
    } else {
      forall i | 0 <= i <= |events| ensures Complete(events[..i]) {}
    }
  }

  /**
   * Every end finds its start, throughout a run, exactly if there are never
   * more than 1024 queries pending.
   */
  lemma NothingLostIffFew(events: seq<Event>)
    ensures CompleteThroughout(events) <==> NeverTooMany(events)
  {
    if NeverTooMany(events) {
      FewIsComplete(events);
    }
    if CompleteThroughout(events) {
      forall i | 0 <= i <= |events| ensures |PendingAt(events[..i])| <= SAMPLE_MAP_CAP {
        CompleteSize(events[..i]);
      }
    }
  }

  // ---- What is evicted ----

  /** One past the last event that touches the address. */
  function TouchedAt(events: seq<Event>, addr: nat): (k: nat)
    ensures k <= |events|
  {
    if events == [] then 0
    else if Touches(events[|events| - 1], addr) then |events|
    else TouchedAt(events[..|events| - 1], addr)
  }

  lemma TouchedSnoc(events: seq<Event>, e: Event, addr: nat)
    ensures TouchedAt(events + [e], addr) == if Touches(e, addr) then |events| + 1 else TouchedAt(events, addr)
  {
    assert (events + [e])[..|events|] == events && (events + [e])[|events|] == e;
  }

  /** The entries stand in the order in which their queries started. */
  ghost predicate StartOrder(m: seq<Entry>, events: seq<Event>) {
    forall i, j :: 0 <= i < j < |m| ==> TouchedAt(events, m[i].addr) < TouchedAt(events, m[j].addr)
  }

  ghost predicate OrderedThroughout(events: seq<Event>) {
    forall i :: 0 <= i <= |events| ==> StartOrder(Run(events[..i]), events[..i])
  }

  /** The event removes nothing, or one of the last two entries, or all of them. */
  predicate RemovesAtEnd(m: seq<Entry>, e: Event) {
    e.TransactionEnd? || Position(m, e.addr) == |m| || Position(m, e.addr) + 2 >= |m|
  }

  ghost predicate RemovesAtEndThroughout(events: seq<Event>) {
    forall i :: 0 <= i < |events| ==> RemovesAtEnd(Run(events[..i]), events[i])
  }

  /** What a removal leaves, slot by slot: the last entry has moved to the slot that was removed. */
  lemma SwapRemoveAt<T>(s: seq<T>, i: nat, k: nat)
    requires i < |s| && k < |s| - 1
    ensures SwapRemove(s, i)[k] == if k == i then s[|s| - 1] else s[k]
  {}

  /** Removing at the end keeps the order. */
  lemma RemovalKeepsOrder(m: seq<Entry>, events: seq<Event>, addr: nat)
    requires StartOrder(m, events) && (Position(m, addr) == |m| || Position(m, addr) + 2 >= |m|)
    ensures StartOrder(Remove(m, addr), events)
  {
    var p := Position(m, addr);
    if p < |m| {
      forall i, j | 0 <= i < j < |m| - 1
        ensures TouchedAt(events, SwapRemove(m, p)[i].addr) < TouchedAt(events, SwapRemove(m, p)[j].addr)
      {
        SwapRemoveAt(m, p, i);
        SwapRemoveAt(m, p, j);
      }
    }
  }

  /** Removing anywhere else puts the newest entry in front of an older one. */
  lemma RemovalBreaksOrder(m: seq<Entry>, events: seq<Event>, addr: nat)
    requires StartOrder(m, events) && Position(m, addr) + 2 < |m|
    ensures var r := Remove(m, addr); var p, q := Position(m, addr), |m| - 2;
            p < q < |r| && TouchedAt(events, r[p].addr) > TouchedAt(events, r[q].addr)
  {
    var p, q := Position(m, addr), |m| - 2;
    SwapRemoveAt(m, p, p);
    SwapRemoveAt(m, p, q);
  }

  /** Events elsewhere do not change when the others were touched. */
  lemma OrderElsewhere(m: seq<Entry>, events: seq<Event>, e: Event)
    requires forall k :: 0 <= k < |m| ==> !Touches(e, m[k].addr)
    ensures StartOrder(m, events + [e]) <==> StartOrder(m, events)
  {
    forall k | 0 <= k < |m| ensures TouchedAt(events + [e], m[k].addr) == TouchedAt(events, m[k].addr) {
      TouchedSnoc(events, e, m[k].addr);
    }
  }

  lemma RemovedElsewhere(m: seq<Entry>, e: Event)
    requires Distinct(m) && !e.TransactionEnd?
    ensures forall k :: 0 <= k < |Remove(m, e.addr)| ==> !Touches(e, Remove(m, e.addr)[k].addr)
  {
    RemoveDrops(m, e.addr);
    forall k | 0 <= k < |Remove(m, e.addr)| ensures !Touches(e, Remove(m, e.addr)[k].addr) {
      assert Remove(m, e.addr)[k] in Remove(m, e.addr);
    }
  }

  /** The entry just pushed is the newest, whatever was evicted for it. */
  lemma PushKeepsOrder(m: seq<Entry>, events: seq<Event>, e: Event)
    requires e.Start? && (forall k :: 0 <= k < |m| ==> !Touches(e, m[k].addr))
    requires StartOrder(m, events)
    ensures StartOrder(Push(m, Entry(e.addr, e.sample)), events + [e])
  {
    var after := events + [e];
    var r := Push(m, Entry(e.addr, e.sample));
    OrderElsewhere(m, events, e);
    TouchedSnoc(events, e, e.addr);
    var shift := |m| + 1 - |r|;
    forall i, j | 0 <= i < j < |r| ensures TouchedAt(after, r[i].addr) < TouchedAt(after, r[j].addr) {
      assert r[i] == m[i + shift];
      TouchedSnoc(events, e, m[i + shift].addr);
      if j < |r| - 1 {
        assert r[j] == m[j + shift];
      }
    }
  }

  lemma PushKeepsDisorder(m: seq<Entry>, events: seq<Event>, e: Event)
    requires e.Start? && (forall k :: 0 <= k < |m| ==> !Touches(e, m[k].addr)) && |m| < SAMPLE_MAP_CAP
    requires !StartOrder(m, events)
    ensures !StartOrder(Push(m, Entry(e.addr, e.sample)), events + [e])
  {
    OrderElsewhere(m, events, e);
    var r := Push(m, Entry(e.addr, e.sample));
    var i, j :| 0 <= i < j < |m| && TouchedAt(events + [e], m[i].addr) >= TouchedAt(events + [e], m[j].addr);
    assert r[i] == m[i] && r[j] == m[j];
  }

  /** From an ordered map, an event keeps the order exactly if what it removes is at the end. */
  lemma StepOrder(before: seq<Event>, e: Event)
    requires StartOrder(Run(before), before)
    ensures StartOrder(Run(before + [e]), before + [e]) <==> RemovesAtEnd(Run(before), e)
  {
    var m := Run(before);
    RunIsSound(before);
    assert (before + [e])[..|before|] == before && (before + [e])[|before|] == e;
    if !e.TransactionEnd? {
      var r := Remove(m, e.addr);
      RemovedElsewhere(m, e);
      OrderElsewhere(r, before, e);
      if RemovesAtEnd(m, e) {
        RemovalKeepsOrder(m, before, e.addr);
      } else {
        RemovalBreaksOrder(m, before, e.addr);
      }
      if e.Start? && e.owned {
        if RemovesAtEnd(m, e) {
          PushKeepsOrder(r, before, e);
        } else {
          PushKeepsDisorder(r, before, e);
        }
      }
    }
  }

  lemma {:induction false} RemovalsDecideOrder(events: seq<Event>)
    requires RemovesAtEndThroughout(events)
    ensures StartOrder(Run(events), events)
  {
    if events != [] {
      var n := |events| - 1;
      var before := events[..n];
      forall i | 0 <= i < n ensures RemovesAtEnd(Run(before[..i]), before[i]) {
        assert before[..i] == events[..i];
      }
      RemovalsDecideOrder(before);
      StepOrder(before, events[n]);
      assert before + [events[n]] == events;
    }
  }

  /**
   * The map is in the order of the starts throughout a run exactly if every
   * end, and every start over a stale entry, finds its entry in one of the
   * last two slots.
   */
  lemma OrderedIffRemovedAtEnd(events: seq<Event>)
    ensures OrderedThroughout(events) <==> RemovesAtEndThroughout(events)
  {
    if RemovesAtEndThroughout(events) {
      forall i | 0 <= i <= |events| ensures StartOrder(Run(events[..i]), events[..i]) {
        PrefixRemovesAtEnd(events, i);
        RemovalsDecideOrder(events[..i]);
      }
    }
    if OrderedThroughout(events) {
      forall i | 0 <= i < |events| ensures RemovesAtEnd(Run(events[..i]), events[i]) {
        OrderDecidesRemoval(events, i);
      }
    }
  }

  lemma PrefixRemovesAtEnd(events: seq<Event>, i: nat)
    requires i <= |events| && RemovesAtEndThroughout(events)
    ensures RemovesAtEndThroughout(events[..i])
  {
    var part := events[..i];
    forall k | 0 <= k < i ensures RemovesAtEnd(Run(part[..k]), part[k]) {
      assert part[..k] == events[..k];
    }
  }

  lemma OrderDecidesRemoval(events: seq<Event>, i: nat)
    requires i < |events| && OrderedThroughout(events)
    ensures RemovesAtEnd(Run(events[..i]), events[i])
  {
    var before := events[..i];
    assert events[..i + 1] == before + [events[i]];
    assert StartOrder(Run(before), before) && StartOrder(Run(events[..i + 1]), events[..i + 1]);
    StepOrder(before, events[i]);
  }

  /** In that case, and on a full map, a start evicts the entry that started first. */
  lemma OldestIsEvicted(events: seq<Event>, e: Event)
    requires RemovesAtEndThroughout(events)
    requires e.Start? && e.owned && |Remove(Run(events), e.addr)| == SAMPLE_MAP_CAP
    ensures var m := Run(events);
            && Step(m, e) == m[1..] + [Entry(e.addr, e.sample)]
            && forall k :: 0 < k < |m| ==> TouchedAt(events, m[0].addr) < TouchedAt(events, m[k].addr)
  {
    RemovalsDecideOrder(events);
    RunIsSound(events);
    RemoveDrops(Run(events), e.addr);
    FullKeepsAll(Run(events), e.addr);
  }

  /** A map that is full after a removal had nothing to remove. */
  lemma FullKeepsAll(m: seq<Entry>, addr: nat)
    requires |m| <= SAMPLE_MAP_CAP && |Remove(m, addr)| == SAMPLE_MAP_CAP
    ensures Remove(m, addr) == m
  {}

  // ---- The order of evictions ----

  /** The event takes out an entry that is not its own query's. */
  ghost predicate Evicts(m: seq<Entry>, e: Event, x: Entry) {
    e.Start? && x in m && x.addr != e.addr && x !in Step(m, e)
  }

  /** Queries of ours that start one after the other, at addresses the map does not hold. */
  ghost predicate Fresh(m: seq<Entry>, starts: seq<Event>) {
    && (forall i :: 0 <= i < |starts| ==> starts[i].Start? && starts[i].owned)
    && (forall i :: 0 <= i < |starts| ==> forall x :: x in m ==> x.addr != starts[i].addr)
    && (forall i, j :: 0 <= i < j < |starts| ==> starts[i].addr != starts[j].addr)
  }

  /** Whatever is evicted earlier started earlier. */
  ghost predicate EvictsOldestFirst(events: seq<Event>, starts: seq<Event>) {
    forall i, j, x, y :: 0 <= i < j < |starts| && EvictsAt(events, starts, i, x) && EvictsAt(events, starts, j, y) ==>
      TouchedAt(events, x.addr) < TouchedAt(events, y.addr)
  }

  ghost predicate EvictsAt(events: seq<Event>, starts: seq<Event>, i: nat, x: Entry)
    requires i < |starts|
  {
    Evicts(Run(events + starts[..i]), starts[i], x)
  }

  function EntriesOf(starts: seq<Event>): seq<Entry>
    requires forall i :: 0 <= i < |starts| ==> starts[i].Start?
  {
    if starts == [] then []
    else
      var last := starts[|starts| - 1];
      EntriesOf(starts[..|starts| - 1]) + [Entry(last.addr, last.sample)]
  }

  lemma {:induction false} EntriesAddr(starts: seq<Event>, x: Entry)
    requires (forall i :: 0 <= i < |starts| ==> starts[i].Start?) && x in EntriesOf(starts)
    ensures exists i :: 0 <= i < |starts| && starts[i].addr == x.addr
  {
    var n := |starts| - 1;
    if x in EntriesOf(starts[..n]) {
      EntriesAddr(starts[..n], x);
      var i :| 0 <= i < n && starts[..n][i].addr == x.addr;
      assert starts[i].addr == x.addr;
    } else {
      assert starts[n].addr == x.addr;
    }
  }

  /** The start of a new query on a full map pushes the front out. */
  lemma FullStep(m: seq<Entry>, e: Event)
    requires e.Start? && e.owned && |m| == SAMPLE_MAP_CAP && forall x :: x in m ==> x.addr != e.addr
    ensures Step(m, e) == m[1..] + [Entry(e.addr, e.sample)]
  {
    Absent(m, e.addr);
  }

  lemma {:induction false} FreshRun(events: seq<Event>, starts: seq<Event>)
    requires |Run(events)| == SAMPLE_MAP_CAP && Fresh(Run(events), starts) && |starts| <= SAMPLE_MAP_CAP
    ensures Run(events + starts) == Run(events)[|starts|..] + EntriesOf(starts) && |EntriesOf(starts)| == |starts|
    decreases |starts|
  {
    if starts == [] {
      assert events + starts == events;
    } else {
      var m := Run(events);
      var init, e := FreshInit(m, starts);
      FreshRun(events, init);
      FreshRunSnoc(events, m, init, e);
    }
  }

  lemma FreshRunSnoc(events: seq<Event>, m: seq<Entry>, init: seq<Event>, e: Event)
    requires |init| < |m| == SAMPLE_MAP_CAP && e.Start? && e.owned
    requires forall i :: 0 <= i < |init| ==> init[i].Start?
    requires Run(events + init) == m[|init|..] + EntriesOf(init) && |EntriesOf(init)| == |init|
    requires forall x :: x in m[|init|..] + EntriesOf(init) ==> x.addr != e.addr
    ensures Run(events + (init + [e])) == m[|init| + 1..] + EntriesOf(init + [e])
    ensures |EntriesOf(init + [e])| == |init| + 1
  {
    assert events + (init + [e]) == (events + init) + [e];
    RunSnoc(events + init, e);
    FreshStep(m[|init|..], EntriesOf(init), e);
    assert (init + [e])[..|init|] == init;
  }

  lemma FreshStep(kept: seq<Entry>, added: seq<Entry>, e: Event)
    requires e.Start? && e.owned && kept != [] && |kept + added| == SAMPLE_MAP_CAP
    requires forall x :: x in kept + added ==> x.addr != e.addr
    ensures Step(kept + added, e) == kept[1..] + (added + [Entry(e.addr, e.sample)])
  {
    FullStep(kept + added, e);
    assert (kept + added)[1..] == kept[1..] + added;
  }

  /** The last start's address is neither in the old map nor among the new entries. */
  lemma FreshInit(m: seq<Entry>, starts: seq<Event>) returns (init: seq<Event>, e: Event)
    requires Fresh(m, starts) && 0 < |starts| <= |m|
    ensures starts == init + [e] && Fresh(m, init) && e.Start? && e.owned && |init| < |m|
    ensures forall x :: x in m[|init|..] + EntriesOf(init) ==> x.addr != e.addr
  {
    var n := |starts| - 1;
    init, e := starts[..n], starts[n];
    forall x | x in EntriesOf(init) ensures x.addr != e.addr {
      EntriesAddr(init, x);
    }
  }

  /** The front of a map with distinct addresses is what a new query's start evicts. */
  lemma FrontIsEvicted(m: seq<Entry>, e: Event, x: Entry)
    requires Distinct(m) && e.Start? && e.owned && |m| == SAMPLE_MAP_CAP && forall y :: y in m ==> y.addr != e.addr
    ensures Evicts(m, e, x) <==> x == m[0]
  {
    FullStep(m, e);
    forall k | 0 < k < |m| ensures m[k] in m[1..] && m[k].addr != m[0].addr {
      assert m[k] == m[1..][k - 1];
    }
  }

  lemma FreshFront(events: seq<Event>, m: seq<Entry>, init: seq<Event>)
    requires |init| < |m| == SAMPLE_MAP_CAP && m == Run(events) && Fresh(m, init)
    ensures var r := Run(events + init);
            r == m[|init|..] + EntriesOf(init) && Distinct(r) && |r| == SAMPLE_MAP_CAP && r[0] == m[|init|]
  {
    FreshRun(events, init);
    RunIsSound(events + init);
  }

  /**
   * From a full map, each of at most 1024 new queries evicts one entry and no
   * other: the old map's, from its front on.
   */
  lemma EvictedFromFront(events: seq<Event>, starts: seq<Event>, i: nat, x: Entry)
    requires |Run(events)| == SAMPLE_MAP_CAP && Fresh(Run(events), starts) && i < |starts| <= SAMPLE_MAP_CAP
    ensures EvictsAt(events, starts, i, x) <==> x == Run(events)[i]
  {
    var init, e := FreshInit(Run(events), starts[..i + 1]);
    assert init == starts[..i] && e == starts[i];
    FreshFront(events, Run(events), init);
    FrontIsEvicted(Run(events + init), e, x);
  }

  /** Queries that start at `base` and the addresses behind it. */
  function StartsFrom(base: nat, n: nat): (r: seq<Event>)
    ensures |r| == n && forall i :: 0 <= i < n ==> r[i] == Start(base + i, true, S)
  {
    seq(n, (i: nat) => Start(base + i, true, S))
  }

  lemma {:induction false} UnusedAddress(m: seq<Entry>) returns (base: nat)
    ensures forall x :: x in m ==> x.addr < base
  {
    if m == [] {
      base := 0;
    } else {
      base := UnusedAddress(m[1..]);
      base := base + m[0].addr + 1;
      assert m == [m[0]] + m[1..];
    }
  }

  /**
   * A full map evicts in the order in which the queries started, whichever
   * new ones start, exactly if it stands in that order.
   */
  lemma EvictsOldestFirstIff(events: seq<Event>)
    requires |Run(events)| == SAMPLE_MAP_CAP
    ensures StartOrder(Run(events), events) <==>
            forall starts :: Fresh(Run(events), starts) && |starts| <= SAMPLE_MAP_CAP ==> EvictsOldestFirst(events, starts)
  {
    var m := Run(events);
    forall starts | StartOrder(m, events) && Fresh(m, starts) && |starts| <= SAMPLE_MAP_CAP
      ensures EvictsOldestFirst(events, starts)
    {
      OrderDecidesEviction(events, starts);
    }
    var base := UnusedAddress(m);
    var starts := StartsFrom(base, SAMPLE_MAP_CAP);
    assert Fresh(m, starts);
    if EvictsOldestFirst(events, starts) {
      EvictionShowsOrder(events, starts);
    }
  }

  lemma OrderDecidesEviction(events: seq<Event>, starts: seq<Event>)
    requires |Run(events)| == SAMPLE_MAP_CAP && Fresh(Run(events), starts) && |starts| <= SAMPLE_MAP_CAP
    requires StartOrder(Run(events), events)
    ensures EvictsOldestFirst(events, starts)
  {
    forall i, j, x, y | 0 <= i < j < |starts| && EvictsAt(events, starts, i, x) && EvictsAt(events, starts, j, y)
      ensures TouchedAt(events, x.addr) < TouchedAt(events, y.addr)
    {
      EvictedFromFront(events, starts, i, x);
      EvictedFromFront(events, starts, j, y);
    }
  }

  lemma EvictionShowsOrder(events: seq<Event>, starts: seq<Event>)
    requires |Run(events)| == SAMPLE_MAP_CAP == |starts| && Fresh(Run(events), starts)
    requires EvictsOldestFirst(events, starts)
    ensures StartOrder(Run(events), events)
  {
    var m := Run(events);
    forall i, j | 0 <= i < j < |m| ensures TouchedAt(events, m[i].addr) < TouchedAt(events, m[j].addr) {
      EvictedFromFront(events, starts, i, m[i]);
      EvictedFromFront(events, starts, j, m[j]);
    }
  }

  // ---- A run that evicts its newest entry ----

  const S: Sample := Sample(false, false, false)

  /** Queries start at addresses 0 up to `n`. */
  function Starts(n: nat): seq<Event> {
    if n == 0 then [] else Starts(n - 1) + [Start(n - 1, true, S)]
  }

  /** One entry per address, in order. */
  ghost predicate Numbered(m: seq<Entry>, n: nat) {
    |m| == n && forall k :: 0 <= k < n ==> m[k] == Entry(k, S)
  }

  lemma {:induction false} StartsRun(n: nat)
    requires n <= SAMPLE_MAP_CAP
    ensures Numbered(Run(Starts(n)), n)
  {
    if n > 0 {
      StartsRun(n - 1);
      RunSnoc(Starts(n - 1), Start(n - 1, true, S));
      NumberedNext(Run(Starts(n - 1)), n - 1);
    }
  }

  lemma NumberedNext(m: seq<Entry>, n: nat)
    requires Numbered(m, n) && n < SAMPLE_MAP_CAP
    ensures Numbered(Step(m, Start(n, true, S)), n + 1)
  {
    Absent(m, n);
  }

  lemma {:induction false} StartsTouched(n: nat, addr: nat)
    requires addr < n
    ensures TouchedAt(Starts(n), addr) == addr + 1
  {
    TouchedSnoc(Starts(n - 1), Start(n - 1, true, S), addr);
    StartsLength(n - 1);
    if addr < n - 1 {
      StartsTouched(n - 1, addr);
    }
  }

  lemma {:induction false} StartsLength(n: nat)
    ensures |Starts(n)| == n
  {
    if n > 0 {
      StartsLength(n - 1);
    }
  }

  /** 1024 queries start, the first of them ends, and two more start. */
  function Mishap(): seq<Event> {
    Starts(SAMPLE_MAP_CAP) + [End(0)] + [Start(SAMPLE_MAP_CAP, true, S)] + [Start(SAMPLE_MAP_CAP + 1, true, S)]
  }

  lemma RunSnoc(events: seq<Event>, e: Event)
    ensures Run(events + [e]) == Step(Run(events), e)
  {
    assert (events + [e])[..|events|] == events && (events + [e])[|events|] == e;
  }

  /** Ending the query at the front moves the newest entry there. */
  lemma FrontEnds(m: seq<Entry>)
    requires |m| > 1
    ensures Remove(m, m[0].addr) == [m[|m| - 1]] + m[1..|m| - 1]
  {}

  lemma MishapRuns() returns (m: seq<Entry>)
    ensures Numbered(m, SAMPLE_MAP_CAP)
    ensures Run(Mishap()) == m[1..|m| - 1] + [Entry(SAMPLE_MAP_CAP, S)] + [Entry(SAMPLE_MAP_CAP + 1, S)]
  {
    var n := SAMPLE_MAP_CAP;
    StartsRun(n);
    m := Run(Starts(n));
    var first, second, third := End(0), Start(n, true, S), Start(n + 1, true, S);
    RunSnoc(Starts(n), first);
    RunSnoc(Starts(n) + [first], second);
    RunSnoc(Starts(n) + [first] + [second], third);
    FrontEnds(m);
    MishapStarts([m[n - 1]], m[1..n - 1], n);
  }

  /** Of the two starts behind it, the second evicts the entry at the front. */
  lemma MishapStarts(front: seq<Entry>, rest: seq<Entry>, n: nat)
    requires |front| == 1 && |rest| == n - 2 && n == SAMPLE_MAP_CAP && forall x :: x in front + rest ==> x.addr < n
    ensures Step(Step(front + rest, Start(n, true, S)), Start(n + 1, true, S))
         == rest + [Entry(n, S)] + [Entry(n + 1, S)]
  {
    var first := Entry(n, S);
    Absent(front + rest, n);
    FullStep(front + rest + [first], Start(n + 1, true, S));
    assert (front + rest + [first])[1..] == rest + [first];
  }

  /**
   * Eviction need not take the oldest entry: in this run it takes the one that
   * started last before the map was full, although it is still pending, and
   * keeps the one that started before all others still pending.
   */
  lemma EvictionSkipsTheOldest()
    ensures var last := SAMPLE_MAP_CAP - 1;
            && Pending(Mishap(), last) == Some(S) && Taken(Run(Mishap()), last) == None
            && Pending(Mishap(), 1) == Some(S) && Taken(Run(Mishap()), 1) == Some(S)
            && TouchedAt(Mishap(), 1) < TouchedAt(Mishap(), last)
  {
    var m := MishapRuns();
    MishapUntouched(1);
    MishapUntouched(SAMPLE_MAP_CAP - 1);
    MishapTaken(m, Run(Mishap()), SAMPLE_MAP_CAP);
  }

  lemma MishapTaken(m: seq<Entry>, r: seq<Entry>, n: nat)
    requires Numbered(m, n) && n > 2 && r == m[1..n - 1] + [Entry(n, S)] + [Entry(n + 1, S)]
    ensures Taken(r, n - 1) == None && Taken(r, 1) == Some(S)
  {
    assert r[0] == m[1] == Entry(1, S);
    forall k | 0 <= k < |r| ensures r[k].addr != n - 1 {
      assert k < n - 2 ==> r[k] == m[k + 1];
    }
    PositionIsFirst(r, n - 1);
  }

  /** The three later events leave the other queries pending. */
  lemma MishapUntouched(addr: nat)
    requires 0 < addr < SAMPLE_MAP_CAP
    ensures Pending(Mishap(), addr) == Some(S) && TouchedAt(Mishap(), addr) == addr + 1
  {
    var n := SAMPLE_MAP_CAP;
    var first, second, third := End(0), Start(n, true, S), Start(n + 1, true, S);
    StartsTouched(n, addr);
    StartsPending(n, addr);
    TouchedSnoc(Starts(n), first, addr);
    TouchedSnoc(Starts(n) + [first], second, addr);
    TouchedSnoc(Starts(n) + [first] + [second], third, addr);
    PendingSnoc(Starts(n), first, addr);
    PendingSnoc(Starts(n) + [first], second, addr);
    PendingSnoc(Starts(n) + [first] + [second], third, addr);
  }

  lemma {:induction false} StartsPending(n: nat, addr: nat)
    requires addr < n
    ensures Pending(Starts(n), addr) == Some(S)
  {
    PendingSnoc(Starts(n - 1), Start(n - 1, true, S), addr);
    if addr < n - 1 {
      StartsPending(n - 1, addr);
    }
  }

  lemma Absent(m: seq<Entry>, addr: nat)
    requires forall k :: 0 <= k < |m| ==> m[k].addr != addr
    ensures Remove(m, addr) == m
  {
    PositionIsFirst(m, addr);
  }
}
