/** The read loop: a capped line reader over a chunked source, feeding the entry machine and a sink. */
module LogReader {
  import opened Common
  import opened Lines
  import opened EntryState
  import opened Groups
  import opened LogParser

  /** A buffered source. `chunk` fixes how many bytes a refill shows at each position. */
  class BufReader {
    const data: seq<byte>
    const chunk: nat -> nat
    var pos: nat

    ghost predicate Valid()
      reads this
    {
      pos <= |data|
    }

    function Rest(): seq<byte>
      reads this
      requires Valid()
    {
      data[pos..]
    }

    constructor (data: seq<byte>, chunk: nat -> nat)
      ensures Valid() && Rest() == data && pos == 0
    {
      this.data := data;
      this.chunk := chunk;
      pos := 0;
    }

    /** Some of what is left; nothing only at the end. */
    method FillBuf() returns (buf: seq<byte>)
      requires Valid()
      ensures buf <= Rest() && (buf == [] <==> Rest() == [])
    {
      var n := Min(|data| - pos, 1 + chunk(pos));
      buf := data[pos..pos + n];
    }

    method Consume(n: nat)
      requires Valid() && n <= |Rest()|
      modifies this
      ensures Valid() && Rest() == old(Rest())[n..] && pos == old(pos) + n
    {
      pos := pos + n;
    }

    /** `take(limit).read_until(b'\n')` */
    method ReadUntilNewline(limit: nat) returns (buf: seq<byte>)
      requires Valid()
      modifies this
      ensures Valid() && buf == CutLine(old(Rest())[..FirstLineLen(old(Rest()), NEWLINE)], limit)
      ensures Rest() == old(Rest())[|buf|..] && pos == old(pos) + |buf|
    {
      buf := CutLine(Rest()[..FirstLineLen(Rest(), NEWLINE)], limit);
      Consume(|buf|);
    }

    /** Discard up to and including the next newline, one refill at a time. */
    method SkipLine() returns (skipped: nat)
      requires Valid()
      modifies this
      ensures Valid() && skipped == FirstLineLen(old(Rest()), NEWLINE)
      ensures Rest() == old(Rest())[skipped..] && pos == old(pos) + skipped
    {
      skipped := 0;
      ghost var all := Rest();
      while true
        invariant Valid() && skipped <= |all| && Rest() == all[skipped..] && pos == old(pos) + skipped
        invariant forall i :: 0 <= i < skipped ==> all[i] != NEWLINE
        decreases |Rest()|
      {
        var buf := FillBuf();
        if buf == [] {
          FirstLineLenWhole(all);
          return;
        }
        var n := FirstLineLen(buf, NEWLINE);
        SkipStep(all, skipped, buf);
        Consume(n);
        skipped := skipped + n;
        if buf[n - 1] == NEWLINE {
          return;
        }
      }
    }
  }

  /** A refill that holds the newline ends the line; one that does not extends it. */
  lemma SkipStep(all: seq<byte>, skipped: nat, buf: seq<byte>)
    requires skipped <= |all| && buf <= all[skipped..] && buf != []
    requires forall i :: 0 <= i < skipped ==> all[i] != NEWLINE
    ensures var n := FirstLineLen(buf, NEWLINE);
            if buf[n - 1] == NEWLINE then FirstLineLen(all, NEWLINE) == skipped + n
            else forall i :: 0 <= i < skipped + n ==> all[i] != NEWLINE
  {
    var n := FirstLineLen(buf, NEWLINE);
    FirstLineShape(buf, NEWLINE);
    forall i | skipped <= i < skipped + n ensures all[i] == buf[i - skipped] {
      assert all[i] == all[skipped..][i - skipped];
    }
    if buf[n - 1] == NEWLINE {
      FirstLineLenUnique(all, NEWLINE, skipped + n);
    }
  }

  lemma FirstLineLenWhole(s: seq<byte>)
    requires forall i :: 0 <= i < |s| ==> s[i] != NEWLINE
    ensures FirstLineLen(s, NEWLINE) == |s|
  {
    FirstLineShape(s, NEWLINE);
  }

  /** The first line's remainder behind a prefix of it. */
  lemma FirstLineDrop(s: seq<byte>, n: nat)
    requires n < FirstLineLen(s, NEWLINE) || (n == |s| && s != [] && s[|s| - 1] != NEWLINE)
    requires n <= FirstLineLen(s, NEWLINE)
    ensures n + FirstLineLen(s[n..], NEWLINE) == FirstLineLen(s, NEWLINE)
  {
    var len := FirstLineLen(s, NEWLINE);
    FirstLineShape(s, NEWLINE);
    if n < len {
      assert forall i :: 0 <= i < len - n ==> s[n..][i] == s[n + i];
      FirstLineLenUnique(s[n..], NEWLINE, len - n);
    }
  }

  /** One capped line, and the bytes it took from the source. */
  method NextLine(reader: BufReader, maxLine: nat) returns (line: seq<byte>, consumed: nat)
    requires reader.Valid() && maxLine > 0
    modifies reader
    ensures reader.Valid()
    ensures var rest := old(reader.Rest()); var n := FirstLineLen(rest, NEWLINE);
            && line == CutLine(rest[..n], maxLine) && consumed == n
            && reader.Rest() == rest[n..] && reader.pos == old(reader.pos) + n
  {
    ghost var rest := reader.Rest();
    ghost var n := FirstLineLen(rest, NEWLINE);
    line := reader.ReadUntilNewline(maxLine);
    consumed := |line|;
    FirstLineShape(rest, NEWLINE);
    assert line != [] ==> line[|line| - 1] == rest[|line| - 1];
    if |line| == maxLine && line[|line| - 1] != NEWLINE {
      assert |line| < n || (|line| == |rest| && rest[|rest| - 1] != NEWLINE);
      FirstLineDrop(rest, |line|);
      var skipped := reader.SkipLine();
      consumed := consumed + skipped;
    }
  }

  /** The loop variables of the read loop. */
  class EntryMachine {
    var state: State
    var database: Option<Text>
    var entryBytes: nat

    function View(): Loop
      reads this
    {
      Loop(state, database, entryBytes)
    }

    constructor ()
      ensures View() == START
    {
      state := Idle;
      database := None;
      entryBytes := 0;
    }

    /** One line; the plan it completes, attributed to the database of the entry it belongs to. */
    method Feed(env: Env, lim: Limits, line: seq<byte>) returns (plans: seq<QueryPlan>)
      modifies this
      ensures (View(), plans) == Step(env, lim, old(View()), line)
    {
      if state.Idle? {
        entryBytes := 0;
      } else {
        entryBytes := entryBytes + |line|;
        if entryBytes > lim.maxEntry {
          state := Idle;
          entryBytes := 0;
        }
      }
      plans := [];
      match Classify(env, line) {
        case Header(head, newDatabase) =>
          plans := Attributed(Finalize(env, state), database);
          database := newDatabase;
          state := WaitingForQuery(head, []);
        case Boundary =>
          plans := Attributed(Finalize(env, state), database);
          state := Idle;
        case Blank =>
        case Continuation(text) =>
          var outcome := Advance(env, state, text);
          state := outcome.state;
          plans := Attributed(outcome.plan, database);
      }
    }
  }

  /** A plan is delivered only when nothing deliverable stays open. */
  lemma DeliverySettles(env: Env, lim: Limits, l: Loop, raw: seq<byte>)
    requires Step(env, lim, l, raw).1 != []
    ensures Finish(env, Step(env, lim, l, raw).0) == []
  {}

  /** What the rest of the input still delivers. */
  ghost function Pending(env: Env, lim: Limits, l: Loop, rest: seq<byte>): seq<QueryPlan> {
    RunToEnd(env, lim, l, CutLines(FileLines(rest), lim.maxLine))
  }

  lemma PendingStep(env: Env, lim: Limits, l: Loop, rest: seq<byte>)
    requires rest != []
    ensures var n := FirstLineLen(rest, NEWLINE);
            var (next, plans) := Step(env, lim, l, CutLine(rest[..n], lim.maxLine));
            Pending(env, lim, l, rest) == plans + Pending(env, lim, next, rest[n..])
  {
    RunToEndStep(env, lim, l, CutLines(FileLines(rest), lim.maxLine));
  }

  /**
   * Where completed plans go. A `Vec` is a sink without filter and cap;
   * `Grouping.QueryGrouper` makes exactly these transitions on its `View()`.
   */
  class PlanSink {
    var intake: Intake

    constructor (filter: Option<DateFilter>, maxPlans: nat)
      ensures intake == Intake(filter, maxPlans, [], false)
    {
      intake := Intake(filter, maxPlans, [], false);
    }

    predicate IsFull()
      reads this
    {
      intake.Full()
    }

    /** The plan of one iteration, if there is one. */
    method Accept(plans: seq<QueryPlan>)
      requires |plans| <= 1
      modifies this
      ensures intake == old(intake).OfferAll(plans)
    {
      if plans != [] {
        assert plans[1..] == [];
        intake := intake.Offer(plans[0]);
      }
    }

    method MarkTruncated()
      modifies this
      ensures intake == old(intake).(dropped := true)
    {
      intake := intake.(dropped := true);
    }
  }

  /** What the rest of the input delivers makes the sink take what the whole was to make it take. */
  ghost predicate OnTrack(env: Env, lim: Limits, l: Loop, rest: seq<byte>, k: Intake, goal: Intake) {
    && k.OfferAll(Pending(env, lim, l, rest)) == goal
    && (k.Full() ==> Finish(env, l) == [])
  }

  lemma OnTrackStep(env: Env, lim: Limits, l: Loop, rest: seq<byte>, k: Intake, goal: Intake)
    requires rest != [] && OnTrack(env, lim, l, rest, k, goal) && !k.Full()
    ensures var n := FirstLineLen(rest, NEWLINE);
            var (next, plans) := Step(env, lim, l, CutLine(rest[..n], lim.maxLine));
            OnTrack(env, lim, next, rest[n..], k.OfferAll(plans), goal) && k.OfferAll(plans).dropped == k.dropped
  {
    var n := FirstLineLen(rest, NEWLINE);
    var line := CutLine(rest[..n], lim.maxLine);
    var (next, plans) := Step(env, lim, l, line);
    PendingStep(env, lim, l, rest);
    OfferAllAppend(k, plans, Pending(env, lim, next, rest[n..]));
    if plans == [] {
    } else {
      DeliverySettles(env, lim, l, line);
      assert plans[1..] == [];
    }
  }

  lemma OnTrackStart(env: Env, lim: Limits, input: seq<byte>, k: Intake)
    ensures OnTrack(env, lim, START, input, k, k.OfferAll(Plans(env, lim, input)))
  {}

  /** A full sink has what it was to take, and misses a plan only if input is left. */
  lemma OnTrackFull(env: Env, lim: Limits, l: Loop, rest: seq<byte>, k: Intake, goal: Intake)
    requires OnTrack(env, lim, l, rest, k, goal) && k.Full()
    ensures Finish(env, l) == [] && k.taken == goal.taken && (goal.dropped ==> k.dropped || rest != [])
  {
    FullTakesNoMore(k, Pending(env, lim, l, rest));
  }

  /** With nothing left to read, only the open entry is still to come. */
  lemma OnTrackEnd(env: Env, lim: Limits, l: Loop, k: Intake, goal: Intake)
    requires OnTrack(env, lim, l, [], k, goal)
    ensures k.OfferAll(Finish(env, l)) == goal && goal.dropped == k.dropped
  {
    var open := Finish(env, l);
    assert Pending(env, lim, l, []) == open;
    assert open != [] ==> open[1..] == [];
  }

  /** Read a line, if there is one, and feed it to the machine. */
  method ReadPlans(reader: BufReader, machine: EntryMachine, env: Env, lim: Limits)
    returns (consumed: nat, plans: seq<QueryPlan>)
    requires reader.Valid() && lim.maxLine > 0
    modifies reader, machine
    ensures reader.Valid() && consumed == FirstLineLen(old(reader.Rest()), NEWLINE)
    ensures reader.pos == old(reader.pos) + consumed && reader.Rest() == old(reader.Rest())[consumed..]
    ensures |plans| <= 1
    ensures if consumed == 0 then plans == [] && machine.View() == old(machine.View())
            else (machine.View(), plans) ==
                 Step(env, lim, old(machine.View()), CutLine(old(reader.Rest())[..consumed], lim.maxLine))
  {
    var line;
    line, consumed := NextLine(reader, lim.maxLine);
    plans := [];
    if |line| > 0 {
      plans := machine.Feed(env, lim, line);
    }
  }

  /** One iteration: the plan a line completes is delivered. */
  method ReadAndFeed(reader: BufReader, machine: EntryMachine, env: Env, lim: Limits, sink: PlanSink, ghost goal: Intake)
    returns (consumed: nat)
    requires reader.Valid() && lim.maxLine > 0 && !sink.IsFull()
    requires OnTrack(env, lim, machine.View(), reader.Rest(), sink.intake, goal)
    modifies reader, machine, sink
    ensures reader.Valid() && reader.pos == old(reader.pos) + consumed
    ensures consumed == 0 <==> old(reader.Rest()) == []
    ensures consumed == 0 ==> reader.Rest() == []
    ensures OnTrack(env, lim, machine.View(), reader.Rest(), sink.intake, goal)
    ensures sink.intake.dropped == old(sink.intake.dropped)
  {
    ghost var rest, before := reader.Rest(), machine.View();
    var plans;
    consumed, plans := ReadPlans(reader, machine, env, lim);
    if consumed > 0 {
      OnTrackStep(env, lim, before, rest, sink.intake, goal);
      sink.Accept(plans);
    }
  }

  /** A full sink looks once more whether there is input. */
  method NoteUnread(reader: BufReader, sink: PlanSink)
    requires reader.Valid()
    modifies reader, sink
    ensures reader.Valid() && reader.pos == old(reader.pos) && reader.Rest() == old(reader.Rest())
    ensures sink.intake == old(sink.intake).(dropped := old(sink.intake.dropped) || reader.Rest() != [])
  {
    var pending := reader.FillBuf();
    if pending != [] {
      sink.MarkTruncated();
    }
  }

  /** The read loop. */
  method ReadUntilFull(reader: BufReader, machine: EntryMachine, env: Env, lim: Limits, sink: PlanSink, ghost goal: Intake)
    returns (bytes: nat)
    requires reader.Valid() && lim.maxLine > 0
    requires OnTrack(env, lim, machine.View(), reader.Rest(), sink.intake, goal)
    modifies reader, machine, sink
    ensures reader.Valid() && bytes == reader.pos - old(reader.pos)
    ensures reader.Rest() == [] ==>
              OnTrack(env, lim, machine.View(), [], sink.intake, goal) && sink.intake.dropped == old(sink.intake.dropped)
    ensures reader.Rest() != [] ==>
              sink.IsFull() && sink.intake.dropped && sink.intake.taken == goal.taken && Finish(env, machine.View()) == []
  {
    bytes := 0;
    while true
      invariant reader.Valid() && bytes == reader.pos - old(reader.pos)
      invariant OnTrack(env, lim, machine.View(), reader.Rest(), sink.intake, goal)
      invariant sink.intake.dropped == old(sink.intake.dropped)
      decreases |reader.data| - reader.pos
    {
      if sink.IsFull() {
        OnTrackFull(env, lim, machine.View(), reader.Rest(), sink.intake, goal);
        NoteUnread(reader, sink);
        break;
      }
      var consumed := ReadAndFeed(reader, machine, env, lim, sink, goal);
      if consumed == 0 {
        break;
      }
      bytes := bytes + consumed;
    }
  }

  /**
   * Parse what is left in `reader` into `sink`. The sink ends with what it
   * would have taken of all the plans, although reading stops once it is
   * full; `dropped` is reported exactly when input was left unread, and never
   * missing when a plan was lost.
   */
  method ParseIntoSink(reader: BufReader, env: Env, lim: Limits, sink: PlanSink) returns (bytes: nat)
    requires reader.Valid() && lim.maxLine > 0
    modifies reader, sink
    ensures reader.Valid() && bytes == reader.pos - old(reader.pos)
    ensures var goal := old(sink.intake).OfferAll(Plans(env, lim, old(reader.Rest())));
            sink.intake.taken == goal.taken && (goal.dropped ==> sink.intake.dropped)
    ensures sink.intake.dropped <==> old(sink.intake.dropped) || reader.Rest() != []
    ensures reader.Rest() != [] ==> sink.IsFull()
  {
    ghost var goal := sink.intake.OfferAll(Plans(env, lim, reader.Rest()));
    OnTrackStart(env, lim, reader.Rest(), sink.intake);
    var machine := new EntryMachine();
    bytes := ReadUntilFull(reader, machine, env, lim, sink, goal);
    if reader.Rest() == [] {
      OnTrackEnd(env, lim, machine.View(), sink.intake, goal);
    }
    sink.Accept(Finish(env, machine.View()));
  }
}
