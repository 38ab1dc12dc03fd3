/** A parse of a log is its entries, one by one, and each delivers the plan its lines say. */
module EntryLaws {
  import opened Common
  import opened Lines
  import opened Timestamp
  import opened EntryState
  import opened LogParser
  import opened JsonShape
  import opened Entries

  /** The plan, if there is one, with the header's database. */
  function Delivered(plan: Option<QueryPlan>, database: Option<Text>): seq<QueryPlan> {
    match plan
    case None => []
    case Some(p) => [QueryPlan(p.queryText, database, p.timestamp, p.duration, p.rawPlan)]
  }

  lemma AttributedIsDelivered(plan: Option<QueryPlan>, database: Option<Text>)
    ensures Attributed(plan, database) == Delivered(plan, database)
  {}

  // ---- The lines of one entry ----

  lemma DeliveringIdles(env: Env, s: State, line: Text)
    ensures Advance(env, s, line).plan.Some? ==> Advance(env, s, line).state.Idle?
  {}

  /** A line that belongs to what is open: nothing, if it is blank. */
  lemma UndatedStep(env: Env, lim: Limits, l: Loop, raw: seq<byte>)
    requires !Dated(env, raw) && !Overflows(lim, l, |raw|)
    ensures var (next, plans) := Step(env, lim, l, raw);
            && next.database == l.database
            && if AllSpace(env.unicode, TextOf(env, raw)) then next.state == l.state && plans == []
               else var o := Advance(env, l.state, TextOf(env, raw));
                    next.state == o.state && plans == Delivered(o.plan, l.database)
  {
    KindOf(env, raw);
    if !AllSpace(env.unicode, TextOf(env, raw)) {
      StepContinuation(env, lim, l, raw, TextOf(env, raw));
    }
  }

  lemma {:induction false} UndatedRun(env: Env, lim: Limits, l: Loop, raws: seq<seq<byte>>)
    requires Undated(env, raws) && !Discards(env, lim, l, raws)
    ensures RunToEnd(env, lim, l, raws) == Delivered(Fold(env, l.state, Texts(env, raws)), l.database)
    decreases |raws|
  {
    if raws != [] {
      var next := Step(env, lim, l, raws[0]).0;
      var text, rest := TextOf(env, raws[0]), Texts(env, raws[1..]);
      DiscardsStep(env, lim, l, raws);
      RunToEndStep(env, lim, l, raws);
      UndatedStep(env, lim, l, raws[0]);
      UndatedRun(env, lim, next, raws[1..]);
      if !AllSpace(env.unicode, text) {
        FoldCons(env, l.state, text, rest);
        DeliveringIdles(env, l.state, text);
        FoldIdle(env, rest);
      } else {
        assert [] + rest == rest;
      }
    }
  }

  lemma {:induction false} TextsNotBlank(env: Env, raws: seq<seq<byte>>)
    ensures NotBlank(env.unicode, Texts(env, raws))
    decreases |raws|
  {
    if raws != [] {
      TextsNotBlank(env, raws[1..]);
    }
  }

  // ---- Entries ----

  /** A timestamped line and the undated lines behind it. */
  datatype Entry =
    | Explained(raw: seq<byte>, lines: seq<seq<byte>>, head: Head, database: Option<Text>, reading: Reading)
    | Other(raw: seq<byte>, lines: seq<seq<byte>>)

  /** A plan header and lines so read; or any other timestamped line. */
  predicate IsEntry(env: Env, e: Entry) {
    Undated(env, e.lines) &&
    match e
    case Explained(raw, lines, head, database, reading) =>
      IsHeader(env, raw, head, database) && Texts(env, lines) == LinesOf(reading) && Right(env, head, false, [], reading)
    case Other(raw, _) => Dated(env, raw) && !Explains(env, raw)
  }

  function PlansOfEntry(env: Env, e: Entry): seq<QueryPlan> {
    if e.Explained? then Delivered(PlanOf(env, e.head, [], e.reading), e.database) else []
  }

  function LinesOfAll(es: seq<Entry>): seq<seq<byte>>
    decreases |es|
  {
    if es == [] then [] else ([es[0].raw] + es[0].lines) + LinesOfAll(es[1..])
  }

  function PlansOfAll(env: Env, es: seq<Entry>): seq<QueryPlan>
    decreases |es|
  {
    if es == [] then [] else PlansOfEntry(env, es[0]) + PlansOfAll(env, es[1..])
  }

  lemma DatedStep(env: Env, lim: Limits, l: Loop, e: Entry)
    requires IsEntry(env, e) && !Overflows(lim, l, |e.raw|)
    ensures var (next, plans) := Step(env, lim, l, e.raw);
            && plans == Finish(env, l)
            && if e.Explained? then next.state == WaitingForQuery(e.head, []) && next.database == e.database
               else next.state.Idle?
  {
    KindOf(env, e.raw);
    assert e.Explained? ==> Classify(env, e.raw) == Header(e.head, e.database);
  }

  /** An entry closes what is open, and delivers its own plan. */
  lemma EntryRun(env: Env, lim: Limits, l: Loop, e: Entry)
    requires IsEntry(env, e) && !Discards(env, lim, l, [e.raw] + e.lines)
    ensures RunToEnd(env, lim, l, [e.raw] + e.lines) == Finish(env, l) + PlansOfEntry(env, e)
  {
    var all := [e.raw] + e.lines;
    assert all[1..] == e.lines;
    DiscardsStep(env, lim, l, all);
    RunToEndStep(env, lim, l, all);
    DatedStep(env, lim, l, e);
    var next := Step(env, lim, l, e.raw).0;
    UndatedRun(env, lim, next, e.lines);
    if e.Explained? {
      TextsNotBlank(env, e.lines);
      ReadingIsDelivered(env, e.head, false, [], e.reading);
    } else {
      FoldIdle(env, Texts(env, e.lines));
    }
  }

  lemma {:induction false} EntriesRun(env: Env, lim: Limits, l: Loop, es: seq<Entry>)
    requires (forall i :: 0 <= i < |es| ==> IsEntry(env, es[i])) && !Discards(env, lim, l, LinesOfAll(es))
    ensures RunToEnd(env, lim, l, LinesOfAll(es)) == Finish(env, l) + PlansOfAll(env, es)
    decreases |es|
  {
    if es != [] {
      var a, b := [es[0].raw] + es[0].lines, LinesOfAll(es[1..]);
      var mid := Run(env, lim, l, a).0;
      DiscardsAppend(env, lim, l, a, b);
      RunToEndAppend(env, lim, l, a, b);
      EntryRun(env, lim, l, es[0]);
      EntriesRun(env, lim, mid, es[1..]);
      Assoc(Run(env, lim, l, a).1, Finish(env, mid), PlansOfAll(env, es[1..]));
      Assoc(Finish(env, l), PlansOfEntry(env, es[0]), PlansOfAll(env, es[1..]));
    }
  }

  /** An input is undated lines and entries, cut to the line cap. */
  predicate MadeOf(env: Env, lim: Limits, input: seq<byte>, first: seq<seq<byte>>, es: seq<Entry>) {
    && CutLines(FileLines(input), lim.maxLine) == first + LinesOfAll(es)
    && Undated(env, first)
    && forall i :: 0 <= i < |es| ==> IsEntry(env, es[i])
  }

  /**
   * A parse delivers the plans of the input's entries, in order, each as its
   * own lines read, if the entry cap throws nothing away.
   */
  lemma PlansAreEntries(env: Env, lim: Limits, input: seq<byte>, first: seq<seq<byte>>, es: seq<Entry>)
    requires MadeOf(env, lim, input, first, es) && Intact(env, lim, input)
    ensures Plans(env, lim, input) == PlansOfAll(env, es)
  {
    var mid := Run(env, lim, START, first).0;
    DiscardsAppend(env, lim, START, first, LinesOfAll(es));
    RunToEndAppend(env, lim, START, first, LinesOfAll(es));
    UndatedRun(env, lim, START, first);
    FoldIdle(env, Texts(env, first));
    EntriesRun(env, lim, mid, es);
  }

  // ---- Every input is made of entries ----

  lemma {:induction false} LinesMakeEntries(env: Env, lines: seq<seq<byte>>) returns (first: seq<seq<byte>>, es: seq<Entry>)
    ensures lines == first + LinesOfAll(es) && Undated(env, first)
    ensures forall i :: 0 <= i < |es| ==> IsEntry(env, es[i])
    decreases |lines|
  {
    first, es := [], [];
    if lines != [] {
      var rest;
      rest, es := LinesMakeEntries(env, lines[1..]);
      assert lines == [lines[0]] + lines[1..];
      if Dated(env, lines[0]) {
        var e := LineMakesEntry(env, lines[0], rest);
        OneMoreEntry(env, e, es);
        Assoc([e.raw], e.lines, LinesOfAll(es));
        es := [e] + es;
      } else {
        first := [lines[0]] + rest;
        Assoc([lines[0]], rest, LinesOfAll(es));
      }
    }
  }

  lemma OneMoreEntry(env: Env, e: Entry, es: seq<Entry>)
    requires IsEntry(env, e) && forall i :: 0 <= i < |es| ==> IsEntry(env, es[i])
    ensures LinesOfAll([e] + es) == ([e.raw] + e.lines) + LinesOfAll(es)
    ensures forall i :: 0 <= i < |[e] + es| ==> IsEntry(env, ([e] + es)[i])
  {
    assert ([e] + es)[1..] == es;
  }

  lemma LineMakesEntry(env: Env, raw: seq<byte>, lines: seq<seq<byte>>) returns (e: Entry)
    requires Dated(env, raw) && Undated(env, lines)
    ensures IsEntry(env, e) && e.raw == raw && e.lines == lines
  {
    if Explains(env, raw) {
      var head, database := HeaderOf(env, raw);
      var r := EveryEntryReads(env, head, false, [], Texts(env, lines));
      e := Explained(raw, lines, head, database, r);
    } else {
      e := Other(raw, lines);
    }
  }

  /** Whatever the bytes are, they are made of entries. */
  lemma EveryInputReads(env: Env, lim: Limits, input: seq<byte>) returns (first: seq<seq<byte>>, es: seq<Entry>)
    ensures MadeOf(env, lim, input, first, es)
  {
    first, es := LinesMakeEntries(env, CutLines(FileLines(input), lim.maxLine));
  }

  // ---- The plain cases ----

  /** What comes first behind a header: lines that are passed over, and the query, if it has a line of its own. */
  datatype Lead = Lead(skipped: seq<Text>, ask: Option<Text>, query: seq<Text>)

  predicate LeadRight(env: Env, lead: Lead) {
    var u := env.unicode;
    && (forall i :: 0 <= i < |lead.skipped| ==> !AsksFor(u, lead.skipped[i]) && !Opens(u, lead.skipped[i]))
    && (if lead.ask.None? then lead.query == [] else AsksFor(u, lead.ask.value))
    && (forall i :: 0 <= i < |lead.query| ==> !Opens(u, lead.query[i]) && !IsNode(env, lead.query[i]))
  }

  function LeadLines(lead: Lead): seq<Text> {
    lead.skipped + (if lead.ask.None? then [] else [lead.ask.value] + lead.query)
  }

  /** The query's first line behind `Query Text:`, and the others as they are, newlines between them. */
  function LeadQuery(env: Env, lead: Lead): Text
    requires LeadRight(env, lead)
  {
    if lead.ask.None? then [] else Extended(Asked(env.unicode, lead.ask.value), lead.query)
  }

  lemma {:induction false} QueryReads(env: Env, head: Head, query: Text, lines: seq<Text>, tail: Reading) returns (r: Reading)
    requires forall i :: 0 <= i < |lines| ==> lines[i] != [] && !Opens(env.unicode, lines[i]) && !IsNode(env, lines[i])
    requires Right(env, head, true, Extended(query, lines), tail)
    ensures Right(env, head, true, query, r) && LinesOf(r) == lines + LinesOf(tail)
    ensures PlanOf(env, head, query, r) == PlanOf(env, head, Extended(query, lines), tail)
    decreases |lines|
  {
    if lines == [] {
      ExtendedByNone(query, lines);
      r := tail;
      assert lines + LinesOf(tail) == LinesOf(tail);
    } else {
      var line, rest := lines[0], lines[1..];
      assert lines == [line] + rest;
      ExtendedStep(query, line, rest);
      ExtendedOne(query, line);
      r := QueryReads(env, head, Extended(query, [line]), rest, tail);
      r := QueryLine(line, r);
      Assoc([line], rest, LinesOf(tail));
    }
  }

  lemma {:induction false} SkippedReads(env: Env, head: Head, lines: seq<Text>, tail: Reading) returns (r: Reading)
    requires forall i :: 0 <= i < |lines| ==> !AsksFor(env.unicode, lines[i]) && !Opens(env.unicode, lines[i])
    requires Right(env, head, false, [], tail)
    ensures Right(env, head, false, [], r) && LinesOf(r) == lines + LinesOf(tail)
    ensures PlanOf(env, head, [], r) == PlanOf(env, head, [], tail)
    decreases |lines|
  {
    if lines == [] {
      r := tail;
      assert lines + LinesOf(tail) == LinesOf(tail);
    } else {
      r := SkippedReads(env, head, lines[1..], tail);
      r := Skipped(lines[0], r);
      assert lines == [lines[0]] + lines[1..];
      Assoc([lines[0]], lines[1..], LinesOf(tail));
    }
  }

  lemma AskReads(env: Env, head: Head, ask: Text, query: seq<Text>, tail: Reading) returns (r: Reading)
    requires AsksFor(env.unicode, ask)
    requires forall i :: 0 <= i < |query| ==> query[i] != [] && !Opens(env.unicode, query[i]) && !IsNode(env, query[i])
    requires Right(env, head, true, Extended(Asked(env.unicode, ask), query), tail)
    ensures Right(env, head, false, [], r) && LinesOf(r) == ([ask] + query) + LinesOf(tail)
    ensures PlanOf(env, head, [], r) == PlanOf(env, head, Extended(Asked(env.unicode, ask), query), tail)
  {
    r := QueryReads(env, head, Asked(env.unicode, ask), query, tail);
    r := QueryText(ask, r);
    Assoc([ask], query, LinesOf(tail));
  }

  lemma LeadReads(env: Env, head: Head, lead: Lead, tail: Reading) returns (r: Reading)
    requires LeadRight(env, lead) && NotBlank(env.unicode, lead.query)
    requires Right(env, head, lead.ask.Some?, LeadQuery(env, lead), tail)
    ensures Right(env, head, false, [], r) && LinesOf(r) == LeadLines(lead) + LinesOf(tail)
    ensures PlanOf(env, head, [], r) == PlanOf(env, head, LeadQuery(env, lead), tail)
  {
    if lead.ask.Some? {
      r := AskReads(env, head, lead.ask.value, lead.query, tail);
      Assoc(lead.skipped, [lead.ask.value] + lead.query, LinesOf(tail));
    } else {
      r := tail;
      assert LeadLines(lead) == lead.skipped;
    }
    r := SkippedReads(env, head, lead.skipped, r);
  }

  /**
   * `input` is a plan header and undated lines with these texts; `rest` is
   * nothing or starts an entry; the caps leave both alone.
   */
  predicate OneEntry(
    env: Env, lim: Limits, input: seq<byte>, rest: seq<byte>, head: Head, database: Option<Text>, texts: seq<Text>)
  {
    var lines := CutLines(FileLines(input), lim.maxLine);
    && lines != [] && IsHeader(env, lines[0], head, database)
    && Undated(env, lines[1..]) && Texts(env, lines[1..]) == texts
    && TS_CORE_LEN <= lim.maxLine && LineStart(input + rest, NEWLINE, |input|) && StartsEntry(rest)
    && Intact(env, lim, input + rest)
  }

  /** An entry delivers the plan its lines say, whatever follows. */
  lemma EntryThenRest(
    env: Env, lim: Limits, input: seq<byte>, rest: seq<byte>, head: Head, database: Option<Text>, lead: Lead, tail: Reading)
    requires OneEntry(env, lim, input, rest, head, database, LeadLines(lead) + LinesOf(tail))
    requires LeadRight(env, lead) && Right(env, head, lead.ask.Some?, LeadQuery(env, lead), tail)
    ensures Plans(env, lim, input + rest)
         == Delivered(PlanOf(env, head, LeadQuery(env, lead), tail), database) + Plans(env, lim, rest)
  {
    var lines := CutLines(FileLines(input), lim.maxLine);
    TextsNotBlank(env, lines[1..]);
    LeadNotBlank(env, lead, LinesOf(tail));
    var r := LeadReads(env, head, lead, tail);
    SplitIntact(env, lim, input, rest);
    assert lines == [lines[0]] + lines[1..];
    AloneReads(env, lim, input, Explained(lines[0], lines[1..], head, database, r));
  }

  lemma SplitIntact(env: Env, lim: Limits, input: seq<byte>, rest: seq<byte>)
    requires TS_CORE_LEN <= lim.maxLine && Intact(env, lim, input + rest)
    requires LineStart(input + rest, NEWLINE, |input|) && StartsEntry(rest)
    ensures Intact(env, lim, input) && Plans(env, lim, input + rest) == Plans(env, lim, input) + Plans(env, lim, rest)
  {
    IntactSlices(env, lim, input, rest);
    SplitLaw(env, lim, input, rest);
  }

  lemma AloneReads(env: Env, lim: Limits, input: seq<byte>, e: Entry)
    requires IsEntry(env, e) && CutLines(FileLines(input), lim.maxLine) == [e.raw] + e.lines && Intact(env, lim, input)
    ensures Plans(env, lim, input) == PlansOfEntry(env, e)
  {
    var none: seq<QueryPlan> := [];
    EntryRun(env, lim, START, e);
    assert Finish(env, START) == none && none + PlansOfEntry(env, e) == PlansOfEntry(env, e);
  }

  lemma LeadNotBlank(env: Env, lead: Lead, tail: seq<Text>)
    requires NotBlank(env.unicode, LeadLines(lead) + tail) && LeadRight(env, lead)
    ensures NotBlank(env.unicode, lead.query) && NotBlank(env.unicode, tail)
  {
    var u := env.unicode;
    NotBlankParts(u, LeadLines(lead), tail);
    if lead.ask.Some? {
      NotBlankParts(u, lead.skipped, [lead.ask.value] + lead.query);
      NotBlankParts(u, [lead.ask.value], lead.query);
    }
  }

  /**
   * A text entry: the query's lines, then a node line, then anything undated.
   * One plan is delivered, if the plan lines make one: of the whole query and
   * all plan lines.
   */
  lemma TextEntryLaw(
    env: Env, lim: Limits, input: seq<byte>, rest: seq<byte>, head: Head, database: Option<Text>, lead: Lead, plan: seq<Text>)
    requires OneEntry(env, lim, input, rest, head, database, LeadLines(lead) + plan)
    requires LeadRight(env, lead) && lead.ask.Some?
    requires plan != [] && !Opens(env.unicode, plan[0]) && IsNode(env, plan[0])
    ensures Plans(env, lim, input + rest)
         == Delivered(env.textPlan(head, LeadQuery(env, lead), plan), database) + Plans(env, lim, rest)
  {
    EntryThenRest(env, lim, input, rest, head, database, lead, TextPlan(plan));
  }

  /**
   * A JSON entry: an object or array, trimmed and cut into lines anywhere, that
   * is a plan document. Its plan is delivered, and what follows is ignored.
   */
  lemma JsonEntryLaw(
    env: Env, lim: Limits, input: seq<byte>, rest: seq<byte>, head: Head, database: Option<Text>, lead: Lead,
    doc: seq<Text>, square: bool, inner: Doc, ignored: seq<Text>)
    requires OneEntry(env, lim, input, rest, head, database, LeadLines(lead) + (doc + ignored)) && LeadRight(env, lead)
    requires WellFormed(inner) && Flatten(Trimmed(env.unicode, doc)) == Bracketed(square, inner)
    requires env.jsonPlan(head, LeadQuery(env, lead), Trimmed(env.unicode, doc)).0.Some?
    ensures Plans(env, lim, input + rest)
         == Delivered(env.jsonPlan(head, LeadQuery(env, lead), Trimmed(env.unicode, doc)).0, database)
            + Plans(env, lim, rest)
  {
    TextsNotBlank(env, CutLines(FileLines(input), lim.maxLine)[1..]);
    LeadNotBlank(env, lead, doc + ignored);
    NotBlankParts(env.unicode, doc, ignored);
    BracketedIsDocument(env.unicode, doc, square, inner);
    EntryThenRest(env, lim, input, rest, head, database, lead, JsonPlan(doc, ignored));
  }

  /** A JSON entry that breaks off: what is there is tried as a plan. */
  lemma OpenJsonEntryLaw(
    env: Env, lim: Limits, input: seq<byte>, rest: seq<byte>, head: Head, database: Option<Text>, lead: Lead,
    doc: seq<Text>, square: bool, inner: Doc, missing: Text)
    requires OneEntry(env, lim, input, rest, head, database, LeadLines(lead) + doc) && LeadRight(env, lead)
    requires doc != [] && missing != []
    requires WellFormed(inner) && Flatten(Trimmed(env.unicode, doc)) + missing == Bracketed(square, inner)
    ensures Plans(env, lim, input + rest)
         == Delivered(env.jsonPlan(head, LeadQuery(env, lead), Trimmed(env.unicode, doc)).0, database)
            + Plans(env, lim, rest)
  {
    TextsNotBlank(env, CutLines(FileLines(input), lim.maxLine)[1..]);
    LeadNotBlank(env, lead, doc);
    BracketedStaysOpen(env.unicode, doc, square, inner, missing);
    EntryThenRest(env, lim, input, rest, head, database, lead, JsonOpen(doc));
  }
}
