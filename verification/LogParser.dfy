/**
 * The parse of a log as a fold over its lines: line and entry caps, the entry
 * state machine, database attribution.
 */
module LogParser {
  import opened Common
  import opened Lines
  import opened Utf8
  import opened Unicode
  import opened Regex
  import opened Timestamp
  import opened EntryState

  datatype Limits = Limits(maxLine: nat, maxEntry: nat)

  /** What the read loop carries from line to line. */
  datatype Loop = Loop(state: State, database: Option<Text>, entryBytes: nat)

  const START: Loop := Loop(Idle, None, 0)

  datatype LineKind =
    | Header(head: Head, database: Option<Text>)
    | Boundary
    | Continuation(text: Text)
    | Blank

  function Classify(env: Env, raw: seq<byte>): LineKind {
    var u := env.unicode;
    var line := TrimEnd(u, Decode(raw));
    DecodeIsText(raw);
    TrimEndPrefix(u, Decode(raw));
    match SplitLogLine(u, line)
    case None => if Trim(u, line) == [] then Blank else Continuation(line)
    case Some((stamp, message)) =>
      match env.planDuration(message)
      case None => Boundary
      case Some(duration) =>
        match env.timestamp(stamp)
        case None => Boundary
        case Some(timestamp) => Header(Head(timestamp, duration), env.database(message))
  }

  /** Entry accounting, before the line is looked at. */
  function Account(lim: Limits, l: Loop, bytes: nat): Loop {
    if l.state.Idle? then l.(entryBytes := 0)
    else if l.entryBytes + bytes > lim.maxEntry then Loop(Idle, l.database, 0)
    else l.(entryBytes := l.entryBytes + bytes)
  }

  function Attributed(plan: Option<QueryPlan>, database: Option<Text>): seq<QueryPlan> {
    match plan
    case None => []
    case Some(p) => [p.(database := database)]
  }

  /** One iteration of the read loop: the next loop state and the plan it delivers, if any. */
  function Step(env: Env, lim: Limits, before: Loop, raw: seq<byte>): (r: (Loop, seq<QueryPlan>))
    ensures |r.1| <= 1
  {
    var l := Account(lim, before, |raw|);
    match Classify(env, raw)
    case Header(head, database) =>
      (Loop(WaitingForQuery(head, []), database, l.entryBytes), Attributed(Finalize(env, l.state), l.database))
    case Boundary =>
      (Loop(Idle, l.database, l.entryBytes), Attributed(Finalize(env, l.state), l.database))
    case Blank => (l, [])
    case Continuation(line) =>
      var o := Advance(env, l.state, line);
      (Loop(o.state, l.database, l.entryBytes), Attributed(o.plan, l.database))
  }

  function Run(env: Env, lim: Limits, l: Loop, lines: seq<seq<byte>>): (Loop, seq<QueryPlan>)
    decreases |lines|
  {
    if lines == [] then (l, [])
    else
      var (next, plan) := Step(env, lim, l, lines[0]);
      var (last, plans) := Run(env, lim, next, lines[1..]);
      (last, plan + plans)
  }

  /** The plan still open when the input ends. */
  function Finish(env: Env, l: Loop): seq<QueryPlan> {
    Attributed(Finalize(env, l.state), l.database)
  }

  function CutLine(line: seq<byte>, cap: nat): seq<byte> {
    line[..Min(|line|, cap)]
  }

  /** Lines as the capped reader delivers them. */
  function CutLines(lines: seq<seq<byte>>, cap: nat): seq<seq<byte>>
    decreases |lines|
  {
    if lines == [] then [] else [CutLine(lines[0], cap)] + CutLines(lines[1..], cap)
  }

  function RunToEnd(env: Env, lim: Limits, l: Loop, lines: seq<seq<byte>>): seq<QueryPlan> {
    var (last, plans) := Run(env, lim, l, lines);
    plans + Finish(env, last)
  }

  /** A line longer than the cap keeps its first bytes, as many as the cap; others are kept whole. */
  lemma CutLineKeeps(line: seq<byte>, cap: nat)
    ensures CutLine(line, cap) <= line
    ensures if |line| <= cap then CutLine(line, cap) == line else |CutLine(line, cap)| == cap
  {
    if |line| <= cap {
      assert line[..|line|] == line;
    }
  }

  lemma {:induction false} CutLinesShort(lines: seq<seq<byte>>, cap: nat)
    requires forall k :: 0 <= k < |lines| ==> |lines[k]| <= cap
    ensures CutLines(lines, cap) == lines
    decreases |lines|
  {
    if lines != [] {
      CutLinesShort(lines[1..], cap);
      assert |lines[0]| <= cap && CutLine(lines[0], cap) == lines[0];
    }
  }

  /** Everything one parse of `input` delivers, in order. */
  function Plans(env: Env, lim: Limits, input: seq<byte>): seq<QueryPlan> {
    RunToEnd(env, lim, START, CutLines(FileLines(input), lim.maxLine))
  }

  // ---- Folding ----

  lemma {:induction false} RunAppend(env: Env, lim: Limits, l: Loop, a: seq<seq<byte>>, b: seq<seq<byte>>)
    ensures var (mid, ps) := Run(env, lim, l, a);
            var (last, qs) := Run(env, lim, mid, b);
            Run(env, lim, l, a + b) == (last, ps + qs)
    decreases |a|
  {
    if a == [] {
      var qs := Run(env, lim, l, b).1;
      assert a + b == b && [] + qs == qs;
    } else {
      HeadTail(a, b);
      var (next, plan) := Step(env, lim, l, a[0]);
      RunAppend(env, lim, next, a[1..], b);
      var (mid, ps) := Run(env, lim, next, a[1..]);
      Assoc(plan, ps, Run(env, lim, mid, b).1);
    }
  }

  lemma {:induction false} CutLinesAppend(a: seq<seq<byte>>, b: seq<seq<byte>>, cap: nat)
    ensures CutLines(a + b, cap) == CutLines(a, cap) + CutLines(b, cap)
    decreases |a|
  {
    if a == [] {
      assert a + b == b;
    } else {
      HeadTail(a, b);
      CutLinesAppend(a[1..], b, cap);
      Assoc([CutLine(a[0], cap)], CutLines(a[1..], cap), CutLines(b, cap));
    }
  }

  function TotalBytes(lines: seq<seq<byte>>): nat
    decreases |lines|
  {
    if lines == [] then 0 else |lines[0]| + TotalBytes(lines[1..])
  }

  lemma {:induction false} TotalBytesIsLength(lines: seq<seq<byte>>)
    ensures TotalBytes(lines) == |Flatten(lines)|
    decreases |lines|
  {
    if lines != [] {
      TotalBytesIsLength(lines[1..]);
    }
  }

  lemma {:induction false} TotalBytesAppend(a: seq<seq<byte>>, b: seq<seq<byte>>)
    ensures TotalBytes(a + b) == TotalBytes(a) + TotalBytes(b)
    decreases |a|
  {
    if a == [] {
      assert a + b == b;
    } else {
      HeadTail(a, b);
      TotalBytesAppend(a[1..], b);
    }
  }

  lemma {:induction false} CutLinesShrink(lines: seq<seq<byte>>, cap: nat)
    ensures TotalBytes(CutLines(lines, cap)) <= TotalBytes(lines)
    decreases |lines|
  {
    if lines != [] {
      CutLinesShrink(lines[1..], cap);
      assert CutLines(lines, cap)[1..] == CutLines(lines[1..], cap);
    }
  }

  lemma StepContinuation(env: Env, lim: Limits, l: Loop, raw: seq<byte>, line: Text)
    requires Classify(env, raw) == Continuation(line)
    ensures var a := Account(lim, l, |raw|);
            var o := Advance(env, a.state, line);
            Step(env, lim, l, raw) == (Loop(o.state, a.database, a.entryBytes), Attributed(o.plan, a.database))
  {}

  lemma StepBytes(env: Env, lim: Limits, l: Loop, raw: seq<byte>)
    ensures Step(env, lim, l, raw).0.entryBytes == Account(lim, l, |raw|).entryBytes
  {}

  /** The entry counter never outruns the bytes read, nor the cap. */
  lemma {:induction false} EntryBytesBounded(env: Env, lim: Limits, l: Loop, lines: seq<seq<byte>>)
    requires l.entryBytes <= lim.maxEntry
    ensures Run(env, lim, l, lines).0.entryBytes <= l.entryBytes + TotalBytes(lines)
    ensures Run(env, lim, l, lines).0.entryBytes <= lim.maxEntry
    decreases |lines|
  {
    if lines != [] {
      StepBytes(env, lim, l, lines[0]);
      var next := Step(env, lim, l, lines[0]).0;
      EntryBytesBounded(env, lim, next, lines[1..]);
      assert Run(env, lim, l, lines).0 == Run(env, lim, next, lines[1..]).0;
    }
  }

  // ---- Lines that start an entry ----

  lemma {:induction false} TrimEndKeeps(u: Tables, t: Text, i: nat)
    requires i < |t| && !IsSpace(u, t[i])
    ensures i < |TrimEnd(u, t)|
    decreases |t|
  {
    if IsSpace(u, t[|t| - 1]) {
      TrimEndKeeps(u, t[..|t| - 1], i);
    }
  }

  /** An ASCII timestamp survives decoding and trimming. */
  lemma CoreSurvives(u: Tables, raw: seq<byte>)
    requires IsLogLineStart(raw)
    ensures var line := TrimEnd(u, Decode(raw));
            TS_CORE_LEN <= |line| && forall j :: 0 <= j < TS_CORE_LEN ==> raw[j] == line[j] && IsAscii(line[j])
  {
    var p, r := raw[..TS_CORE_LEN], raw[TS_CORE_LEN..];
    assert raw == p + r;
    DecodeAsciiPrefix(p, r);
    var t := Decode(raw);
    assert In(ASCII_ONLY, TS_SHAPE[18], raw[0 + 18]);
    assert t[18] == p[18] == raw[18];
    TrimEndPrefix(u, t);
    TrimEndKeeps(u, t, 18);
    forall j | 0 <= j < TS_CORE_LEN ensures raw[j] == t[j] && IsAscii(t[j]) {
      assert raw[j] == p[j];
    }
  }

  /** What the boundary scans call a line start, the parser never takes for a continuation. */
  lemma LogLineStartSplits(env: Env, raw: seq<byte>)
    requires IsLogLineStart(raw)
    ensures Classify(env, raw).Header? || Classify(env, raw).Boundary?
  {
    var u := env.unicode;
    CoreSurvives(u, raw);
    DecodeIsText(raw);
    TrimEndPrefix(u, Decode(raw));
    var line := TrimEnd(u, Decode(raw));
    ShapeIsAscii(u, line, raw);
    CoreDecides(u, line);
    SplitLogLineIsRegex(u, line);
  }

  /** Cutting a line to 19 octets or more leaves the decision alone. */
  lemma CutLineStart(line: seq<byte>, cap: nat)
    requires TS_CORE_LEN <= cap
    ensures IsLogLineStart(CutLine(line, cap)) <==> IsLogLineStart(line)
  {
    var cut := CutLine(line, cap);
    if |line| >= TS_CORE_LEN {
      assert cut[..TS_CORE_LEN] == line[..TS_CORE_LEN];
      forall j | 0 <= j < TS_CORE_LEN
        ensures In(ASCII_ONLY, TS_SHAPE[j], cut[0 + j]) <==> In(ASCII_ONLY, TS_SHAPE[j], line[0 + j])
      {
        assert cut[j] == line[j];
      }
    }
  }

  // ---- The entry cap ----

  /** The cap throws away the entry that is open when this line is met. */
  predicate Overflows(lim: Limits, l: Loop, bytes: nat) {
    !l.state.Idle? && l.entryBytes + bytes > lim.maxEntry
  }

  /** Whether the cap throws an entry away at some line. */
  predicate Discards(env: Env, lim: Limits, l: Loop, lines: seq<seq<byte>>)
    decreases |lines|
  {
    lines != [] && (Overflows(lim, l, |lines[0]|) || Discards(env, lim, Step(env, lim, l, lines[0]).0, lines[1..]))
  }

  lemma DiscardsStep(env: Env, lim: Limits, l: Loop, lines: seq<seq<byte>>)
    requires lines != []
    ensures Discards(env, lim, l, lines) <==>
            Overflows(lim, l, |lines[0]|) || Discards(env, lim, Step(env, lim, l, lines[0]).0, lines[1..])
  {}

  lemma {:induction false} DiscardsAppend(env: Env, lim: Limits, l: Loop, a: seq<seq<byte>>, b: seq<seq<byte>>)
    ensures Discards(env, lim, l, a + b) <==>
            Discards(env, lim, l, a) || Discards(env, lim, Run(env, lim, l, a).0, b)
    decreases |a|
  {
    if a == [] {
      assert a + b == b;
    } else {
      HeadTail(a, b);
      DiscardsAppend(env, lim, Step(env, lim, l, a[0]).0, a[1..], b);
    }
  }

  /** No entry of `input` is thrown away. */
  predicate Intact(env: Env, lim: Limits, input: seq<byte>) {
    !Discards(env, lim, START, CutLines(FileLines(input), lim.maxLine))
  }

  /** What fits the cap as a whole is intact, whatever its entries are. */
  lemma {:induction false} SmallIsIntact(env: Env, lim: Limits, l: Loop, lines: seq<seq<byte>>)
    requires l.entryBytes + TotalBytes(lines) <= lim.maxEntry
    ensures !Discards(env, lim, l, lines)
    decreases |lines|
  {
    if lines != [] {
      SmallIsIntact(env, lim, Step(env, lim, l, lines[0]).0, lines[1..]);
    }
  }

  // ---- What a later parse can observe ----

  /** Two loops at the same place, whatever they counted. */
  predicate SamePlace(l: Loop, m: Loop) {
    l.state == m.state && (!l.state.Idle? ==> l.database == m.database)
  }

  /** What `m` counted is part of what `l` counted. */
  predicate Alike(l: Loop, m: Loop) {
    SamePlace(l, m) && (!l.state.Idle? ==> m.entryBytes <= l.entryBytes)
  }

  lemma StepAlike(env: Env, lim: Limits, l: Loop, m: Loop, raw: seq<byte>)
    requires Alike(l, m) && !Overflows(lim, l, |raw|)
    ensures Step(env, lim, l, raw).1 == Step(env, lim, m, raw).1
    ensures Alike(Step(env, lim, l, raw).0, Step(env, lim, m, raw).0)
  {}

  /** Where the larger counter stays within the cap, the smaller one does, and both parses deliver the same. */
  lemma {:induction false} RunAlike(env: Env, lim: Limits, l: Loop, m: Loop, lines: seq<seq<byte>>)
    requires Alike(l, m) && !Discards(env, lim, l, lines)
    ensures RunToEnd(env, lim, l, lines) == RunToEnd(env, lim, m, lines)
    ensures !Discards(env, lim, m, lines)
    decreases |lines|
  {
    if lines != [] {
      StepAlike(env, lim, l, m, lines[0]);
      RunAlike(env, lim, Step(env, lim, l, lines[0]).0, Step(env, lim, m, lines[0]).0, lines[1..]);
      RunToEndStep(env, lim, l, lines);
      RunToEndStep(env, lim, m, lines);
    }
  }

  lemma RunToEndStep(env: Env, lim: Limits, l: Loop, lines: seq<seq<byte>>)
    requires lines != []
    ensures var (next, plan) := Step(env, lim, l, lines[0]);
            RunToEnd(env, lim, l, lines) == plan + RunToEnd(env, lim, next, lines[1..])
  {
    var (next, plan) := Step(env, lim, l, lines[0]);
    var (last, plans) := Run(env, lim, next, lines[1..]);
    Assoc(plan, plans, Finish(env, last));
  }

  /** While no entry is open, neither the remembered database nor the counter can show. */
  lemma StaleDatabaseUnobserved(env: Env, lim: Limits, db: Option<Text>, bytes: nat, lines: seq<seq<byte>>)
    ensures RunToEnd(env, lim, Loop(Idle, db, bytes), lines) == RunToEnd(env, lim, START, lines)
    ensures Discards(env, lim, Loop(Idle, db, bytes), lines) <==> Discards(env, lim, START, lines)
  {
    IdleForgets(env, lim, db, bytes, None, 0, lines);
  }

  lemma {:induction false} IdleForgets(
    env: Env, lim: Limits, db: Option<Text>, bytes: nat, db': Option<Text>, bytes': nat, lines: seq<seq<byte>>)
    ensures RunToEnd(env, lim, Loop(Idle, db, bytes), lines) == RunToEnd(env, lim, Loop(Idle, db', bytes'), lines)
    ensures Discards(env, lim, Loop(Idle, db, bytes), lines) <==> Discards(env, lim, Loop(Idle, db', bytes'), lines)
    decreases |lines|
  {
    if lines != [] {
      var l, m := Loop(Idle, db, bytes), Loop(Idle, db', bytes');
      var next, next' := Step(env, lim, l, lines[0]).0, Step(env, lim, m, lines[0]).0;
      RunToEndStep(env, lim, l, lines);
      RunToEndStep(env, lim, m, lines);
      if next.state.Idle? {
        IdleForgets(env, lim, next.database, next.entryBytes, next'.database, next'.entryBytes, lines[1..]);
      } else {
        assert next == next';
      }
    }
  }

  /** A line that carries a timestamp. */
  predicate StartsOrCloses(env: Env, raw: seq<byte>) {
    Classify(env, raw).Header? || Classify(env, raw).Boundary?
  }

  /** A line that carries a timestamp closes whatever is open, as the end of input would. */
  lemma StartLineCloses(env: Env, lim: Limits, l: Loop, raw: seq<byte>)
    requires StartsOrCloses(env, raw) && !Overflows(lim, l, |raw|)
    ensures Step(env, lim, l, raw).1 == Finish(env, l)
    ensures Step(env, lim, START, raw).1 == []
    ensures Alike(Step(env, lim, l, raw).0, Step(env, lim, START, raw).0)
  {}

  lemma RunFromStartLine(env: Env, lim: Limits, l: Loop, lines: seq<seq<byte>>)
    requires lines != [] && StartsOrCloses(env, lines[0]) && !Discards(env, lim, l, lines)
    ensures RunToEnd(env, lim, l, lines) == Finish(env, l) + RunToEnd(env, lim, START, lines)
  {
    DiscardsStep(env, lim, l, lines);
    StartLineCloses(env, lim, l, lines[0]);
    RunToEndStep(env, lim, l, lines);
    RunToEndStep(env, lim, START, lines);
    RunAlike(env, lim, Step(env, lim, l, lines[0]).0, Step(env, lim, START, lines[0]).0, lines[1..]);
  }

  /** What is not thrown away behind an open entry is not thrown away on its own. */
  lemma IntactFromStartLine(env: Env, lim: Limits, l: Loop, lines: seq<seq<byte>>)
    requires lines != [] && StartsOrCloses(env, lines[0]) && !Discards(env, lim, l, lines)
    ensures !Discards(env, lim, START, lines)
  {
    DiscardsStep(env, lim, l, lines);
    DiscardsStep(env, lim, START, lines);
    StartLineCloses(env, lim, l, lines[0]);
    RunAlike(env, lim, Step(env, lim, l, lines[0]).0, Step(env, lim, START, lines[0]).0, lines[1..]);
  }

  // ---- The split law ----

  /** A position at which a parse may be resumed: the next line there carries a timestamp. */
  predicate StartsEntry(b: seq<byte>) {
    b == [] || IsLogLineStart(b[..FirstLineLen(b, NEWLINE)])
  }

  /** The loop when the first slice has been read. */
  function LoopAfter(env: Env, lim: Limits, a: seq<byte>): Loop {
    Run(env, lim, START, CutLines(FileLines(a), lim.maxLine)).0
  }

  /** The second slice meets no cap, although the entry open at the cut goes on being counted. */
  predicate CarriesOver(env: Env, lim: Limits, a: seq<byte>, b: seq<byte>) {
    !Discards(env, lim, LoopAfter(env, lim, a), CutLines(FileLines(b), lim.maxLine))
  }

  /** The slices of an intact input are intact, and the cap is not met across the cut. */
  lemma IntactSlices(env: Env, lim: Limits, a: seq<byte>, b: seq<byte>)
    requires TS_CORE_LEN <= lim.maxLine && Intact(env, lim, a + b)
    requires LineStart(a + b, NEWLINE, |a|) && StartsEntry(b)
    ensures Intact(env, lim, a) && Intact(env, lim, b) && CarriesOver(env, lim, a, b)
  {
    var ca, cb := CutLines(FileLines(a), lim.maxLine), CutLines(FileLines(b), lim.maxLine);
    SplitAtLineStart(a, b, NEWLINE);
    CutLinesAppend(FileLines(a), FileLines(b), lim.maxLine);
    DiscardsAppend(env, lim, START, ca, cb);
    if b != [] {
      FirstLineStarts(env, lim, b);
      IntactFromStartLine(env, lim, LoopAfter(env, lim, a), cb);
    }
  }

  /** The first line of a later slice, cut or not, starts an entry or closes one. */
  lemma FirstLineStarts(env: Env, lim: Limits, b: seq<byte>)
    requires TS_CORE_LEN <= lim.maxLine && b != [] && StartsEntry(b)
    ensures var lines := CutLines(FileLines(b), lim.maxLine);
            lines != [] && StartsOrCloses(env, lines[0])
  {
    var first := FileLines(b)[0];
    CutLineStart(first, lim.maxLine);
    LogLineStartSplits(env, CutLine(first, lim.maxLine));
  }

  /**
   * Slicing is invisible: parsing two slices one after the other delivers what
   * parsing them as one delivers, plan for plan and database for database,
   * when the cut is where a timestamped line starts and no entry of the second
   * slice is thrown away. The first slice may hold anything.
   */
  lemma SplitLaw(env: Env, lim: Limits, a: seq<byte>, b: seq<byte>)
    requires TS_CORE_LEN <= lim.maxLine && CarriesOver(env, lim, a, b)
    requires LineStart(a + b, NEWLINE, |a|) && StartsEntry(b)
    ensures Plans(env, lim, a + b) == Plans(env, lim, a) + Plans(env, lim, b)
  {
    if b == [] {
      assert a + b == a;
    } else {
      var ca, cb := CutLines(FileLines(a), lim.maxLine), CutLines(FileLines(b), lim.maxLine);
      SplitAtLineStart(a, b, NEWLINE);
      CutLinesAppend(FileLines(a), FileLines(b), lim.maxLine);
      FirstLineStarts(env, lim, b);
      RunFromStartLine(env, lim, LoopAfter(env, lim, a), cb);
      RunToEndAppend(env, lim, START, ca, cb);
      var (mid, ps) := Run(env, lim, START, ca);
      Assoc(ps, Finish(env, mid), RunToEnd(env, lim, START, cb));
    }
  }

  lemma RunToEndAppend(env: Env, lim: Limits, l: Loop, a: seq<seq<byte>>, b: seq<seq<byte>>)
    ensures var (mid, ps) := Run(env, lim, l, a);
            RunToEnd(env, lim, l, a + b) == ps + RunToEnd(env, lim, mid, b)
  {
    RunAppend(env, lim, l, a, b);
    var (mid, ps) := Run(env, lim, l, a);
    var (last, qs) := Run(env, lim, mid, b);
    Assoc(ps, qs, Finish(env, last));
  }

  lemma CutTotals(s: seq<byte>, cap: nat)
    ensures TotalBytes(CutLines(FileLines(s), cap)) <= |s|
  {
    CutLinesShrink(FileLines(s), cap);
    TotalBytesIsLength(FileLines(s));
    SplitIsSplit(s, NEWLINE);
  }

  /** An input no larger than the cap is intact, whatever its entries are. */
  lemma SmallInputIsIntact(env: Env, lim: Limits, s: seq<byte>)
    requires |s| <= lim.maxEntry
    ensures Intact(env, lim, s)
  {
    CutTotals(s, lim.maxLine);
    SmallIsIntact(env, lim, START, CutLines(FileLines(s), lim.maxLine));
  }
}
