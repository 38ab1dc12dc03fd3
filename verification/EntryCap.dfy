/**
 * The per-entry cap does not count per entry: the counter is reset only by a
 * line met while no entry is open, so a header that directly follows another
 * entry inherits its bytes.
 */
module EntryCap {
  import opened Common
  import opened Lines
  import opened Utf8
  import opened Unicode
  import opened Regex
  import opened Timestamp
  import opened EntryState
  import opened LogParser

  predicate Plain(s: string) {
    forall i :: 0 <= i < |s| ==> s[i] < 128 as char
  }

  function Bytes(s: string): (b: seq<byte>)
    requires Plain(s)
    ensures |b| == |s| && AllAscii(b)
    ensures forall i :: 0 <= i < |s| ==> b[i] == s[i] as nat
  {
    seq(|s|, i requires 0 <= i < |s| => s[i] as nat)
  }

  const STAMP: seq<byte> := Bytes("2025-06-12 00:00:00 UTC")
  const MESSAGE: seq<byte> := Bytes(" [1] LOG:  duration: 1 ms  plan:")
  const QUERY_LINE: seq<byte> := Bytes("\tQuery Text: q")
  const NODE: seq<byte> := Bytes("Seq Scan on t  (cost=0..0 rows=0 width=0)")
  const NODE_LINE: seq<byte> := [9] + NODE
  const Q: Text := ['q' as nat]

  const HEADER: seq<byte> := (STAMP + MESSAGE) + [NEWLINE]
  const QUERY: seq<byte> := QUERY_LINE + [NEWLINE]
  const PLAN: seq<byte> := NODE_LINE + [NEWLINE]
  const ENTRY: seq<byte> := HEADER + QUERY + PLAN

  /** The first line is a plan header. */
  predicate ReadsHeader(env: Env) {
    env.planDuration(MESSAGE).Some? && env.timestamp(STAMP).Some?
  }

  function HeadOf(env: Env): Head
    requires ReadsHeader(env)
  {
    Head(env.timestamp(STAMP).value, env.planDuration(MESSAGE).value)
  }

  /** The three lines are what they look like: a plan header, and a node line with a plan in it. */
  predicate Reads(env: Env) {
    && ReadsHeader(env) && env.isPlanLine(NODE)
    && env.textPlan(HeadOf(env), Q, [NODE_LINE]).Some?
  }

  /** The plan of the entry. */
  function ThePlan(env: Env): QueryPlan
    requires Reads(env)
  {
    env.textPlan(HeadOf(env), Q, [NODE_LINE]).value.(database := env.database(MESSAGE))
  }

  // ---- Reading the lines ----

  lemma DecodeAscii(s: seq<byte>)
    requires AllAscii(s)
    ensures Decode(s) == s
  {
    DecodeAsciiPrefix(s, []);
    assert s + [] == s;
  }

  lemma EncodeAscii(t: Text)
    requires AllAscii(t)
    ensures IsText(t) && EncodeText(t) == t
  {
    assert IsText(t);
    EncodeAsciiText(t, []);
    assert t + [] == t;
  }

  /** An ASCII line without its newline. */
  lemma LineText(u: Tables, body: seq<byte>)
    requires AllAscii(body) && body != [] && !AsciiSpace(body[|body| - 1])
    ensures TrimEnd(u, Decode(body + [NEWLINE])) == body
  {
    DecodeAscii(body + [NEWLINE]);
    TrimNewline(u, body);
  }

  lemma TrimNewline(u: Tables, t: Text)
    requires t != [] && IsAscii(t[|t| - 1]) && !AsciiSpace(t[|t| - 1])
    ensures TrimEnd(u, t + [NEWLINE]) == t
  {
    var line := t + [NEWLINE];
    assert line[..|line| - 1] == t;
    assert TrimEnd(u, line) == TrimEnd(u, t);
  }

  lemma StampShape()
    ensures |STAMP| == 23 && InOrder(ASCII_ONLY, TS_SHAPE, STAMP, 0)
    ensures STAMP[19] == ' ' as nat && STAMP[20] == 'U' as nat && STAMP[21] == 'T' as nat && STAMP[22] == 'C' as nat
  {
    forall k | 0 <= k < TS_CORE_LEN ensures In(ASCII_ONLY, TS_SHAPE[k], STAMP[0 + k]) {}
  }

  /** The stamp in front of anything that starts with a space. */
  lemma StampLength(b: seq<byte>)
    requires |b| > 23 && b[..23] == STAMP && b[23] == ' ' as nat
    ensures PrefixVerdict(b) == Match(23)
  {
    StampShape();
    forall k | 0 <= k < 23 ensures b[k] == STAMP[k] {
      assert b[k] == b[..23][k];
    }
    forall k | 0 <= k < TS_CORE_LEN ensures In(ASCII_ONLY, TS_SHAPE[k], b[0 + k]) {
      assert In(ASCII_ONLY, TS_SHAPE[k], STAMP[0 + k]);
    }
    assert AllAscii(b[..TS_CORE_LEN]);
    RunUnique(ASCII_ONLY, Upper, b, 20, 5, 3);
    assert FractionEnd(b, TS_CORE_LEN) == Some(19);
    assert ZoneEnd(b, 19) == Some(23);
  }

  lemma {:induction false} WithoutNewline(t: Text)
    requires NEWLINE !in t
    ensures UpToNewline(t) == t
  {
    if t != [] {
      WithoutNewline(t[1..]);
    }
  }

  lemma MessageShape()
    ensures MESSAGE != [] && MESSAGE[0] == ' ' as nat && NEWLINE !in MESSAGE
    ensures !AsciiSpace(MESSAGE[|MESSAGE| - 1])
  {}

  lemma ClassifyHeader(env: Env)
    requires ReadsHeader(env)
    ensures Classify(env, HEADER) == Header(HeadOf(env), env.database(MESSAGE))
  {
    MessageShape();
    LineText(env.unicode, STAMP + MESSAGE);
    SplitHeader(env.unicode);
  }

  lemma SplitHeader(u: Tables)
    ensures IsText(STAMP + MESSAGE) && SplitLogLine(u, STAMP + MESSAGE) == Some((STAMP, MESSAGE))
  {
    StampShape();
    MessageShape();
    SplitBehind(u, STAMP, MESSAGE);
  }

  lemma SplitBehind(u: Tables, stamp: seq<byte>, message: seq<byte>)
    requires stamp == STAMP && |stamp| == 23 && message != [] && message[0] == ' ' as nat && NEWLINE !in message
    requires AllAscii(stamp) && AllAscii(message)
    ensures IsText(stamp + message) && SplitLogLine(u, stamp + message) == Some((stamp, message))
  {
    var line := stamp + message;
    EncodeAscii(line);
    assert line[..23] == stamp && line[23..] == message;
    StampLength(line);
    WithoutNewline(message);
  }

  /** A line that does not start with a digit continues an entry. */
  lemma ClassifyUndated(env: Env, body: seq<byte>)
    requires AllAscii(body) && |body| > 1 && !AsciiDigit(body[0]) && !AsciiSpace(body[|body| - 1])
    ensures Classify(env, body + [NEWLINE]) == Continuation(body)
  {
    var u := env.unicode;
    LineText(u, body);
    EncodeAscii(body);
    assert TrimEnd(u, body) == body;
    TrimStartKeeps(u, body, |body| - 1);
  }

  lemma {:induction false} TrimStartKeeps(u: Tables, t: Text, i: nat)
    requires i < |t| && !IsSpace(u, t[i])
    ensures TrimStart(u, t) != []
    decreases i
  {
    if IsSpace(u, t[0]) {
      TrimStartKeeps(u, t[1..], i - 1);
    }
  }

  // ---- Moving the machine ----

  /** A tab in front of text that neither starts nor ends with a space. */
  lemma TrimTab(u: Tables, t: Text)
    requires t != [] && IsAscii(t[0]) && !AsciiSpace(t[0]) && IsAscii(t[|t| - 1]) && !AsciiSpace(t[|t| - 1])
    ensures Trim(u, [9] + t) == t
  {
    var line: Text := [9] + t;
    assert TrimEnd(u, line) == line;
    assert line[1..] == t;
    assert TrimStart(u, line) == TrimStart(u, t) == t;
  }

  lemma QueryShape()
    ensures QUERY_LINE == [9] + (QUERY_TEXT + ([' ' as nat] + Q))
  {}

  lemma AdvanceQuery(env: Env, head: Head)
    ensures Advance(env, WaitingForQuery(head, []), QUERY_LINE) == Outcome(ParsingQuery(head, Q), None)
  {
    var u := env.unicode;
    var rest: Text := [' ' as nat] + Q;
    var trimmed := QUERY_TEXT + rest;
    QueryShape();
    TrimTab(u, trimmed);
    assert trimmed[|QUERY_TEXT|..] == rest;
    assert TrimEnd(u, rest) == rest && rest[1..] == Q && TrimStart(u, rest) == TrimStart(u, Q) == Q;
  }

  lemma NodeShape()
    ensures NODE != [] && NODE[0] == 'S' as nat && NODE[|NODE| - 1] == ')' as nat
  {
    var node := "Seq Scan on t  (cost=0..0 rows=0 width=0)";
    assert |node| == 41 && node[0] == 'S' && node[40] == ')';
    assert |NODE| == 41 && NODE[40] == node[40] as nat;
  }

  lemma AdvancePlan(env: Env, head: Head)
    requires env.isPlanLine(NODE)
    ensures Advance(env, ParsingQuery(head, Q), NODE_LINE) == Outcome(ParsingTextPlan(head, Q, [NODE_LINE]), None)
  {
    NodeShape();
    TrimTab(env.unicode, NODE);
    assert !LooksLikeJsonStart(env.unicode, NODE);
  }

  /** A line `raw` that moves the machine from `from` to `to`, if the cap leaves the entry alone. */
  ghost predicate Moves(env: Env, raw: seq<byte>, from: State, to: State) {
    forall lim: Limits, db: Option<Text>, n: nat ::
      Step(env, lim, Loop(from, db, n), raw) ==
      if n + |raw| <= lim.maxEntry then (Loop(to, db, n + |raw|), []) else (Loop(Idle, db, 0), [])
  }

  lemma ContinuationMoves(env: Env, raw: seq<byte>, line: Text, from: State, to: State)
    requires !from.Idle?
    requires Classify(env, raw) == Continuation(line) && Advance(env, from, line) == Outcome(to, None)
    ensures Moves(env, raw, from, to)
  {
    forall lim: Limits, db: Option<Text>, n: nat
      ensures Step(env, lim, Loop(from, db, n), raw) ==
              if n + |raw| <= lim.maxEntry then (Loop(to, db, n + |raw|), []) else (Loop(Idle, db, 0), [])
    {
      StepContinuation(env, lim, Loop(from, db, n), raw, line);
    }
  }

  lemma QueryMoves(env: Env, head: Head)
    ensures Moves(env, QUERY, WaitingForQuery(head, []), ParsingQuery(head, Q))
  {
    ClassifyUndated(env, QUERY_LINE);
    AdvanceQuery(env, head);
    ContinuationMoves(env, QUERY, QUERY_LINE, WaitingForQuery(head, []), ParsingQuery(head, Q));
  }

  lemma PlanMoves(env: Env, head: Head)
    requires env.isPlanLine(NODE)
    ensures Moves(env, PLAN, ParsingQuery(head, Q), ParsingTextPlan(head, Q, [NODE_LINE]))
  {
    NodeShape();
    ClassifyUndated(env, NODE_LINE);
    AdvancePlan(env, head);
    ContinuationMoves(env, PLAN, NODE_LINE, ParsingQuery(head, Q), ParsingTextPlan(head, Q, [NODE_LINE]));
  }

  lemma PlanIdle(env: Env, lim: Limits, db: Option<Text>)
    ensures Step(env, lim, Loop(Idle, db, 0), PLAN) == (Loop(Idle, db, 0), [])
  {
    NodeShape();
    ClassifyUndated(env, NODE_LINE);
  }

  lemma HeaderStep(env: Env, lim: Limits, l: Loop)
    requires ReadsHeader(env)
    ensures var a := Account(lim, l, |HEADER|);
            Step(env, lim, l, HEADER) ==
            (Loop(WaitingForQuery(HeadOf(env), []), env.database(MESSAGE), a.entryBytes), Finish(env, a))
  {
    ClassifyHeader(env);
  }

  // ---- Two entries in a row ----

  lemma TwoLines(a: seq<byte>, b: seq<byte>, rest: seq<byte>)
    requires IsLine(a, NEWLINE, false) && IsLine(b, NEWLINE, false)
    ensures FileLines(a + b + rest) == [a, b] + FileLines(rest)
  {
    Assoc(a, b, rest);
    SplitLine(b, rest, NEWLINE);
    SplitLine(a, b + rest, NEWLINE);
    var as_: seq<seq<byte>>, bs: seq<seq<byte>> := [a], [b];
    Assoc(as_, bs, FileLines(rest));
    assert as_ + bs == [a, b];
  }

  lemma ThreeLines(a: seq<byte>, b: seq<byte>, c: seq<byte>, rest: seq<byte>)
    requires IsLine(a, NEWLINE, false) && IsLine(b, NEWLINE, false) && IsLine(c, NEWLINE, false)
    ensures FileLines(a + b + c + rest) == [a, b, c] + FileLines(rest)
  {
    TwoLines(a, b, c + rest);
    Assoc(a + b, c, rest);
    SplitLine(c, rest, NEWLINE);
    var ab: seq<seq<byte>>, cs: seq<seq<byte>> := [a, b], [c];
    Assoc(ab, cs, FileLines(rest));
    assert ab + cs == [a, b, c];
  }

  const LINES: seq<seq<byte>> := [HEADER, QUERY, PLAN]

  lemma TheyAreLines()
    ensures IsLine(HEADER, NEWLINE, false) && IsLine(QUERY, NEWLINE, false) && IsLine(PLAN, NEWLINE, false)
  {
    forall i | 0 <= i < |STAMP| ensures STAMP[i] != NEWLINE {}
    MessageShape();
    forall i | 0 <= i < |NODE| ensures NODE[i] != NEWLINE {}
    forall i | 0 <= i < |QUERY_LINE| ensures QUERY_LINE[i] != NEWLINE {}
  }

  lemma EntryLines(rest: seq<byte>)
    ensures FileLines(ENTRY + rest) == LINES + FileLines(rest)
  {
    TheyAreLines();
    ThreeLines(HEADER, QUERY, PLAN, rest);
  }

  /** A cap that the entry just fits, and a line cap that does not matter. */
  predicate JustFits(lim: Limits) {
    && lim.maxEntry == |HEADER| + |QUERY| + |PLAN|
    && |HEADER| <= lim.maxLine && |QUERY| <= lim.maxLine && |PLAN| <= lim.maxLine
  }

  lemma CutEntryLines(lim: Limits, rest: seq<seq<byte>>)
    requires JustFits(lim)
    ensures CutLines(LINES + rest, lim.maxLine) == LINES + CutLines(rest, lim.maxLine)
  {
    CutLinesAppend(LINES, rest, lim.maxLine);
    CutLinesShort(LINES, lim.maxLine);
  }

  /** The loop with the entry complete, but still open. */
  function OpenEntry(env: Env): Loop
    requires Reads(env)
  {
    Loop(ParsingTextPlan(HeadOf(env), Q, [NODE_LINE]), env.database(MESSAGE), |QUERY| + |PLAN|)
  }

  lemma OneStep(env: Env, lim: Limits, l: Loop, next: Loop, raw: seq<byte>, rest: seq<seq<byte>>, plans: seq<QueryPlan>)
    requires Step(env, lim, l, raw) == (next, plans)
    ensures RunToEnd(env, lim, l, [raw] + rest) == plans + RunToEnd(env, lim, next, rest)
  {
    var lines := [raw] + rest;
    assert lines[1..] == rest;
    RunToEndStep(env, lim, l, lines);
  }

  /** Three steps through three lines, of which only the first delivers. */
  lemma ThreeSteps(
    env: Env, lim: Limits, ls: seq<Loop>, a: seq<byte>, b: seq<byte>, c: seq<byte>, rest: seq<seq<byte>>, plans: seq<QueryPlan>)
    requires |ls| == 4
    requires Step(env, lim, ls[0], a) == (ls[1], plans)
    requires Step(env, lim, ls[1], b) == (ls[2], []) && Step(env, lim, ls[2], c) == (ls[3], [])
    ensures RunToEnd(env, lim, ls[0], [a, b, c] + rest) == plans + RunToEnd(env, lim, ls[3], rest)
  {
    assert [a, b, c] + rest == [a] + ([b] + ([c] + rest));
    OneStep(env, lim, ls[0], ls[1], a, [b] + ([c] + rest), plans);
    TwoSteps(env, lim, ls[1], ls[2], ls[3], b, c, rest);
  }

  lemma TwoSteps(env: Env, lim: Limits, l: Loop, m: Loop, n: Loop, b: seq<byte>, c: seq<byte>, rest: seq<seq<byte>>)
    requires Step(env, lim, l, b) == (m, []) && Step(env, lim, m, c) == (n, [])
    ensures RunToEnd(env, lim, l, [b] + ([c] + rest)) == RunToEnd(env, lim, n, rest)
  {
    OneStep(env, lim, m, n, c, rest, []);
    OneStep(env, lim, l, m, b, [c] + rest, []);
  }

  /** Where a line moves the loop, the cap not acting. */
  lemma MovesOn(env: Env, raw: seq<byte>, from: State, to: State, lim: Limits, db: Option<Text>, n: nat)
    requires Moves(env, raw, from, to) && n + |raw| <= lim.maxEntry
    ensures Step(env, lim, Loop(from, db, n), raw) == (Loop(to, db, n + |raw|), [])
  {}

  /** The loop between the lines of the first entry. */
  function Between(env: Env): seq<Loop>
    requires Reads(env)
  {
    var head, db := HeadOf(env), env.database(MESSAGE);
    [START, Loop(WaitingForQuery(head, []), db, 0), Loop(ParsingQuery(head, Q), db, |QUERY|), OpenEntry(env)]
  }

  lemma FirstHeaderStep(env: Env, lim: Limits)
    requires Reads(env)
    ensures Step(env, lim, START, HEADER) == (Between(env)[1], [])
  {
    HeaderStep(env, lim, START);
  }

  lemma FirstQueryStep(env: Env, lim: Limits)
    requires Reads(env) && |QUERY| <= lim.maxEntry
    ensures Step(env, lim, Between(env)[1], QUERY) == (Between(env)[2], [])
  {
    var head, db := HeadOf(env), env.database(MESSAGE);
    QueryMoves(env, head);
    MovesOn(env, QUERY, WaitingForQuery(head, []), ParsingQuery(head, Q), lim, db, 0);
  }

  lemma FirstPlanStep(env: Env, lim: Limits)
    requires Reads(env) && |QUERY| + |PLAN| <= lim.maxEntry
    ensures Step(env, lim, Between(env)[2], PLAN) == (Between(env)[3], [])
  {
    var head, db := HeadOf(env), env.database(MESSAGE);
    PlanMoves(env, head);
    MovesOn(env, PLAN, ParsingQuery(head, Q), ParsingTextPlan(head, Q, [NODE_LINE]), lim, db, |QUERY|);
  }

  lemma FirstEntryRuns(env: Env, lim: Limits, rest: seq<seq<byte>>)
    requires Reads(env) && JustFits(lim)
    ensures RunToEnd(env, lim, START, LINES + rest) == RunToEnd(env, lim, OpenEntry(env), rest)
  {
    FirstHeaderStep(env, lim);
    FirstQueryStep(env, lim);
    FirstPlanStep(env, lim);
    ThreeSteps(env, lim, Between(env), HEADER, QUERY, PLAN, rest, []);
  }

  lemma SecondEntryRuns(env: Env, lim: Limits)
    requires Reads(env) && JustFits(lim)
    ensures RunToEnd(env, lim, OpenEntry(env), LINES) == [ThePlan(env)]
  {
    var none: seq<seq<byte>> := [];
    assert LINES + none == LINES;
    var db := env.database(MESSAGE);
    var waiting := Loop(WaitingForQuery(HeadOf(env), []), db, |HEADER| + |QUERY| + |PLAN|);
    var dropped := Loop(Idle, db, 0);
    SecondEntrySteps(env, lim, waiting, dropped);
    ThreeSteps(env, lim, [OpenEntry(env), waiting, dropped, dropped], HEADER, QUERY, PLAN, none, [ThePlan(env)]);
  }

  lemma SecondEntrySteps(env: Env, lim: Limits, waiting: Loop, dropped: Loop)
    requires Reads(env) && JustFits(lim)
    requires waiting == Loop(WaitingForQuery(HeadOf(env), []), env.database(MESSAGE), lim.maxEntry)
    requires dropped == Loop(Idle, env.database(MESSAGE), 0)
    ensures Step(env, lim, OpenEntry(env), HEADER) == (waiting, [ThePlan(env)])
    ensures Step(env, lim, waiting, QUERY) == (dropped, []) && Step(env, lim, dropped, PLAN) == (dropped, [])
  {
    HeaderStep(env, lim, OpenEntry(env));
    QueryMoves(env, HeadOf(env));
    PlanIdle(env, lim, env.database(MESSAGE));
  }

  /**
   * Two equal entries, each of exactly the cap's size: parsed apart each
   * delivers its plan, parsed in one pass the second is thrown away, however
   * the lines are read, as long as they are read as what they are.
   */
  lemma CapCountsAcrossEntries(env: Env, lim: Limits)
    requires Reads(env) && JustFits(lim)
    ensures |ENTRY| == lim.maxEntry
    ensures Plans(env, lim, ENTRY) == [ThePlan(env)]
    ensures Plans(env, lim, ENTRY + ENTRY) == [ThePlan(env)]
  {
    var nothing: seq<byte> := [];
    var none: seq<seq<byte>> := [];
    EntryLines(nothing);
    EntryLines(ENTRY);
    assert ENTRY + nothing == ENTRY && FileLines(nothing) == none && LINES + none == LINES;
    CutEntryLines(lim, none);
    CutEntryLines(lim, LINES);
    FirstEntryRuns(env, lim, none);
    FirstEntryRuns(env, lim, LINES);
    SecondEntryRuns(env, lim);
  }
}
