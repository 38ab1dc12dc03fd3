/**
 * The state machine that collects the continuation lines of one auto_explain
 * entry, and the plans it completes.
 */
module EntryState {
  import opened Common
  import opened Unicode

  /**
   * One execution. `duration` is the place of the logged number in the total
   * order of `f64::total_cmp`, which is that of an integer key.
   */
  datatype QueryPlan = QueryPlan(
    queryText: Text,
    database: Option<Text>,
    timestamp: int,
    duration: int,
    rawPlan: Text
  )

  /** What a plan header line contributes. */
  datatype Head = Head(timestamp: int, duration: int)

  datatype JsonScan = JsonScan(depth: int, inString: bool, escapeNext: bool, started: bool)

  const JSON_START: JsonScan := JsonScan(0, false, false, false)

  /** The builder each state holds is spelt out; the other combinations cannot be built. */
  datatype State =
    | Idle
    | WaitingForQuery(head: Head, query: Text)
    | ParsingQuery(head: Head, query: Text)
    | ParsingTextPlan(head: Head, query: Text, lines: seq<Text>)
    | ParsingJsonPlan(head: Head, query: Text, lines: seq<Text>, scan: JsonScan)

  /**
   * What lies outside the model: the remaining expressions and the two plan
   * parsers. `jsonPlan` also returns the query text it found in the document.
   */
  datatype Env = Env(
    unicode: Tables,
    planDuration: Text -> Option<int>,
    timestamp: Text -> Option<int>,
    database: Text -> Option<Text>,
    isPlanLine: Text -> bool,
    textPlan: (Head, Text, seq<Text>) -> Option<QueryPlan>,
    jsonPlan: (Head, Text, seq<Text>) -> (Option<QueryPlan>, Text)
  )

  datatype Outcome = Outcome(state: State, plan: Option<QueryPlan>)

  // ---- Text ----

  function TrimStart(u: Tables, t: Text): Text {
    if t != [] && IsSpace(u, t[0]) then TrimStart(u, t[1..]) else t
  }

  function TrimEnd(u: Tables, t: Text): Text {
    if t != [] && IsSpace(u, t[|t| - 1]) then TrimEnd(u, t[..|t| - 1]) else t
  }

  lemma {:induction false} TrimEndPrefix(u: Tables, t: Text)
    ensures TrimEnd(u, t) <= t
    ensures TrimEnd(u, t) != [] ==> !IsSpace(u, TrimEnd(u, t)[|TrimEnd(u, t)| - 1])
  {
    if t != [] && IsSpace(u, t[|t| - 1]) {
      TrimEndPrefix(u, t[..|t| - 1]);
    }
  }

  function Trim(u: Tables, t: Text): Text {
    TrimStart(u, TrimEnd(u, t))
  }

  const QUERY_TEXT: Text := Ascii("Query Text:")

  predicate LooksLikeJsonStart(u: Tables, t: Text) {
    var s := TrimStart(u, t);
    s != [] && (s[0] == '[' as nat || s[0] == '{' as nat)
  }

  /** Query lines are joined by newlines. */
  function AppendLine(query: Text, line: Text): Text {
    if query == [] then line else query + [NEWLINE] + line
  }

  function AppendLines(query: Text, lines: seq<Text>): Text
    decreases |lines|
  {
    if lines == [] then query else AppendLines(AppendLine(query, lines[0]), lines[1..])
  }

  // ---- Bracket depth of a JSON document ----

  function ScanChar(s: JsonScan, c: nat): JsonScan {
    if s.inString then
      if s.escapeNext then s.(escapeNext := false)
      else if c == '\\' as nat then s.(escapeNext := true)
      else if c == '"' as nat then s.(inString := false)
      else s
    else if c == '"' as nat then s.(inString := true)
    else if c == '[' as nat || c == '{' as nat then s.(depth := s.depth + 1, started := true)
    else if c == ']' as nat || c == '}' as nat then s.(depth := s.depth - 1)
    else s
  }

  function ScanLine(s: JsonScan, line: Text): JsonScan
    decreases |line|
  {
    if line == [] then s else ScanLine(ScanChar(s, line[0]), line[1..])
  }

  predicate Closed(s: JsonScan) {
    s.started && s.depth <= 0
  }

  // ---- Transitions ----

  function AddJsonLine(env: Env, head: Head, query: Text, lines: seq<Text>, scan: JsonScan, line: Text): Outcome {
    var lines', scan' := lines + [line], ScanLine(scan, line);
    if !Closed(scan') then Outcome(ParsingJsonPlan(head, query, lines', scan'), None)
    else
      var (plan, query') := env.jsonPlan(head, query, lines');
      if plan.Some? then Outcome(Idle, plan)
      else Outcome(ParsingQuery(head, AppendLines(query', lines')), None)
  }

  /** `advance_continuation`: one line that does not carry a timestamp. */
  function Advance(env: Env, state: State, line: Text): Outcome {
    var trimmed := Trim(env.unicode, line);
    match state
    case Idle => Outcome(Idle, None)
    case WaitingForQuery(head, query) =>
      if QUERY_TEXT <= trimmed then
        Outcome(ParsingQuery(head, Trim(env.unicode, trimmed[|QUERY_TEXT|..])), None)
      else if LooksLikeJsonStart(env.unicode, trimmed) then AddJsonLine(env, head, query, [], JSON_START, trimmed)
      else Outcome(state, None)
    case ParsingQuery(head, query) =>
      if LooksLikeJsonStart(env.unicode, trimmed) then AddJsonLine(env, head, query, [], JSON_START, trimmed)
      else if env.isPlanLine(trimmed) then Outcome(ParsingTextPlan(head, query, [line]), None)
      else Outcome(ParsingQuery(head, AppendLine(query, line)), None)
    case ParsingTextPlan(head, query, lines) => Outcome(ParsingTextPlan(head, query, lines + [line]), None)
    case ParsingJsonPlan(head, query, lines, scan) => AddJsonLine(env, head, query, lines, scan, trimmed)
  }

  /** `finish` and `reset_with_builder` finalize what is open. */
  function Finalize(env: Env, state: State): Option<QueryPlan> {
    match state
    case ParsingTextPlan(head, query, lines) => env.textPlan(head, query, lines)
    case ParsingJsonPlan(head, query, lines, scan) => env.jsonPlan(head, query, lines).0
    case _ => None
  }
}
