/** What the entry counter counts: the text an open entry holds, and the lines that lead up to a discard. */
module EntryBytes {
  import opened Common
  import opened Utf8
  import opened Unicode
  import opened EntryState
  import opened LogParser

  // ---- What an open entry holds ----

  /** Characters of some lines, and of what joins them. */
  function Width(lines: seq<Text>): nat
    decreases |lines|
  {
    if lines == [] then 0 else Width(lines[..|lines| - 1]) + |lines[|lines| - 1]| + 1
  }

  function QueryOf(s: State): Text {
    if s.Idle? then [] else s.query
  }

  /** The characters an entry under construction holds. */
  function Held(s: State): nat {
    match s
    case ParsingTextPlan(_, query, lines) => |query| + Width(lines)
    case ParsingJsonPlan(_, query, lines, _) => |query| + Width(lines)
    case _ => |QueryOf(s)|
  }

  /** A capped line that lost its newline is joined with one it did not bring. */
  function Break(raw: seq<byte>): nat {
    if raw != [] && raw[|raw| - 1] == NEWLINE then 0 else 1
  }

  function Breaks(lines: seq<seq<byte>>): nat
    decreases |lines|
  {
    if lines == [] then 0 else Break(lines[0]) + Breaks(lines[1..])
  }

  lemma {:induction false} DecodeShrinks(s: seq<byte>)
    ensures |Decode(s)| <= |s|
  {
    if s != [] {
      DecodeShrinks(s[StepLen(s)..]);
    }
  }

  /** Decoding and trimming a line leaves room for the newline that joins it. */
  lemma LineShrinks(u: Tables, raw: seq<byte>)
    ensures |TrimEnd(u, Decode(raw))| + 1 <= |raw| + Break(raw)
  {
    var t := Decode(raw);
    TrimEndPrefix(u, t);
    if Break(raw) == 0 {
      var body, none: seq<byte> := raw[..|raw| - 1], [];
      var nl: seq<byte> := [NEWLINE];
      assert raw == body + nl + none;
      DecodeTerminated(body, none);
      DecodeShrinks(body);
      assert t == Decode(body) + nl;
      assert TrimEnd(u, t) == TrimEnd(u, t[..|t| - 1]);
      TrimEndPrefix(u, t[..|t| - 1]);
    } else {
      DecodeShrinks(raw);
    }
  }

  lemma {:induction false} TrimStartShrinks(u: Tables, t: Text)
    ensures |TrimStart(u, t)| <= |t|
  {
    if t != [] && IsSpace(u, t[0]) {
      TrimStartShrinks(u, t[1..]);
    }
  }

  lemma TrimShrinks(u: Tables, t: Text)
    ensures |Trim(u, t)| <= |t|
  {
    TrimEndPrefix(u, t);
    TrimStartShrinks(u, TrimEnd(u, t));
  }

  lemma {:induction false} AppendedWidth(query: Text, lines: seq<Text>)
    ensures |AppendLines(query, lines)| <= |query| + Width(lines)
    decreases |lines|
  {
    if lines != [] {
      AppendedWidth(AppendLine(query, lines[0]), lines[1..]);
      WidthHead(lines);
    }
  }

  lemma {:induction false} WidthHead(lines: seq<Text>)
    requires lines != []
    ensures Width(lines) == |lines[0]| + 1 + Width(lines[1..])
    decreases |lines|
  {
    var init, last := lines[..|lines| - 1], lines[|lines| - 1];
    if init == [] {
      assert lines[1..] == [];
    } else {
      WidthHead(init);
      assert lines[1..][..|lines[1..]| - 1] == init[1..];
    }
  }

  lemma WidthSnoc(lines: seq<Text>, line: Text)
    ensures Width(lines + [line]) == Width(lines) + |line| + 1
  {
    assert (lines + [line])[..|lines|] == lines;
  }

  /** A query that is there already is joined with every line, at one character each. */
  lemma {:induction false} AppendedExactly(query: Text, lines: seq<Text>)
    requires query != []
    ensures |AppendLines(query, lines)| == |query| + Width(lines)
    decreases |lines|
  {
    if lines != [] {
      AppendedExactly(AppendLine(query, lines[0]), lines[1..]);
      WidthHead(lines);
    }
  }

  lemma AppendedLine(query: Text, line: Text)
    ensures |AppendLine(query, line)| <= |query| + |line| + 1
    ensures AppendLine(query, line) == [] ==> query == []
  {}

  // ---- Documents that are no plan ----

  /** How much longer the query gets, over its lines, when a document closes that is no plan. */
  function RecoveredBy(env: Env, head: Head, query: Text, lines: seq<Text>, scan: JsonScan, line: Text): nat {
    if !Closed(ScanLine(scan, line)) then 0
    else
      var (plan, query') := env.jsonPlan(head, query, lines + [line]);
      if plan.Some? || |query'| <= |query| then 0 else |query'| - |query|
  }

  /** A rejected document leaves more behind than its lines exactly if it leaves a longer query behind. */
  lemma RejectedExactly(env: Env, head: Head, query: Text, lines: seq<Text>, scan: JsonScan, line: Text)
    ensures var after := Held(AddJsonLine(env, head, query, lines, scan, line).state);
            var before := |query| + Width(lines + [line]);
            var more := RecoveredBy(env, head, query, lines, scan, line);
            && (after <= before <==> more == 0)
            && (more > 0 ==> after == before + more)
  {
    var query' := env.jsonPlan(head, query, lines + [line]).1;
    AppendedWidth(query', lines + [line]);
    if query' != [] {
      AppendedExactly(query', lines + [line]);
    }
  }

  function RecoveredIn(env: Env, s: State, line: Text): nat {
    var trimmed := Trim(env.unicode, line);
    match s
    case WaitingForQuery(head, query) =>
      if !(QUERY_TEXT <= trimmed) && LooksLikeJsonStart(env.unicode, trimmed)
      then RecoveredBy(env, head, query, [], JSON_START, trimmed) else 0
    case ParsingQuery(head, query) =>
      if LooksLikeJsonStart(env.unicode, trimmed) then RecoveredBy(env, head, query, [], JSON_START, trimmed) else 0
    case ParsingJsonPlan(head, query, lines, scan) => RecoveredBy(env, head, query, lines, scan, trimmed)
    case _ => 0
  }

  function RecoveredAt(env: Env, lim: Limits, l: Loop, raw: seq<byte>): nat {
    var kind := Classify(env, raw);
    if kind.Continuation? && !Overflows(lim, l, |raw|) then RecoveredIn(env, l.state, kind.text) else 0
  }

  /** Query text recovered from rejected documents over a run. */
  function Recovered(env: Env, lim: Limits, l: Loop, lines: seq<seq<byte>>): nat
    decreases |lines|
  {
    if lines == [] then 0
    else RecoveredAt(env, lim, l, lines[0]) + Recovered(env, lim, Step(env, lim, l, lines[0]).0, lines[1..])
  }

  // ---- The bound ----

  /** A continuation line adds itself, what joins it, and what it recovers. */
  lemma JsonLineHeld(env: Env, head: Head, query: Text, lines: seq<Text>, scan: JsonScan, line: Text)
    ensures Held(AddJsonLine(env, head, query, lines, scan, line).state)
         <= |query| + Width(lines) + |line| + 1 + RecoveredBy(env, head, query, lines, scan, line)
  {
    WidthSnoc(lines, line);
    RejectedExactly(env, head, query, lines, scan, line);
  }

  lemma WaitingHeld(env: Env, head: Head, query: Text, line: Text)
    ensures var s := WaitingForQuery(head, query);
            Held(Advance(env, s, line).state) <= |query| + |line| + 1 + RecoveredIn(env, s, line)
  {
    var trimmed := Trim(env.unicode, line);
    TrimShrinks(env.unicode, line);
    if QUERY_TEXT <= trimmed {
      TrimShrinks(env.unicode, trimmed[|QUERY_TEXT|..]);
    } else if LooksLikeJsonStart(env.unicode, trimmed) {
      JsonLineHeld(env, head, query, [], JSON_START, trimmed);
    }
  }

  lemma QueryHeld(env: Env, head: Head, query: Text, line: Text)
    ensures var s := ParsingQuery(head, query);
            Held(Advance(env, s, line).state) <= |query| + |line| + 1 + RecoveredIn(env, s, line)
  {
    var trimmed := Trim(env.unicode, line);
    var next := Advance(env, ParsingQuery(head, query), line).state;
    if LooksLikeJsonStart(env.unicode, trimmed) {
      TrimShrinks(env.unicode, line);
      JsonLineHeld(env, head, query, [], JSON_START, trimmed);
    } else if env.isPlanLine(trimmed) {
      assert next == ParsingTextPlan(head, query, [line]);
      WidthSnoc([], line);
    } else {
      assert next == ParsingQuery(head, AppendLine(query, line));
      AppendedLine(query, line);
    }
  }

  lemma AdvanceHeld(env: Env, s: State, line: Text)
    ensures Held(Advance(env, s, line).state) <= Held(s) + |line| + 1 + RecoveredIn(env, s, line)
  {
    match s
    case WaitingForQuery(head, query) => WaitingHeld(env, head, query, line);
    case ParsingQuery(head, query) => QueryHeld(env, head, query, line);
    case ParsingTextPlan(_, _, lines) => WidthSnoc(lines, line);
    case ParsingJsonPlan(head, query, lines, scan) =>
      TrimShrinks(env.unicode, line);
      JsonLineHeld(env, head, query, lines, scan, Trim(env.unicode, line));
    case Idle =>
  }

  lemma StepHeld(env: Env, lim: Limits, l: Loop, raw: seq<byte>, more: nat)
    requires Held(l.state) <= l.entryBytes + more
    ensures var next := Step(env, lim, l, raw).0;
            Held(next.state) <= next.entryBytes + more + Break(raw) + RecoveredAt(env, lim, l, raw)
  {
    if Classify(env, raw).Continuation? && !Account(lim, l, |raw|).state.Idle? {
      LineShrinks(env.unicode, raw);
      var line := TrimEnd(env.unicode, Decode(raw));
      assert Classify(env, raw) == Continuation(line);
      StepContinuation(env, lim, l, raw, line);
      AdvanceHeld(env, l.state, line);
    }
  }

  lemma {:induction false} RunHeld(env: Env, lim: Limits, l: Loop, lines: seq<seq<byte>>, more: nat)
    requires Held(l.state) <= l.entryBytes + more
    ensures var last := Run(env, lim, l, lines).0;
            Held(last.state) <= last.entryBytes + more + Breaks(lines) + Recovered(env, lim, l, lines)
    decreases |lines|
  {
    if lines != [] {
      StepHeld(env, lim, l, lines[0], more);
      RunHeld(env, lim, Step(env, lim, l, lines[0]).0, lines[1..],
              more + Break(lines[0]) + RecoveredAt(env, lim, l, lines[0]));
    }
  }

  /**
   * At every line of every input, the query and the plan lines of the open
   * entry are no longer than the bytes counted for it, one character for each
   * line that lost its newline to the line cap, and the query text recovered
   * from rejected documents; the counter never passes the entry cap.
   */
  lemma OpenEntryBounded(env: Env, lim: Limits, lines: seq<seq<byte>>)
    ensures var last := Run(env, lim, START, lines).0;
            && Held(last.state) <= last.entryBytes + Breaks(lines) + Recovered(env, lim, START, lines)
            && last.entryBytes <= lim.maxEntry
  {
    RunHeld(env, lim, START, lines, 0);
    EntryBytesBounded(env, lim, START, lines);
  }

  // ---- The bound that always holds ----

  /** A query there already is left alone; one recovered from a document is no longer than the document. */
  ghost predicate RecoversFromDocument(env: Env) {
    forall head: Head, query: Text, lines: seq<Text> ::
      |env.jsonPlan(head, query, lines).1| <= if query != [] then |query| else Width(lines)
  }

  predicate Within(s: State, count: nat) {
    Held(s) <= 2 * count && (QueryOf(s) == [] ==> Held(s) <= count)
  }

  lemma JsonLineWithin(env: Env, head: Head, query: Text, lines: seq<Text>, scan: JsonScan, line: Text, count: nat, more: nat)
    requires RecoversFromDocument(env) && |line| + 1 <= more
    requires |query| + Width(lines) <= 2 * count
    requires query == [] ==> Width(lines) <= count
    ensures Within(AddJsonLine(env, head, query, lines, scan, line).state, count + more)
  {
    WidthSnoc(lines, line);
    var lines', scan' := lines + [line], ScanLine(scan, line);
    if Closed(scan') && env.jsonPlan(head, query, lines').0.None? {
      AppendedWidth(env.jsonPlan(head, query, lines').1, lines');
    }
  }

  lemma WaitingWithin(env: Env, s: State, line: Text, count: nat, more: nat)
    requires s.WaitingForQuery? && RecoversFromDocument(env) && |line| + 1 <= more && Within(s, count)
    ensures Within(Advance(env, s, line).state, count + more)
  {
    var trimmed := Trim(env.unicode, line);
    TrimShrinks(env.unicode, line);
    if QUERY_TEXT <= trimmed {
      TrimShrinks(env.unicode, trimmed[|QUERY_TEXT|..]);
    } else if LooksLikeJsonStart(env.unicode, trimmed) {
      JsonLineWithin(env, s.head, s.query, [], JSON_START, trimmed, count, more);
    }
  }

  lemma QueryWithin(env: Env, head: Head, query: Text, line: Text, count: nat, more: nat)
    requires RecoversFromDocument(env) && |line| + 1 <= more && Within(ParsingQuery(head, query), count)
    ensures Within(Advance(env, ParsingQuery(head, query), line).state, count + more)
  {
    var trimmed := Trim(env.unicode, line);
    var next := Advance(env, ParsingQuery(head, query), line).state;
    if LooksLikeJsonStart(env.unicode, trimmed) {
      TrimShrinks(env.unicode, line);
      JsonLineWithin(env, head, query, [], JSON_START, trimmed, count, more);
    } else if env.isPlanLine(trimmed) {
      assert next == ParsingTextPlan(head, query, [line]);
      WidthSnoc([], line);
    } else {
      assert next == ParsingQuery(head, AppendLine(query, line));
      AppendedLine(query, line);
    }
  }

  lemma AdvanceWithin(env: Env, s: State, line: Text, count: nat, more: nat)
    requires RecoversFromDocument(env) && |line| + 1 <= more && Within(s, count)
    ensures Within(Advance(env, s, line).state, count + more)
  {
    match s
    case WaitingForQuery(_, _) => WaitingWithin(env, s, line, count, more);
    case ParsingQuery(head, query) => QueryWithin(env, head, query, line, count, more);
    case ParsingTextPlan(_, _, lines) => WidthSnoc(lines, line);
    case ParsingJsonPlan(head, query, lines, scan) =>
      TrimShrinks(env.unicode, line);
      JsonLineWithin(env, head, query, lines, scan, Trim(env.unicode, line), count, more);
    case Idle =>
  }

  lemma StepWithin(env: Env, lim: Limits, l: Loop, raw: seq<byte>, breaks: nat)
    requires RecoversFromDocument(env) && Within(l.state, l.entryBytes + breaks)
    ensures var next := Step(env, lim, l, raw).0;
            Within(next.state, next.entryBytes + breaks + Break(raw))
  {
    if Classify(env, raw).Continuation? && !Account(lim, l, |raw|).state.Idle? {
      LineShrinks(env.unicode, raw);
      var line := TrimEnd(env.unicode, Decode(raw));
      assert Classify(env, raw) == Continuation(line);
      StepContinuation(env, lim, l, raw, line);
      AdvanceWithin(env, l.state, line, l.entryBytes + breaks, |raw| + Break(raw));
    }
  }

  lemma {:induction false} RunWithin(env: Env, lim: Limits, l: Loop, lines: seq<seq<byte>>, breaks: nat)
    requires RecoversFromDocument(env) && Within(l.state, l.entryBytes + breaks)
    ensures var last := Run(env, lim, l, lines).0;
            Within(last.state, last.entryBytes + breaks + Breaks(lines))
    decreases |lines|
  {
    if lines != [] {
      StepWithin(env, lim, l, lines[0], breaks);
      RunWithin(env, lim, Step(env, lim, l, lines[0]).0, lines[1..], breaks + Break(lines[0]));
    }
  }

  /** Whatever is recovered, an entry never holds more than twice what is counted for it. */
  lemma OpenEntryDoubled(env: Env, lim: Limits, lines: seq<seq<byte>>)
    requires RecoversFromDocument(env)
    ensures var last := Run(env, lim, START, lines).0;
            Held(last.state) <= 2 * (last.entryBytes + Breaks(lines))
  {
    RunWithin(env, lim, START, lines, 0);
  }

  /** A rejected document on one line, with its query: the entry holds both, and counts the line. */
  lemma RejectedDocument(env: Env, lim: Limits, head: Head, db: Option<Text>, raw: seq<byte>, t: Text, query: Text)
    requires Classify(env, raw) == Continuation(t) && Trim(env.unicode, t) == t && |t| + 1 == |raw| <= lim.maxEntry
    requires LooksLikeJsonStart(env.unicode, t) && !(QUERY_TEXT <= t) && Closed(ScanLine(JSON_START, t))
    requires env.jsonPlan(head, [], [t]) == (None, query) && query != []
    ensures var next := Step(env, lim, Loop(WaitingForQuery(head, []), db, 0), raw).0;
            next.entryBytes == |raw| && Held(next.state) == |query| + |raw|
  {
    StepContinuation(env, lim, Loop(WaitingForQuery(head, []), db, 0), raw, t);
    assert [] + [t] == [t];
    AppendedExactly(query, [t]);
    WidthSnoc([], t);
  }

  // ---- What leads up to a discard ----

  /** The loop as it meets line `n`. */
  function Met(env: Env, lim: Limits, lines: seq<seq<byte>>, n: nat): Loop
    requires n <= |lines|
  {
    Run(env, lim, START, lines[..n]).0
  }

  /**
   * From line `i`, met with no entry open, to line `n` some entry is open
   * throughout: one entry follows the other without a gap.
   */
  ghost predicate Chain(env: Env, free: Limits, lines: seq<seq<byte>>, i: nat, n: nat) {
    && i < n < |lines|
    && Met(env, free, lines, i).state.Idle?
    && forall j :: i < j <= n ==> !Met(env, free, lines, j).state.Idle?
  }

  lemma MetNext(env: Env, lim: Limits, lines: seq<seq<byte>>, n: nat)
    requires n < |lines|
    ensures Met(env, lim, lines, n + 1) == Step(env, lim, Met(env, lim, lines, n), lines[n]).0
  {
    var one := [lines[n]];
    RunAppend(env, lim, START, lines[..n], one);
    assert lines[..n + 1] == lines[..n] + one && one[1..] == [];
  }

  lemma {:induction false} TotalOfFirst(lines: seq<seq<byte>>, n: nat)
    requires n < |lines|
    ensures TotalBytes(lines[..n + 1]) == TotalBytes(lines[..n]) + |lines[n]|
  {
    var one := [lines[n]];
    TotalBytesAppend(lines[..n], one);
    assert lines[..n + 1] == lines[..n] + one && TotalBytes(one[1..]) == 0;
  }

  /** Bytes of lines `i` up to `n`. */
  function BytesBetween(lines: seq<seq<byte>>, i: nat, n: nat): nat
    requires i <= n <= |lines|
    decreases n
  {
    if i == n then 0 else BytesBetween(lines, i, n - 1) + |lines[n - 1]|
  }

  lemma {:induction false} BytesBetweenLess(lines: seq<seq<byte>>, i: nat, n: nat)
    requires i <= n <= |lines|
    ensures BytesBetween(lines, i, n) <= TotalBytes(lines[..n])
    decreases n
  {
    if i < n {
      TotalOfFirst(lines, n - 1);
      BytesBetweenLess(lines, i, n - 1);
    }
  }

  /** The counter of an uncapped parse never passes the bytes read. */
  lemma {:induction false} FreeCounter(env: Env, free: Limits, lines: seq<seq<byte>>, n: nat)
    requires n <= |lines| && TotalBytes(lines) <= free.maxEntry
    ensures Met(env, free, lines, n).entryBytes <= TotalBytes(lines[..n]) <= TotalBytes(lines)
  {
    EntryBytesBounded(env, free, START, lines[..n]);
    TotalBytesAppend(lines[..n], lines[n..]);
    assert lines == lines[..n] + lines[n..];
  }

  /** While an entry is open, the counter has counted the chain that led to it, its first line excepted. */
  lemma {:induction false} CounterIsChain(env: Env, free: Limits, lines: seq<seq<byte>>, n: nat) returns (i: nat)
    requires n < |lines| && TotalBytes(lines) <= free.maxEntry && !Met(env, free, lines, n).state.Idle?
    ensures Chain(env, free, lines, i, n)
    ensures Met(env, free, lines, n).entryBytes == BytesBetween(lines, i + 1, n)
    decreases n
  {
    assert lines[..0] == [];
    var before := Met(env, free, lines, n - 1);
    MetNext(env, free, lines, n - 1);
    if before.state.Idle? {
      i := n - 1;
    } else {
      i := CounterIsChain(env, free, lines, n - 1);
      FreeCounter(env, free, lines, n - 1);
      TotalOfFirst(lines, n - 1);
      FreeCounter(env, free, lines, n);
    }
  }

  /** A chain determines where it began. */
  lemma ChainUnique(env: Env, free: Limits, lines: seq<seq<byte>>, i: nat, j: nat, n: nat)
    requires Chain(env, free, lines, i, n) && Chain(env, free, lines, j, n)
    ensures i == j
  {}

  // ---- When the cap acts ----

  /** The counter's highest value when nothing is discarded. */
  function PeakBytes(env: Env, free: Limits, l: Loop, lines: seq<seq<byte>>): nat
    decreases |lines|
  {
    if lines == [] then 0
    else
      var here := if l.state.Idle? then 0 else l.entryBytes + |lines[0]|;
      var later := PeakBytes(env, free, Step(env, free, l, lines[0]).0, lines[1..]);
      if here >= later then here else later
  }

  /**
   * The cap acts exactly when the counter of an uncapped parse would pass it;
   * otherwise the capped parse is the uncapped one.
   */
  lemma {:induction false} CapActsAtPeak(env: Env, lim: Limits, free: Limits, l: Loop, lines: seq<seq<byte>>)
    requires l.entryBytes + TotalBytes(lines) <= free.maxEntry
    ensures Discards(env, lim, l, lines) <==> PeakBytes(env, free, l, lines) > lim.maxEntry
    ensures !Discards(env, lim, l, lines) ==> Run(env, lim, l, lines) == Run(env, free, l, lines)
    decreases |lines|
  {
    if lines != [] && !Overflows(lim, l, |lines[0]|) {
      assert Account(lim, l, |lines[0]|) == Account(free, l, |lines[0]|);
      assert Step(env, lim, l, lines[0]) == Step(env, free, l, lines[0]);
      CapActsAtPeak(env, lim, free, Step(env, free, l, lines[0]).0, lines[1..]);
    }
  }

  /** Line `n`, with what is counted before it, passes `cap`. */
  ghost predicate Passes(env: Env, free: Limits, l: Loop, lines: seq<seq<byte>>, n: nat, cap: nat) {
    n < |lines| &&
    var met := Run(env, free, l, lines[..n]).0;
    !met.state.Idle? && met.entryBytes + |lines[n]| > cap
  }

  lemma PassesNext(env: Env, free: Limits, l: Loop, lines: seq<seq<byte>>, n: nat, cap: nat)
    requires n > 0 && lines != []
    ensures Passes(env, free, l, lines, n, cap) <==>
            Passes(env, free, Step(env, free, l, lines[0]).0, lines[1..], n - 1, cap)
  {
    if n < |lines| {
      assert lines[..n][1..] == lines[1..][..n - 1];
    }
  }

  lemma PassesHere(env: Env, free: Limits, l: Loop, lines: seq<seq<byte>>, cap: nat)
    requires lines != []
    ensures Passes(env, free, l, lines, 0, cap) <==> !l.state.Idle? && l.entryBytes + |lines[0]| > cap
  {
    assert lines[..0] == [];
  }

  lemma {:induction false} PeakReached(env: Env, free: Limits, l: Loop, lines: seq<seq<byte>>, cap: nat) returns (n: nat)
    requires PeakBytes(env, free, l, lines) > cap
    ensures Passes(env, free, l, lines, n, cap)
    decreases |lines|
  {
    PassesHere(env, free, l, lines, cap);
    if Passes(env, free, l, lines, 0, cap) {
      n := 0;
    } else {
      n := PeakReached(env, free, Step(env, free, l, lines[0]).0, lines[1..], cap);
      n := n + 1;
      PassesNext(env, free, l, lines, n, cap);
    }
  }

  lemma {:induction false} PeakCovers(env: Env, free: Limits, l: Loop, lines: seq<seq<byte>>, n: nat, cap: nat)
    requires Passes(env, free, l, lines, n, cap)
    ensures PeakBytes(env, free, l, lines) > cap
    decreases |lines|
  {
    if n == 0 {
      PassesHere(env, free, l, lines, cap);
    } else {
      PassesNext(env, free, l, lines, n, cap);
      PeakCovers(env, free, Step(env, free, l, lines[0]).0, lines[1..], n - 1, cap);
    }
  }

  /** A chain whose bytes, its first line excepted, pass the cap. */
  ghost predicate LongChain(env: Env, lim: Limits, free: Limits, lines: seq<seq<byte>>, i: nat, n: nat) {
    Chain(env, free, lines, i, n) && BytesBetween(lines, i + 1, n + 1) > lim.maxEntry
  }

  lemma PassesIsLongChain(env: Env, lim: Limits, free: Limits, lines: seq<seq<byte>>, n: nat) returns (i: nat)
    requires TotalBytes(lines) <= free.maxEntry && Passes(env, free, START, lines, n, lim.maxEntry)
    ensures LongChain(env, lim, free, lines, i, n)
  {
    i := CounterIsChain(env, free, lines, n);
  }

  lemma LongChainPasses(env: Env, lim: Limits, free: Limits, lines: seq<seq<byte>>, i: nat, n: nat)
    requires TotalBytes(lines) <= free.maxEntry && LongChain(env, lim, free, lines, i, n)
    ensures Passes(env, free, START, lines, n, lim.maxEntry)
  {
    var j := CounterIsChain(env, free, lines, n);
    ChainUnique(env, free, lines, i, j, n);
  }

  /**
   * The cap throws something away exactly when an unbroken chain of entries,
   * its first line excepted, is longer than the cap: not when an entry is.
   */
  lemma DiscardsExactly(env: Env, lim: Limits, free: Limits, lines: seq<seq<byte>>)
    requires TotalBytes(lines) <= free.maxEntry
    ensures Discards(env, lim, START, lines) <==> exists i, n :: LongChain(env, lim, free, lines, i, n)
  {
    CapActsAtPeak(env, lim, free, START, lines);
    if PeakBytes(env, free, START, lines) > lim.maxEntry {
      var n := PeakReached(env, free, START, lines, lim.maxEntry);
      var i := PassesIsLongChain(env, lim, free, lines, n);
    }
    if i, n :| LongChain(env, lim, free, lines, i, n) {
      LongChainPasses(env, lim, free, lines, i, n);
      PeakCovers(env, free, START, lines, n, lim.maxEntry);
    }
  }
}
