/** What the entries of a log deliver, told from their lines: the state machine against a reading of the text. */
module Entries {
  import opened Common
  import opened Utf8
  import opened Unicode
  import opened Timestamp
  import opened EntryState
  import opened LogParser
  import opened JsonShape

  // ---- Lines ----

  /** A line's text, without what trails. */
  function TextOf(env: Env, raw: seq<byte>): (t: Text)
    ensures IsText(t)
  {
    DecodeIsText(raw);
    TrimEndPrefix(env.unicode, Decode(raw));
    TrimEnd(env.unicode, Decode(raw))
  }

  /** The log-line expression matches. */
  predicate Dated(env: Env, raw: seq<byte>) {
    RegexSplit(env.unicode, TextOf(env, raw)).Some?
  }

  predicate AllSpace(u: Tables, t: Text) {
    forall i :: 0 <= i < |t| ==> IsSpace(u, t[i])
  }

  /** Behind the timestamp, a duration; and the timestamp is a date. */
  predicate IsHeader(env: Env, raw: seq<byte>, head: Head, database: Option<Text>) {
    var split := RegexSplit(env.unicode, TextOf(env, raw));
    && split.Some?
    && env.timestamp(split.value.0) == Some(head.timestamp)
    && env.planDuration(split.value.1) == Some(head.duration)
    && database == env.database(split.value.1)
  }

  predicate Explains(env: Env, raw: seq<byte>) {
    var split := RegexSplit(env.unicode, TextOf(env, raw));
    split.Some? && env.timestamp(split.value.0).Some? && env.planDuration(split.value.1).Some?
  }

  lemma HeaderOf(env: Env, raw: seq<byte>) returns (head: Head, database: Option<Text>)
    requires Explains(env, raw)
    ensures IsHeader(env, raw, head, database)
  {
    var split := RegexSplit(env.unicode, TextOf(env, raw)).value;
    head := Head(env.timestamp(split.0).value, env.planDuration(split.1).value);
    database := env.database(split.1);
  }

  predicate Undated(env: Env, raws: seq<seq<byte>>) {
    forall i :: 0 <= i < |raws| ==> !Dated(env, raws[i])
  }

  /** The texts of lines that are not blank. */
  function Texts(env: Env, raws: seq<seq<byte>>): seq<Text>
    decreases |raws|
  {
    if raws == [] then []
    else (if AllSpace(env.unicode, TextOf(env, raws[0])) then [] else [TextOf(env, raws[0])]) + Texts(env, raws[1..])
  }

  /** Trimming takes white space off both ends, and all of it. */
  lemma TrimMeaning(u: Tables, t: Text) returns (before: Text, after: Text)
    ensures t == before + Trim(u, t) + after && AllSpace(u, before) && AllSpace(u, after)
    ensures var r := Trim(u, t); r != [] ==> !IsSpace(u, r[0]) && !IsSpace(u, r[|r| - 1])
  {
    after := TrimEndTakes(u, t);
    var middle := TrimEnd(u, t);
    before := TrimStartTakes(u, middle);
    TrimEndPrefix(u, t);
    assert t == middle + after;
    var r := Trim(u, t);
    if r != [] {
      assert r[|r| - 1] == middle[|middle| - 1];
    }
  }

  lemma {:induction false} TrimEndTakes(u: Tables, t: Text) returns (after: Text)
    ensures t == TrimEnd(u, t) + after && AllSpace(u, after)
    decreases |t|
  {
    if t != [] && IsSpace(u, t[|t| - 1]) {
      after := TrimEndTakes(u, t[..|t| - 1]);
      after := after + [t[|t| - 1]];
    } else {
      after := [];
    }
  }

  lemma {:induction false} TrimStartTakes(u: Tables, t: Text) returns (before: Text)
    ensures t == before + TrimStart(u, t) && AllSpace(u, before)
    ensures TrimStart(u, t) != [] ==> !IsSpace(u, TrimStart(u, t)[0])
    decreases |t|
  {
    if t != [] && IsSpace(u, t[0]) {
      before := TrimStartTakes(u, t[1..]);
      before := [t[0]] + before;
    } else {
      before := [];
    }
  }

  /** There is only one way to do that, unless there is nothing but space. */
  lemma TrimUnique(u: Tables, t: Text, before: Text, r: Text, after: Text)
    requires t == before + r + after && AllSpace(u, before) && AllSpace(u, after)
    requires r != [] ==> !IsSpace(u, r[0]) && !IsSpace(u, r[|r| - 1])
    ensures Trim(u, t) == r
  {
    TrimEndOff(u, before + r, after);
    if r == [] {
      TrimEndOff(u, [], before);
      assert before + r == [] + before;
    } else {
      assert TrimEnd(u, before + r) == before + r;
      TrimStartOff(u, before, r);
    }
  }

  lemma {:induction false} TrimEndOff(u: Tables, t: Text, after: Text)
    requires AllSpace(u, after)
    ensures TrimEnd(u, t + after) == TrimEnd(u, t)
    decreases |after|
  {
    if after == [] {
      assert t + after == t;
    } else {
      var n := |after| - 1;
      assert (t + after)[..|t + after| - 1] == t + after[..n];
      TrimEndOff(u, t, after[..n]);
    }
  }

  lemma {:induction false} TrimStartOff(u: Tables, before: Text, t: Text)
    requires AllSpace(u, before) && (t != [] ==> !IsSpace(u, t[0]))
    ensures TrimStart(u, before + t) == t
    decreases |before|
  {
    if before == [] {
      assert before + t == t;
    } else {
      HeadTail(before, t);
      TrimStartOff(u, before[1..], t);
    }
  }

  lemma BlankIsSpace(u: Tables, t: Text)
    ensures Trim(u, t) == [] <==> AllSpace(u, t)
  {
    var before, after := TrimMeaning(u, t);
    assert Trim(u, t) != [] ==> t[|before|] == Trim(u, t)[0];
    if Trim(u, t) == [] {
      assert t == before + after;
    }
  }

  // ---- The kinds of lines ----

  lemma KindOf(env: Env, raw: seq<byte>)
    ensures StartsOrCloses(env, raw) <==> Dated(env, raw)
    ensures Explains(env, raw) <==> Classify(env, raw).Header?
    ensures forall head, database ::
              IsHeader(env, raw, head, database) <==> Classify(env, raw) == Header(head, database)
    ensures !Dated(env, raw) ==>
              Classify(env, raw) ==
              if AllSpace(env.unicode, TextOf(env, raw)) then Blank else Continuation(TextOf(env, raw))
  {
    SplitLogLineIsRegex(env.unicode, TextOf(env, raw));
    BlankIsSpace(env.unicode, TextOf(env, raw));
  }

  // ---- What an entry is made of ----

  /** Lines put together again, with newlines between them. */
  function Joined(lines: seq<Text>): Text {
    if lines == [] then []
    else if |lines| == 1 then lines[0]
    else lines[0] + [NEWLINE] + Joined(lines[1..])
  }

  /** A query and the lines it goes on with. */
  function Extended(query: Text, lines: seq<Text>): Text {
    Joined((if query == [] then [] else [query]) + lines)
  }

  function Trimmed(u: Tables, lines: seq<Text>): (r: seq<Text>)
    ensures |r| == |lines| && forall i :: 0 <= i < |r| ==> r[i] == Trim(u, lines[i])
  {
    seq(|lines|, i requires 0 <= i < |lines| => Trim(u, lines[i]))
  }

  /** The line begins with a bracket. */
  predicate Opens(u: Tables, line: Text) {
    var t := Trim(u, line);
    t != [] && (t[0] == '[' as nat || t[0] == '{' as nat)
  }

  function ScanLines(scan: JsonScan, lines: seq<Text>): JsonScan
    decreases |lines|
  {
    if lines == [] then scan else ScanLines(ScanLine(scan, lines[0]), lines[1..])
  }

  /** The brackets are closed behind the last line, and not before. */
  predicate ClosesLast(scan: JsonScan, lines: seq<Text>)
    decreases |lines|
  {
    lines != [] &&
    var next := ScanLine(scan, lines[0]);
    if |lines| == 1 then Closed(next) else !Closed(next) && ClosesLast(next, lines[1..])
  }

  predicate StaysOpen(scan: JsonScan, lines: seq<Text>)
    decreases |lines|
  {
    lines != [] ==> !Closed(ScanLine(scan, lines[0])) && StaysOpen(ScanLine(scan, lines[0]), lines[1..])
  }

  /** Lines from an opening bracket to where all are closed. */
  predicate Document(u: Tables, lines: seq<Text>) {
    lines != [] && Opens(u, lines[0]) && ClosesLast(JSON_START, Trimmed(u, lines))
  }

  predicate OpenDocument(u: Tables, lines: seq<Text>) {
    lines != [] && Opens(u, lines[0]) && StaysOpen(JSON_START, Trimmed(u, lines))
  }

  predicate AsksFor(u: Tables, line: Text) {
    QUERY_TEXT <= Trim(u, line)
  }

  /** What a `Query Text:` line says. */
  function Asked(u: Tables, line: Text): Text
    requires AsksFor(u, line)
  {
    Trim(u, Trim(u, line)[|QUERY_TEXT|..])
  }

  predicate IsNode(env: Env, line: Text) {
    env.isPlanLine(Trim(env.unicode, line))
  }

  /** A way to read the lines behind a plan header. */
  datatype Reading =
    | Done
    | Skipped(line: Text, rest: Reading)
    | QueryText(line: Text, rest: Reading)
    | QueryLine(line: Text, rest: Reading)
    | Literal(doc: seq<Text>, rest: Reading)
    | TextPlan(lines: seq<Text>)
    | JsonPlan(doc: seq<Text>, ignored: seq<Text>)
    | JsonOpen(doc: seq<Text>)

  function LinesOf(r: Reading): seq<Text> {
    match r
    case Done => []
    case Skipped(line, rest) => [line] + LinesOf(rest)
    case QueryText(line, rest) => [line] + LinesOf(rest)
    case QueryLine(line, rest) => [line] + LinesOf(rest)
    case Literal(doc, rest) => doc + LinesOf(rest)
    case TextPlan(lines) => lines
    case JsonPlan(doc, ignored) => doc + ignored
    case JsonOpen(doc) => doc
  }

  /** The reading is right; `asked` once the query has begun, `query` as far as it goes. */
  predicate Right(env: Env, head: Head, asked: bool, query: Text, r: Reading)
    decreases r
  {
    var u := env.unicode;
    match r
    case Done => true
    case Skipped(line, rest) => !asked && !AsksFor(u, line) && !Opens(u, line) && Right(env, head, false, query, rest)
    case QueryText(line, rest) => !asked && AsksFor(u, line) && Right(env, head, true, Asked(u, line), rest)
    case QueryLine(line, rest) =>
      asked && !Opens(u, line) && !IsNode(env, line) && Right(env, head, true, Extended(query, [line]), rest)
    case Literal(doc, rest) =>
      Document(u, doc) && var (plan, found) := env.jsonPlan(head, query, Trimmed(u, doc));
      plan.None? && Right(env, head, true, Extended(found, Trimmed(u, doc)), rest)
    case TextPlan(lines) => asked && lines != [] && !Opens(u, lines[0]) && IsNode(env, lines[0])
    case JsonPlan(doc, _) => Document(u, doc) && env.jsonPlan(head, query, Trimmed(u, doc)).0.Some?
    case JsonOpen(doc) => OpenDocument(u, doc)
  }

  /** The plan an entry so read delivers. */
  function PlanOf(env: Env, head: Head, query: Text, r: Reading): Option<QueryPlan>
    decreases r
  {
    var u := env.unicode;
    match r
    case Done => None
    case Skipped(_, rest) => PlanOf(env, head, query, rest)
    case QueryText(line, rest) => if AsksFor(u, line) then PlanOf(env, head, Asked(u, line), rest) else None
    case QueryLine(line, rest) => PlanOf(env, head, Extended(query, [line]), rest)
    case Literal(doc, rest) =>
      PlanOf(env, head, Extended(env.jsonPlan(head, query, Trimmed(u, doc)).1, Trimmed(u, doc)), rest)
    case TextPlan(lines) => env.textPlan(head, query, lines)
    case JsonPlan(doc, _) => env.jsonPlan(head, query, Trimmed(u, doc)).0
    case JsonOpen(doc) => env.jsonPlan(head, query, Trimmed(u, doc)).0
  }

  // ---- Joining ----

  lemma {:induction false} JoinedSnoc(lines: seq<Text>, line: Text)
    requires lines != []
    ensures Joined(lines + [line]) == Joined(lines) + [NEWLINE] + line
    decreases |lines|
  {
    HeadTail(lines, [line]);
    if |lines| == 1 {
      assert lines[1..] + [line] == [line];
    } else {
      JoinedSnoc(lines[1..], line);
    }
  }

  /** Appending line by line joins the lines. */
  lemma {:induction false} AppendsAreJoined(query: Text, lines: seq<Text>)
    requires forall i :: 0 <= i < |lines| ==> lines[i] != []
    ensures AppendLines(query, lines) == Extended(query, lines)
    decreases |lines|
  {
    if lines == [] {
      ExtendedByNone(query, lines);
    } else {
      AppendsAreJoined(AppendLine(query, lines[0]), lines[1..]);
      ExtendedStep(query, lines[0], lines[1..]);
      assert [lines[0]] + lines[1..] == lines;
    }
  }

  lemma ExtendedByNone(query: Text, lines: seq<Text>)
    requires lines == []
    ensures Extended(query, lines) == query == AppendLines(query, lines)
  {
    if query == [] {
      var none: seq<Text> := [];
      assert none + lines == none;
    } else {
      assert [query] + lines == [query];
    }
  }

  lemma ExtendedOne(query: Text, line: Text)
    ensures AppendLine(query, line) == Extended(query, [line])
  {
    if query != [] {
      var two, one := [query, line], [line];
      assert [query] + one == two && two[1..] == one;
      assert Joined(two) == query + [NEWLINE] + Joined(one);
    } else {
      assert [] + [line] == [line];
    }
  }

  lemma ExtendedStep(query: Text, line: Text, lines: seq<Text>)
    requires line != []
    ensures Extended(query, [line] + lines) == Extended(AppendLine(query, line), lines)
  {
    var longer := AppendLine(query, line);
    if query == [] {
      assert [] + ([line] + lines) == [line] + lines;
    } else {
      JoinedPair(query, line, lines);
      assert [query] + ([line] + lines) == [query, line] + lines;
    }
  }

  /** Joining two lines first changes nothing. */
  lemma JoinedPair(a: Text, b: Text, lines: seq<Text>)
    ensures Joined([a, b] + lines) == Joined([a + [NEWLINE] + b] + lines)
  {
    var all, one := [a, b] + lines, [a + [NEWLINE] + b] + lines;
    assert all[1..] == [b] + lines && one[1..] == lines;
    if lines != [] {
      assert ([b] + lines)[1..] == lines;
      assert Joined([b] + lines) == b + [NEWLINE] + Joined(lines);
      assert a + [NEWLINE] + (b + [NEWLINE] + Joined(lines)) == a + [NEWLINE] + b + [NEWLINE] + Joined(lines);
    }
  }

  // ---- The state machine over an entry's texts ----

  /** The plan the state machine delivers while it takes the texts in, or at their end. */
  function Fold(env: Env, s: State, texts: seq<Text>): Option<QueryPlan>
    decreases |texts|
  {
    if texts == [] then Finalize(env, s)
    else
      var o := Advance(env, s, texts[0]);
      if o.plan.Some? then o.plan else Fold(env, o.state, texts[1..])
  }

  lemma {:induction false} FoldIdle(env: Env, texts: seq<Text>)
    ensures Fold(env, Idle, texts) == None
    decreases |texts|
  {
    if texts != [] {
      FoldIdle(env, texts[1..]);
    }
  }

  lemma FoldCons(env: Env, s: State, line: Text, rest: seq<Text>)
    ensures Fold(env, s, [line] + rest) ==
            var o := Advance(env, s, line); if o.plan.Some? then o.plan else Fold(env, o.state, rest)
  {
    assert ([line] + rest)[1..] == rest;
  }

  lemma {:induction false} FoldLines(env: Env, head: Head, query: Text, got: seq<Text>, lines: seq<Text>)
    ensures Fold(env, ParsingTextPlan(head, query, got), lines) == env.textPlan(head, query, got + lines)
    decreases |lines|
  {
    if lines == [] {
      assert got + lines == got;
    } else {
      FoldLines(env, head, query, got + [lines[0]], lines[1..]);
      assert got + [lines[0]] + lines[1..] == got + lines;
    }
  }

  /** A state in which the next line is added to a document. */
  predicate AddsTo(env: Env, s: State, head: Head, query: Text, got: seq<Text>, scan: JsonScan, line: Text) {
    Advance(env, s, line) == AddJsonLine(env, head, query, got, scan, Trim(env.unicode, line))
  }

  lemma FoldDocumentLine(
    env: Env, s: State, head: Head, query: Text, got: seq<Text>, scan: JsonScan, line: Text, rest: seq<Text>)
    requires AddsTo(env, s, head, query, got, scan, line)
    ensures var more, next := got + [Trim(env.unicode, line)], ScanLine(scan, Trim(env.unicode, line));
            var (plan, found) := env.jsonPlan(head, query, more);
            Fold(env, s, [line] + rest) ==
            if !Closed(next) then Fold(env, ParsingJsonPlan(head, query, more, next), rest)
            else if plan.Some? then plan
            else Fold(env, ParsingQuery(head, AppendLines(found, more)), rest)
  {
    FoldCons(env, s, line, rest);
  }

  lemma TrimmedCons(u: Tables, lines: seq<Text>)
    requires lines != []
    ensures Trimmed(u, lines) == [Trim(u, lines[0])] + Trimmed(u, lines[1..])
    ensures Trimmed(u, lines)[1..] == Trimmed(u, lines[1..])
  {}

  lemma {:induction false} FoldDocument(
    env: Env, s: State, head: Head, query: Text, got: seq<Text>, scan: JsonScan, doc: seq<Text>, rest: seq<Text>)
    requires doc != [] && AddsTo(env, s, head, query, got, scan, doc[0])
    requires ClosesLast(scan, Trimmed(env.unicode, doc))
    ensures var all := got + Trimmed(env.unicode, doc);
            var (plan, found) := env.jsonPlan(head, query, all);
            Fold(env, s, doc + rest) ==
            if plan.Some? then plan else Fold(env, ParsingQuery(head, AppendLines(found, all)), rest)
    decreases |doc|
  {
    var line, next := Trim(env.unicode, doc[0]), ScanLine(scan, Trim(env.unicode, doc[0]));
    var more, tail := got + [line], doc[1..];
    HeadTail(doc, rest);
    TrimmedCons(env.unicode, doc);
    Assoc(got, [line], Trimmed(env.unicode, tail));
    FoldDocumentLine(env, s, head, query, got, scan, doc[0], tail + rest);
    if |doc| == 1 {
      assert tail + rest == rest && more + Trimmed(env.unicode, tail) == more;
    } else {
      FoldDocument(env, ParsingJsonPlan(head, query, more, next), head, query, more, next, tail, rest);
    }
  }

  lemma {:induction false} FoldOpenDocument(
    env: Env, s: State, head: Head, query: Text, got: seq<Text>, scan: JsonScan, doc: seq<Text>)
    requires doc != [] && AddsTo(env, s, head, query, got, scan, doc[0])
    requires StaysOpen(scan, Trimmed(env.unicode, doc))
    ensures Fold(env, s, doc) == env.jsonPlan(head, query, got + Trimmed(env.unicode, doc)).0
    decreases |doc|
  {
    var line, next := Trim(env.unicode, doc[0]), ScanLine(scan, Trim(env.unicode, doc[0]));
    var more, tail := got + [line], doc[1..];
    assert doc == [doc[0]] + tail;
    TrimmedCons(env.unicode, doc);
    Assoc(got, [line], Trimmed(env.unicode, tail));
    FoldDocumentLine(env, s, head, query, got, scan, doc[0], tail);
    if |doc| == 1 {
      assert more + Trimmed(env.unicode, tail) == more;
    } else {
      FoldOpenDocument(env, ParsingJsonPlan(head, query, more, next), head, query, more, next, tail);
    }
  }

  /** Where the machine stands when `query` has been read so far. */
  function Standing(head: Head, asked: bool, query: Text): State {
    if asked then ParsingQuery(head, query) else WaitingForQuery(head, query)
  }

  lemma {:induction false} LooksAsItOpens(u: Tables, line: Text)
    ensures LooksLikeJsonStart(u, Trim(u, line)) <==> Opens(u, line)
  {
    var before, after := TrimMeaning(u, line);
  }

  /** `Query Text:` does not begin with a bracket. */
  lemma OpensAsksNot(u: Tables, line: Text)
    requires Opens(u, line)
    ensures !AsksFor(u, line)
  {
    assert QUERY_TEXT[0] == 'Q' as nat;
  }

  lemma OpeningAdds(env: Env, head: Head, asked: bool, query: Text, line: Text)
    requires Opens(env.unicode, line)
    ensures AddsTo(env, Standing(head, asked, query), head, query, [], JSON_START, line)
  {
    OpensAsksNot(env.unicode, line);
    LooksAsItOpens(env.unicode, line);
  }

  predicate NotBlank(u: Tables, lines: seq<Text>) {
    forall i :: 0 <= i < |lines| ==> !AllSpace(u, lines[i])
  }

  lemma TrimmedNotEmpty(u: Tables, lines: seq<Text>)
    requires NotBlank(u, lines)
    ensures forall i :: 0 <= i < |lines| ==> Trimmed(u, lines)[i] != []
  {
    forall i | 0 <= i < |lines| ensures Trimmed(u, lines)[i] != [] {
      BlankIsSpace(u, lines[i]);
    }
  }

  lemma NotBlankParts(u: Tables, a: seq<Text>, b: seq<Text>)
    requires NotBlank(u, a + b)
    ensures NotBlank(u, a) && NotBlank(u, b)
  {
    forall i | 0 <= i < |a| ensures !AllSpace(u, a[i]) {
      assert a[i] == (a + b)[i];
    }
    forall i | 0 <= i < |b| ensures !AllSpace(u, b[i]) {
      assert b[i] == (a + b)[|a| + i];
    }
  }

  lemma FoldWhole(env: Env, head: Head, asked: bool, query: Text, doc: seq<Text>, rest: seq<Text>)
    requires Document(env.unicode, doc) && NotBlank(env.unicode, doc)
    ensures var (plan, found) := env.jsonPlan(head, query, Trimmed(env.unicode, doc));
            Fold(env, Standing(head, asked, query), doc + rest) ==
            if plan.Some? then plan
            else Fold(env, Standing(head, true, Extended(found, Trimmed(env.unicode, doc))), rest)
  {
    var trimmed := Trimmed(env.unicode, doc);
    OpeningAdds(env, head, asked, query, doc[0]);
    FoldDocument(env, Standing(head, asked, query), head, query, [], JSON_START, doc, rest);
    assert [] + trimmed == trimmed;
    TrimmedNotEmpty(env.unicode, doc);
    AppendsAreJoined(env.jsonPlan(head, query, trimmed).1, trimmed);
  }

  /** One line that belongs to no document. */
  lemma FoldLine(env: Env, head: Head, asked: bool, query: Text, line: Text, rest: seq<Text>)
    requires !Opens(env.unicode, line)
    ensures var r := Fold(env, Standing(head, asked, query), [line] + rest);
            if asked then
              if IsNode(env, line) then r == env.textPlan(head, query, [line] + rest)
              else r == Fold(env, Standing(head, true, Extended(query, [line])), rest)
            else
              if AsksFor(env.unicode, line) then r == Fold(env, Standing(head, true, Asked(env.unicode, line)), rest)
              else r == Fold(env, Standing(head, false, query), rest)
  {
    LooksAsItOpens(env.unicode, line);
    FoldCons(env, Standing(head, asked, query), line, rest);
    if asked {
      ExtendedOne(query, line);
      if IsNode(env, line) {
        FoldLines(env, head, query, [line], rest);
      }
    }
  }

  /** Whatever reading is right, the machine delivers its plan. */
  lemma {:induction false} ReadingIsDelivered(env: Env, head: Head, asked: bool, query: Text, r: Reading)
    requires Right(env, head, asked, query, r) && NotBlank(env.unicode, LinesOf(r))
    ensures Fold(env, Standing(head, asked, query), LinesOf(r)) == PlanOf(env, head, query, r)
    decreases r
  {
    var u := env.unicode;
    match r
    case Done =>
    case Skipped(line, rest) =>
      NotBlankParts(u, [line], LinesOf(rest));
      FoldLine(env, head, asked, query, line, LinesOf(rest));
      ReadingIsDelivered(env, head, false, query, rest);
    case QueryText(line, rest) =>
      NotBlankParts(u, [line], LinesOf(rest));
      AsksOpensNot(u, line);
      FoldLine(env, head, asked, query, line, LinesOf(rest));
      ReadingIsDelivered(env, head, true, Asked(u, line), rest);
    case QueryLine(line, rest) =>
      NotBlankParts(u, [line], LinesOf(rest));
      FoldLine(env, head, asked, query, line, LinesOf(rest));
      ReadingIsDelivered(env, head, true, Extended(query, [line]), rest);
    case Literal(doc, rest) =>
      NotBlankParts(u, doc, LinesOf(rest));
      FoldWhole(env, head, asked, query, doc, LinesOf(rest));
      ReadingIsDelivered(env, head, true, Extended(env.jsonPlan(head, query, Trimmed(u, doc)).1, Trimmed(u, doc)), rest);
    case TextPlan(lines) =>
      FoldLine(env, head, asked, query, lines[0], lines[1..]);
      assert [lines[0]] + lines[1..] == lines;
    case JsonPlan(doc, ignored) =>
      NotBlankParts(u, doc, ignored);
      FoldWhole(env, head, asked, query, doc, ignored);
    case JsonOpen(doc) =>
      OpeningAdds(env, head, asked, query, doc[0]);
      FoldOpenDocument(env, Standing(head, asked, query), head, query, [], JSON_START, doc);
      assert [] + Trimmed(u, doc) == Trimmed(u, doc);
  }

  lemma AsksOpensNot(u: Tables, line: Text)
    requires AsksFor(u, line)
    ensures !Opens(u, line)
  {
    if Opens(u, line) {
      OpensAsksNot(u, line);
    }
  }

  // ---- Every entry can be read ----

  /** Where the brackets close first, if they do. */
  lemma {:induction false} FirstClose(scan: JsonScan, lines: seq<Text>) returns (k: nat)
    ensures k <= |lines| && (k == 0 ==> StaysOpen(scan, lines)) && (k > 0 ==> ClosesLast(scan, lines[..k]))
    decreases |lines|
  {
    k := 0;
    if lines != [] {
      var next := ScanLine(scan, lines[0]);
      if Closed(next) {
        k := 1;
      } else {
        k := FirstClose(next, lines[1..]);
        if k > 0 {
          k := k + 1;
          assert lines[..k][1..] == lines[1..][..k - 1];
        }
      }
    }
  }

  /** Some reading is right, whatever the lines are. */
  lemma {:induction false} EveryEntryReads(env: Env, head: Head, asked: bool, query: Text, lines: seq<Text>)
    returns (r: Reading)
    ensures Right(env, head, asked, query, r) && LinesOf(r) == lines
    decreases |lines|
  {
    var u := env.unicode;
    if lines == [] {
      r := Done;
    } else if Opens(u, lines[0]) {
      r := DocumentReads(env, head, asked, query, lines);
    } else {
      var line, rest := lines[0], lines[1..];
      assert lines == [line] + rest;
      if asked && IsNode(env, line) {
        r := TextPlan(lines);
      } else if asked {
        r := EveryEntryReads(env, head, true, Extended(query, [line]), rest);
        r := QueryLine(line, r);
      } else if AsksFor(u, line) {
        r := EveryEntryReads(env, head, true, Asked(u, line), rest);
        r := QueryText(line, r);
      } else {
        r := EveryEntryReads(env, head, false, query, rest);
        r := Skipped(line, r);
      }
    }
  }

  lemma {:induction false} DocumentReads(env: Env, head: Head, asked: bool, query: Text, lines: seq<Text>)
    returns (r: Reading)
    requires lines != [] && Opens(env.unicode, lines[0])
    ensures Right(env, head, asked, query, r) && LinesOf(r) == lines
    decreases |lines|, 0
  {
    var u := env.unicode;
    var k := FirstClose(JSON_START, Trimmed(u, lines));
    if k == 0 {
      r := JsonOpen(lines);
    } else {
      var doc, rest := lines[..k], lines[k..];
      assert Trimmed(u, doc) == Trimmed(u, lines)[..k] && doc + rest == lines;
      var (plan, found) := env.jsonPlan(head, query, Trimmed(u, doc));
      if plan.Some? {
        r := JsonPlan(doc, rest);
      } else {
        r := EveryEntryReads(env, head, true, Extended(found, Trimmed(u, doc)), rest);
        r := Literal(doc, r);
      }
    }
  }

  // ---- Documents ----

  lemma {:induction false} NeverClosed(scan: JsonScan, lines: seq<Text>)
    requires forall i :: 0 <= i < |lines| ==> lines[i] != []
    requires forall k :: 0 < k <= |Flatten(lines)| ==> !Closed(ScanLine(scan, Flatten(lines)[..k]))
    ensures StaysOpen(scan, lines)
    decreases |lines|
  {
    if lines != [] {
      ScanBehind(scan, lines);
      NeverClosed(ScanLine(scan, lines[0]), lines[1..]);
    }
  }

  lemma {:induction false} ClosedAtEnd(scan: JsonScan, lines: seq<Text>)
    requires lines != [] && forall i :: 0 <= i < |lines| ==> lines[i] != []
    requires forall k :: 0 < k <= |Flatten(lines)| ==>
               (Closed(ScanLine(scan, Flatten(lines)[..k])) <==> k == |Flatten(lines)|)
    ensures ClosesLast(scan, lines)
    decreases |lines|
  {
    ScanBehind(scan, lines);
    if |lines| == 1 {
      assert lines[1..] == [] && Flatten(lines) == lines[0] + [] == lines[0];
    } else {
      FlattenGrows(lines[1..]);
      ClosedAtEnd(ScanLine(scan, lines[0]), lines[1..]);
    }
  }

  lemma FlattenGrows(lines: seq<Text>)
    requires lines != [] && lines[0] != []
    ensures Flatten(lines) != []
  {}

  /** The scan of a joined text, up to its first line and behind it. */
  lemma ScanBehind(scan: JsonScan, lines: seq<Text>)
    requires lines != []
    ensures |lines[0]| <= |Flatten(lines)| && Flatten(lines)[..|lines[0]|] == lines[0]
    ensures |Flatten(lines)| == |lines[0]| + |Flatten(lines[1..])|
    ensures forall k :: 0 <= k <= |Flatten(lines[1..])| ==>
              ScanLine(ScanLine(scan, lines[0]), Flatten(lines[1..])[..k]) == ScanLine(scan, Flatten(lines)[..|lines[0]| + k])
  {
    var line, rest := lines[0], Flatten(lines[1..]);
    assert Flatten(lines) == line + rest;
    forall k | 0 <= k <= |rest| ensures ScanLine(ScanLine(scan, line), rest[..k]) == ScanLine(scan, Flatten(lines)[..|line| + k]) {
      ScanAppend(scan, line, rest[..k]);
      assert Flatten(lines)[..|line| + k] == line + rest[..k];
    }
  }

  lemma FirstOpens(u: Tables, doc: seq<Text>, missing: Text, square: bool, inner: Doc)
    requires doc != [] && NotBlank(u, doc) && Flatten(Trimmed(u, doc)) + missing == Bracketed(square, inner)
    ensures Opens(u, doc[0])
  {
    var lines := Trimmed(u, doc);
    TrimmedNotEmpty(u, doc);
    assert Flatten(lines) == lines[0] + Flatten(lines[1..]);
    assert (Flatten(lines) + missing)[0] == lines[0][0];
  }

  /** An object or array, however it is cut into lines, is a document. */
  lemma BracketedIsDocument(u: Tables, doc: seq<Text>, square: bool, inner: Doc)
    requires WellFormed(inner) && NotBlank(u, doc) && Flatten(Trimmed(u, doc)) == Bracketed(square, inner)
    ensures Document(u, doc)
  {
    var t := Bracketed(square, inner);
    assert doc != [];
    assert t + [] == t;
    FirstOpens(u, doc, [], square, inner);
    TrimmedNotEmpty(u, doc);
    forall k | 0 < k <= |t| ensures Closed(ScanLine(JSON_START, t[..k])) <==> k == |t| {
      ClosesAtLastBracket(square, inner, k);
    }
    ClosedAtEnd(JSON_START, Trimmed(u, doc));
  }

  /** What is there of one that breaks off stays open. */
  lemma BracketedStaysOpen(u: Tables, doc: seq<Text>, square: bool, inner: Doc, missing: Text)
    requires WellFormed(inner) && NotBlank(u, doc) && doc != [] && missing != []
    requires Flatten(Trimmed(u, doc)) + missing == Bracketed(square, inner)
    ensures OpenDocument(u, doc)
  {
    var t, part := Bracketed(square, inner), Flatten(Trimmed(u, doc));
    FirstOpens(u, doc, missing, square, inner);
    TrimmedNotEmpty(u, doc);
    forall k | 0 < k <= |part| ensures !Closed(ScanLine(JSON_START, part[..k])) {
      assert part[..k] == t[..k];
      ClosesAtLastBracket(square, inner, k);
    }
    NeverClosed(JSON_START, Trimmed(u, doc));
  }
}
