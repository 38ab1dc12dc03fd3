/** An entry that holds more than is counted for it: a JSON document that is no plan, with a query in it. */
module Rejected {
  import opened Common
  import opened Unicode
  import opened EntryState
  import opened LogParser
  import opened EntryBytes
  import opened EntryCap

  /** Closed, but without a plan. */
  const DOCUMENT: seq<byte> := Bytes("{\"Query Text\": \"x\"}")
  const DOCUMENT_LINE: seq<byte> := DOCUMENT + [NEWLINE]
  const X: Text := ['x' as nat]

  /** The document is recognized as none, and its query kept. */
  predicate Rejects(env: Env) {
    ReadsHeader(env) && env.jsonPlan(HeadOf(env), [], [DOCUMENT]) == (None, X)
  }

  lemma ScanNext(s: JsonScan, line: Text, k: nat)
    requires k < |line|
    ensures ScanLine(s, line[k..]) == ScanLine(ScanChar(s, line[k]), line[k + 1..])
  {
    assert line[k..][1..] == line[k + 1..];
  }

  /** Inside a string nothing counts up to the closing quote. */
  lemma {:induction false} ScanInside(s: JsonScan, line: Text, k: nat, n: nat)
    requires k <= n <= |line| && s.inString && !s.escapeNext
    requires forall i :: k <= i < n ==> line[i] != '\\' as nat && line[i] != '"' as nat
    ensures ScanLine(s, line[k..]) == ScanLine(s, line[n..])
    decreases n - k
  {
    if k < n {
      ScanNext(s, line, k);
      ScanInside(s, line, k + 1, n);
    }
  }

  /** Where the scan stands outside and inside a string of the object. */
  const OUTSIDE: JsonScan := JsonScan(1, false, false, true)
  const INSIDE: JsonScan := JsonScan(1, true, false, true)

  const QUOTE: nat := '"' as nat

  predicate Quiet(line: Text, k: nat, n: nat) {
    k <= n <= |line| && forall i :: k <= i < n ==> line[i] != '\\' as nat && line[i] != QUOTE
  }

  /** A string from its opening quote to behind its closing one. */
  lemma ScanString(line: Text, k: nat, n: nat)
    requires k + 1 <= n < |line| && line[k] == QUOTE && line[n] == QUOTE && Quiet(line, k + 1, n)
    ensures ScanLine(OUTSIDE, line[k..]) == ScanLine(OUTSIDE, line[n + 1..])
  {
    ScanNext(OUTSIDE, line, k);
    ScanInside(INSIDE, line, k + 1, n);
    ScanNext(INSIDE, line, n);
  }

  /** An object with one string under one key. */
  lemma ObjectCloses(d: Text)
    requires |d| == 19 && d[0] == '{' as nat && d[18] == '}' as nat && d[13] == ':' as nat && d[14] == ' ' as nat
    requires d[1] == QUOTE && Quiet(d, 2, 12) && d[12] == QUOTE && d[15] == QUOTE && Quiet(d, 16, 17) && d[17] == QUOTE
    ensures Closed(ScanLine(JSON_START, d))
  {
    assert d[0..] == d && d[19..] == [];
    ScanNext(JSON_START, d, 0);
    ScanString(d, 1, 12);
    ScanNext(OUTSIDE, d, 13);
    ScanNext(OUTSIDE, d, 14);
    ScanString(d, 15, 17);
    ScanNext(OUTSIDE, d, 18);
  }

  lemma DocumentCloses()
    ensures Closed(ScanLine(JSON_START, DOCUMENT))
  {
    ObjectCloses(DOCUMENT);
  }

  lemma DocumentShape(u: Tables)
    ensures |DOCUMENT| == 19 && Trim(u, DOCUMENT) == DOCUMENT
    ensures LooksLikeJsonStart(u, DOCUMENT) && !(QUERY_TEXT <= DOCUMENT)
  {
    var d: Text := DOCUMENT;
    assert d[0] == '{' as nat && d[18] == '}' as nat;
    assert TrimEnd(u, d) == d && TrimStart(u, d) == d;
    assert QUERY_TEXT[0] == 'Q' as nat;
  }

  /**
   * A header and the document: 20 bytes are counted for the entry, and it
   * holds 21 characters, one more than an entry cap of 20 allows.
   */
  lemma HoldsMoreThanCounted(env: Env, lim: Limits)
    requires Rejects(env) && lim.maxEntry == 20
    ensures var lines := [HEADER, DOCUMENT_LINE];
            var last := Run(env, lim, START, lines).0;
            && Breaks(lines) == 0 && last.entryBytes == 20 == lim.maxEntry
            && Held(last.state) == 21
  {
    HeaderStep(env, lim, START);
    DocumentStep(env, lim);
    TwoLineRun(env, lim, START, HEADER, DOCUMENT_LINE);
  }

  lemma DocumentStep(env: Env, lim: Limits)
    requires Rejects(env) && lim.maxEntry == 20
    ensures var waiting := Loop(WaitingForQuery(HeadOf(env), []), env.database(MESSAGE), 0);
            var next := Step(env, lim, waiting, DOCUMENT_LINE).0;
            next.entryBytes == 20 && Held(next.state) == 21
  {
    DocumentShape(env.unicode);
    DocumentCloses();
    ClassifyUndated(env, DOCUMENT);
    RejectedDocument(env, lim, HeadOf(env), env.database(MESSAGE), DOCUMENT_LINE, DOCUMENT, X);
  }

  lemma RunCons(env: Env, lim: Limits, l: Loop, raw: seq<byte>, rest: seq<seq<byte>>)
    ensures Run(env, lim, l, [raw] + rest).0 == Run(env, lim, Step(env, lim, l, raw).0, rest).0
  {
    var lines := [raw] + rest;
    assert lines[1..] == rest;
  }

  lemma BreaksCons(raw: seq<byte>, rest: seq<seq<byte>>)
    ensures Breaks([raw] + rest) == Break(raw) + Breaks(rest)
  {
    var lines := [raw] + rest;
    assert lines[1..] == rest;
  }

  lemma TwoLineRun(env: Env, lim: Limits, l: Loop, a: seq<byte>, b: seq<byte>)
    ensures Run(env, lim, l, [a, b]).0 == Step(env, lim, Step(env, lim, l, a).0, b).0
    ensures Breaks([a, b]) == Break(a) + Break(b)
  {
    var none: seq<seq<byte>> := [];
    var one := [b];
    assert [a, b] == [a] + one && one == [b] + none;
    RunCons(env, lim, l, a, one);
    RunCons(env, lim, Step(env, lim, l, a).0, b, none);
    BreaksCons(a, one);
    BreaksCons(b, none);
  }
}
