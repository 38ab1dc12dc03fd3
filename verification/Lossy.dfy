/** Parsing a chunk after decoding it lossily, instead of parsing its bytes. */
module Lossy {
  import opened Common
  import opened Lines
  import opened Utf8
  import opened Unicode
  import opened Regex
  import opened Timestamp
  import opened EntryState
  import opened LogParser

  /** The bytes of `String::from_utf8_lossy`. */
  function Recode(s: seq<byte>): seq<byte> {
    DecodeIsText(s);
    EncodeText(Decode(s))
  }

  lemma RecodeDecodes(s: seq<byte>)
    ensures Decode(Recode(s)) == Decode(s)
  {
    DecodeIsText(s);
    DecodeEncode(Decode(s));
  }

  // ---- One text, two spellings ----

  ghost predicate SameTexts(a: seq<seq<byte>>, b: seq<seq<byte>>) {
    |a| == |b| && forall k :: 0 <= k < |a| ==> Decode(a[k]) == Decode(b[k])
  }

  /** Byte sequences that decode alike have lines that decode alike. */
  lemma LinesDecodeAlike(s: seq<byte>, r: seq<byte>)
    requires Decode(s) == Decode(r)
    ensures SameTexts(FileLines(s), FileLines(r))
  {
    DecodeLinewise(s);
    DecodeLinewise(r);
    var a, b := DecodeEach(FileLines(s)), DecodeEach(FileLines(r));
    assert a == b;
    forall k | 0 <= k < |FileLines(s)| ensures Decode(FileLines(s)[k]) == Decode(FileLines(r)[k]) {
      assert a[k] == b[k];
    }
  }

  /** The classification of a line is that of its text. */
  lemma ClassifyText(env: Env, a: seq<byte>, b: seq<byte>)
    requires Decode(a) == Decode(b)
    ensures Classify(env, a) == Classify(env, b)
  {}

  lemma StepText(env: Env, lim: Limits, l: Loop, m: Loop, a: seq<byte>, b: seq<byte>)
    requires SamePlace(l, m) && Decode(a) == Decode(b)
    requires !Overflows(lim, l, |a|) && !Overflows(lim, m, |b|)
    ensures Step(env, lim, l, a).1 == Step(env, lim, m, b).1
    ensures SamePlace(Step(env, lim, l, a).0, Step(env, lim, m, b).0)
  {
    ClassifyText(env, a, b);
  }

  lemma {:induction false} RunText(env: Env, lim: Limits, l: Loop, m: Loop, a: seq<seq<byte>>, b: seq<seq<byte>>)
    requires SamePlace(l, m) && SameTexts(a, b)
    requires !Discards(env, lim, l, a) && !Discards(env, lim, m, b)
    ensures RunToEnd(env, lim, l, a) == RunToEnd(env, lim, m, b)
    decreases |a|
  {
    if a != [] {
      DiscardsStep(env, lim, l, a);
      DiscardsStep(env, lim, m, b);
      StepText(env, lim, l, m, a[0], b[0]);
      RunText(env, lim, Step(env, lim, l, a[0]).0, Step(env, lim, m, b[0]).0, a[1..], b[1..]);
      RunToEndStep(env, lim, l, a);
      RunToEndStep(env, lim, m, b);
    }
  }

  /** Neither cap acts. */
  ghost predicate Fits(env: Env, lim: Limits, s: seq<byte>) {
    Intact(env, lim, s) && forall k :: 0 <= k < |FileLines(s)| ==> |FileLines(s)[k]| <= lim.maxLine
  }

  /** Where the caps leave both alone, a parse of the decoded text delivers what a parse of the bytes does. */
  lemma LossyIsInvisible(env: Env, lim: Limits, s: seq<byte>)
    requires Fits(env, lim, s) && Fits(env, lim, Recode(s))
    ensures Plans(env, lim, Recode(s)) == Plans(env, lim, s)
  {
    var r := Recode(s);
    RecodeDecodes(s);
    LinesDecodeAlike(s, r);
    CutLinesShort(FileLines(s), lim.maxLine);
    CutLinesShort(FileLines(r), lim.maxLine);
    RunText(env, lim, START, START, FileLines(r), FileLines(s));
  }

  // ---- Cuts survive ----

  /** In front of an ASCII byte, decoding part by part is decoding the whole. */
  lemma RecodeCut(a: seq<byte>, b: seq<byte>)
    requires b != [] ==> IsAscii(b[0])
    ensures Recode(a + b) == Recode(a) + Recode(b)
  {
    DecodeCut(a, b);
    DecodeIsText(a);
    DecodeIsText(b);
    EncodeAppend(Decode(a), Decode(b));
  }

  lemma RecodeEndsLine(a: seq<byte>)
    requires a != [] && a[|a| - 1] == NEWLINE
    ensures Recode(a) != [] && Recode(a)[|Recode(a)| - 1] == NEWLINE
  {
    var body, nl: seq<byte> := a[..|a| - 1], [NEWLINE];
    assert a == body + nl;
    RecodeCut(body, nl);
    RecodeAscii(nl, []);
    assert nl + [] == nl;
  }

  lemma RecodeAscii(p: seq<byte>, r: seq<byte>)
    requires AllAscii(p)
    ensures Recode(p + r) == p + Recode(r)
  {
    DecodeAsciiPrefix(p, r);
    DecodeIsText(r);
    assert IsText(p);
    EncodeAsciiText(p, Decode(r));
  }

  /** The first 19 bytes decide whether an entry starts. */
  lemma StartsByCore(s: seq<byte>)
    requires TS_CORE_LEN <= |s| && AllAscii(s[..TS_CORE_LEN]) && InOrder(ASCII_ONLY, TS_SHAPE, s, 0)
    ensures StartsEntry(s)
  {
    var n := FirstLineLen(s, NEWLINE);
    FirstLineShape(s, NEWLINE);
    forall j | 0 <= j < TS_CORE_LEN ensures s[j] != NEWLINE {
      assert In(ASCII_ONLY, TS_SHAPE[j], s[0 + j]);
    }
    var line := s[..n];
    assert line[..TS_CORE_LEN] == s[..TS_CORE_LEN];
    forall j | 0 <= j < TS_CORE_LEN ensures In(ASCII_ONLY, TS_SHAPE[j], line[0 + j]) {
      assert In(ASCII_ONLY, TS_SHAPE[j], s[0 + j]);
    }
  }

  lemma CoreByStarts(s: seq<byte>)
    requires s != [] && StartsEntry(s)
    ensures TS_CORE_LEN <= |s| && AllAscii(s[..TS_CORE_LEN]) && InOrder(ASCII_ONLY, TS_SHAPE, s, 0)
  {
    var line := s[..FirstLineLen(s, NEWLINE)];
    assert line[..TS_CORE_LEN] == s[..TS_CORE_LEN];
    forall j | 0 <= j < TS_CORE_LEN ensures In(ASCII_ONLY, TS_SHAPE[j], s[0 + j]) {
      assert In(ASCII_ONLY, TS_SHAPE[j], line[0 + j]);
    }
  }

  /** What starts an entry still does once decoded. */
  lemma RecodeStarts(s: seq<byte>)
    requires s != [] && StartsEntry(s)
    ensures Recode(s) != [] && StartsEntry(Recode(s))
  {
    CoreByStarts(s);
    var p, r := s[..TS_CORE_LEN], s[TS_CORE_LEN..];
    assert s == p + r;
    RecodeAscii(p, r);
    var t := Recode(s);
    assert t[..TS_CORE_LEN] == p;
    forall j | 0 <= j < TS_CORE_LEN ensures In(ASCII_ONLY, TS_SHAPE[j], t[0 + j]) {
      assert In(ASCII_ONLY, TS_SHAPE[j], s[0 + j]) && t[j] == p[j];
    }
    StartsByCore(t);
  }

  /** The split law for decoded slices. */
  lemma LossySplitLaw(env: Env, lim: Limits, a: seq<byte>, b: seq<byte>)
    requires TS_CORE_LEN <= lim.maxLine && Intact(env, lim, Recode(a + b))
    requires LineStart(a + b, NEWLINE, |a|) && b != [] && StartsEntry(b)
    ensures Plans(env, lim, Recode(a + b)) == Plans(env, lim, Recode(a)) + Plans(env, lim, Recode(b))
    ensures Intact(env, lim, Recode(a))
  {
    CoreByStarts(b);
    assert IsAscii(b[..TS_CORE_LEN][0]);
    RecodeCut(a, b);
    RecodeStarts(b);
    if a != [] {
      assert (a + b)[|a| - 1] == a[|a| - 1];
      RecodeEndsLine(a);
    }
    IntactSlices(env, lim, Recode(a), Recode(b));
    SplitLaw(env, lim, Recode(a), Recode(b));
  }
}
