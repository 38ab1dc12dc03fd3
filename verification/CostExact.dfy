/** The cost parser against the expression on decoded text, and against printed costs. */
module CostExact {
  import opened Common
  import opened Utf8
  import opened Unicode
  import opened Kernels
  import opened CostTuple

  // ---- Bytes and characters ----

  lemma EncodeCut(t: Text, q: nat)
    requires IsText(t) && q <= |t|
    ensures EncodeText(t) == EncodeText(t[..q]) + EncodeText(t[q..])
  {
    var head, rest := t[..q], t[q..];
    assert head + rest == t;
    EncodeAppend(head, rest);
  }

  /** An ASCII byte is a character of its own, never part of another one. */
  lemma {:induction false} CharacterAt(t: Text, pos: nat) returns (q: nat)
    requires IsText(t) && pos < |EncodeText(t)| && IsAscii(EncodeText(t)[pos])
    ensures q < |t| && |EncodeText(t[..q])| == pos
    decreases |t|
  {
    if pos == 0 {
      q := 0;
    } else {
      EncodedFirst(t, pos);
      q := CharacterAt(t[1..], pos - |Encode(t[0])|);
      assert t[..q + 1] == [t[0]] + t[1..][..q];
      assert t[..q + 1][1..] == t[1..][..q];
      q := q + 1;
    }
  }

  /** Inside the encoding of a character, nothing is ASCII. */
  lemma EncodedFirst(t: Text, pos: nat)
    requires IsText(t) && 0 < pos < |EncodeText(t)| && IsAscii(EncodeText(t)[pos])
    ensures pos >= |Encode(t[0])|
    ensures EncodeText(t[1..])[pos - |Encode(t[0])|] == EncodeText(t)[pos]
  {
    var e := Encode(t[0]);
    assert EncodeText(t) == e + EncodeText(t[1..]);
    if pos < |e| {
      assert false;
    }
  }

  lemma OccursSplit(s: Text, lit: Text, i: nat)
    requires OccursAt(s, lit, i)
    ensures s[i..] == lit + s[i + |lit|..]
  {}

  lemma SplitOccurs(pre: Text, lit: Text, post: Text)
    ensures OccursAt(pre + (lit + post), lit, |pre|)
    ensures (pre + (lit + post))[|pre| + |lit|..] == post
  {
    var s := pre + (lit + post);
    assert s[|pre|..] == lit + post;
    assert s[|pre|..|pre| + |lit|] == s[|pre|..][..|lit|];
  }

  /** An ASCII literal in the text is in the bytes. */
  lemma LiteralInBytes(t: Text, lit: Text, p: nat)
    requires IsText(t) && OccursAt(t, lit, p) && AllAscii(lit) && IsText(lit)
    ensures OccursAt(EncodeText(t), lit, |EncodeText(t[..p])|)
    ensures EncodeText(t)[|EncodeText(t[..p])| + |lit|..] == EncodeText(t[p + |lit|..])
  {
    EncodeCut(t, p);
    OccursSplit(t, lit, p);
    EncodeAsciiText(lit, t[p + |lit|..]);
    SplitOccurs(EncodeText(t[..p]), lit, EncodeText(t[p + |lit|..]));
  }

  lemma EncodedLengthGrows(t: Text, p: nat, q: nat)
    requires IsText(t) && p < q <= |t|
    ensures |EncodeText(t[..p])| < |EncodeText(t[..q])|
  {
    EncodeCut(t[..q], p);
    assert t[..q][..p] == t[..p];
  }

  lemma FirstOccurrence(haystack: Text, needle: Text) returns (r: Option<nat>)
    ensures IsFirstOccurrence(haystack, needle, r)
  {
    var i := 0;
    while i <= |haystack| && !OccursAt(haystack, needle, i)
      invariant i <= |haystack| + 1 && NoneBefore(haystack, needle, i)
    {
      i := i + 1;
    }
    r := if needle == [] || i > |haystack| then None else Some(i);
  }

  /** Bytes from an ASCII one on are the encoding of the characters from there on. */
  lemma SuffixAt(t: Text, pos: nat) returns (q: nat)
    requires IsText(t) && pos < |EncodeText(t)| && IsAscii(EncodeText(t)[pos])
    ensures q < |t| && |EncodeText(t[..q])| == pos && EncodeText(t)[pos..] == EncodeText(t[q..])
  {
    q := CharacterAt(t, pos);
    EncodeCut(t, q);
  }

  // ---- The same match in two texts that begin alike ----

  ghost predicate SameUpTo(s: Text, t: Text, n: nat) {
    n <= |s| && n <= |t| && s[..n] == t[..n]
  }

  lemma SameSlice(s: Text, t: Text, n: nat, a: nat, b: nat)
    requires SameUpTo(s, t, n) && a <= b <= n
    ensures s[a..b] == t[a..b]
  {
    assert s[a..b] == s[..n][a..b] && t[a..b] == t[..n][a..b];
  }

  lemma RunMoves(v: View, kind: Kind, s: Text, t: Text, n: nat, from: nat, end: nat)
    requires SameUpTo(s, t, n) && end <= n && IsRun(v, kind, s, from, end)
    ensures IsRun(v, kind, t, from, end)
  {
    forall k | from <= k < end ensures InKind(v, kind, t[k]) {
      assert t[k] == t[..n][k] && s[k] == s[..n][k];
    }
  }

  lemma LabelledMoves(v: View, s: Text, t: Text, n: nat, pos: nat, gap: nat, lit: Text, end: nat)
    requires SameUpTo(s, t, n) && end <= n && Labelled(v, s, pos, gap, lit, end)
    ensures Labelled(v, t, pos, gap, lit, end)
  {
    RunMoves(v, Gap, s, t, n, pos, gap);
    RunMoves(v, Digits, s, t, n, gap + |lit|, end);
    SameSlice(s, t, n, gap, gap + |lit|);
  }

  lemma MatchMoves(v: View, s: Text, t: Text, n: nat, d: Parts)
    requires SameUpTo(s, t, n) && d.width < n && Matches(v, s, d)
    ensures Matches(v, t, d)
  {
    RunMoves(v, Number, s, t, n, 0, d.min);
    RunMoves(v, Number, s, t, n, d.min + 2, d.max);
    LabelledMoves(v, s, t, n, d.max, d.rowsGap, ROWS, d.rows);
    LabelledMoves(v, s, t, n, d.rows, d.widthGap, WIDTH, d.width);
    DotsMove(s, t, n, d.min);
    assert s[d.width] == s[..n][d.width] && t[d.width] == t[..n][d.width];
  }

  lemma DotsMove(s: Text, t: Text, n: nat, i: nat)
    requires SameUpTo(s, t, n) && i + 1 < n
    ensures TwoDots(s, i) <==> TwoDots(t, i)
  {
    assert s[i] == s[..n][i] && t[i] == t[..n][i] && s[i + 1] == s[..n][i + 1] && t[i + 1] == t[..n][i + 1];
  }

  lemma PlainMoves(s: Text, t: Text, n: nat, d: Parts)
    requires SameUpTo(s, t, n) && d.width < n && Plain(s, d)
    ensures Plain(t, d)
  {
    MatchMoves(Scanner, s, t, n, d);
    forall k: nat | k + 1 < d.max && TwoDots(t, k) ensures k == d.min {
      DotsMove(s, t, n, k);
    }
  }

  lemma CostsMove(s: Text, t: Text, n: nat, d: Parts)
    requires SameUpTo(s, t, n) && d.min + 2 <= d.max <= n
    ensures MinOf(t, d) == MinOf(s, d) && MaxOf(t, d) == MaxOf(s, d)
  {
    SameSlice(s, t, n, 0, d.min);
    assert s[..d.min] == s[0..d.min] && t[..d.min] == t[0..d.min];
    SameSlice(s, t, n, d.min + 2, d.max);
  }

  lemma RowsMove(s: Text, t: Text, n: nat, d: Parts)
    requires SameUpTo(s, t, n) && d.rowsGap + |ROWS| <= d.rows <= n
    ensures RowsOf(t, d) == RowsOf(s, d)
  {
    SameSlice(s, t, n, d.rowsGap + |ROWS|, d.rows);
  }

  lemma WidthMoves(s: Text, t: Text, n: nat, d: Parts)
    requires SameUpTo(s, t, n) && d.widthGap + |WIDTH| <= d.width <= n
    ensures WidthOf(t, d) == WidthOf(s, d)
  {
    SameSlice(s, t, n, d.widthGap + |WIDTH|, d.width);
  }

  lemma FieldsMove(s: Text, t: Text, n: nat, d: Parts)
    requires SameUpTo(s, t, n) && d.width < n && Plain(s, d) && Plain(t, d)
    ensures Fields(t, d) == Fields(s, d)
  {
    CostsMove(s, t, n, d);
    RowsMove(s, t, n, d);
    WidthMoves(s, t, n, d);
  }

  // ---- A plain match is ASCII ----

  lemma RunIsAscii(kind: Kind, s: Text, from: nat, end: nat)
    requires IsRun(Scanner, kind, s, from, end)
    ensures AllAscii(s[from..end])
  {
    forall i | 0 <= i < end - from ensures IsAscii(s[from..end][i]) {
      assert InKind(Scanner, kind, s[from + i]);
    }
  }

  lemma AsciiJoins(s: Text, a: nat, b: nat, c: nat)
    requires a <= b <= c <= |s| && AllAscii(s[a..b]) && AllAscii(s[b..c])
    ensures AllAscii(s[a..c])
  {
    assert s[a..c] == s[a..b] + s[b..c];
  }

  lemma LabelledIsAscii(s: Text, pos: nat, gap: nat, lit: Text, end: nat)
    requires Labelled(Scanner, s, pos, gap, lit, end) && AllAscii(lit)
    ensures AllAscii(s[pos..end])
  {
    RunIsAscii(Gap, s, pos, gap);
    RunIsAscii(Digits, s, gap + |lit|, end);
    AsciiJoins(s, pos, gap, gap + |lit|);
    AsciiJoins(s, pos, gap + |lit|, end);
  }

  lemma PlainIsAscii(s: Text, d: Parts)
    requires Plain(s, d)
    ensures AllAscii(s[0..d.width + 1])
  {
    RunIsAscii(Number, s, 0, d.min);
    RunIsAscii(Number, s, d.min + 2, d.max);
    LabelledIsAscii(s, d.max, d.rowsGap, ROWS, d.rows);
    LabelledIsAscii(s, d.rows, d.widthGap, WIDTH, d.width);
    AsciiJoins(s, 0, d.min, d.min + 2);
    AsciiJoins(s, 0, d.min + 2, d.max);
    AsciiJoins(s, 0, d.max, d.rows);
    AsciiJoins(s, 0, d.rows, d.width);
    AsciiJoins(s, 0, d.width, d.width + 1);
  }

  // ---- Exact or decline ----

  /** A match of the whole expression, none of them starting earlier. */
  ghost predicate LeftmostMatch(u: Tables, t: Text, q: nat, d: Parts) {
    && MatchAt(u, t, q, d)
    && forall p, e :: 0 <= p < q ==> !MatchAt(u, t, p, e)
  }

  ghost predicate MatchAt(u: Tables, t: Text, q: nat, d: Parts) {
    OccursAt(t, MARKER, q) && Matches(Pattern(u), t[q + |MARKER|..], d)
  }

  /** An ASCII literal in the bytes is in the text. */
  lemma LiteralInText(t: Text, lit: Text, m: nat) returns (q: nat)
    requires IsText(t) && OccursAt(EncodeText(t), lit, m) && AllAscii(lit) && lit != []
    ensures OccursAt(t, lit, q) && |EncodeText(t[..q])| == m
  {
    assert EncodeText(t)[m] == EncodeText(t)[m..m + |lit|][0] == lit[0];
    q := SuffixAt(t, m);
    PrefixInText(t[q..], EncodeText(t), lit, m);
    assert t[q..][..|lit|] == t[q..q + |lit|];
  }

  lemma PrefixInText(t: Text, b: Text, lit: Text, m: nat)
    requires IsText(t) && OccursAt(b, lit, m) && b[m..] == EncodeText(t) && AllAscii(lit)
    ensures |lit| <= |t| && t[..|lit|] == lit
  {
    assert EncodeText(t)[..|lit|] == b[m..m + |lit|];
    EncodeAsciiPrefix(t, |lit|);
  }

  /** The first of the bytes is the first of the text. */
  lemma FirstInText(t: Text, lit: Text, m: nat) returns (q: nat)
    requires IsText(t) && IsFirstOccurrence(EncodeText(t), lit, Some(m)) && AllAscii(lit) && IsText(lit)
    ensures OccursAt(t, lit, q) && NoneBefore(t, lit, q)
    ensures EncodeText(t)[m + |lit|..] == EncodeText(t[q + |lit|..])
  {
    q := LiteralInText(t, lit, m);
    LiteralInBytes(t, lit, q);
    forall p | 0 <= p < q ensures !OccursAt(t, lit, p) {
      if OccursAt(t, lit, p) {
        LiteralInBytes(t, lit, p);
        EncodedLengthGrows(t, p, q);
      }
    }
  }

  /** A plain match of the bytes is one of the text, and reads the same. */
  lemma PlainInText(t: Text, d: Parts)
    requires IsText(t) && Plain(EncodeText(t), d)
    ensures Plain(t, d) && Fields(t, d) == Fields(EncodeText(t), d)
  {
    var b, n := EncodeText(t), d.width + 1;
    PlainIsAscii(b, d);
    assert b[0..n] == b[..n];
    EncodeAsciiPrefix(t, n);
    PlainMoves(b, t, n, d);
    FieldsMove(b, t, n, d);
  }

  /**
   * Whenever the parser answers, the expression has a leftmost match, in one
   * way only, and its captures convert to that answer: whatever `\d` and `\s`
   * mean outside ASCII.
   */
  lemma ExactOrDecline(u: Tables, t: Text, r: Tuple) returns (q: nat, d: Parts)
    requires IsText(t) && Answer(EncodeText(t), Some(r))
    ensures LeftmostMatch(u, t, q, d) && Fields(t[q + |MARKER|..], d) == Some(r)
    ensures forall p, e :: LeftmostMatch(u, t, p, e) ==> p == q && e == d
  {
    var s: Text;
    q, s := AnsweredMarker(t, r);
    d := AnsweredPlain(s, r);
    OnlyLeftmost(u, t, q, d);
  }

  lemma AnsweredPlain(s: Text, r: Tuple) returns (d: Parts)
    requires IsText(s) && AnswerAt(EncodeText(s), Some(r))
    ensures Plain(s, d) && Fields(s, d) == Some(r)
  {
    d :| Plain(EncodeText(s), d) && Fields(EncodeText(s), d) == Some(r);
    PlainInText(s, d);
  }

  lemma AnsweredMarker(t: Text, r: Tuple) returns (q: nat, s: Text)
    requires IsText(t) && Answer(EncodeText(t), Some(r))
    ensures OccursAt(t, MARKER, q) && NoneBefore(t, MARKER, q) && s == t[q + |MARKER|..]
    ensures AnswerAt(EncodeText(s), Some(r))
  {
    var b := EncodeText(t);
    var m := FirstOccurrence(b, MARKER);
    AnswerBehind(b, m, Some(r));
    MarkerIsAscii();
    q := FirstInText(t, MARKER, m.value);
    s := t[q + |MARKER|..];
  }

  lemma MarkerIsAscii()
    ensures AllAscii(MARKER) && IsText(MARKER)
  {}

  lemma AnswerBehind(b: Text, m: Option<nat>, r: Option<Tuple>)
    requires Answer(b, r) && IsFirstOccurrence(b, MARKER, m)
    ensures if m.None? then r == None else AnswerAt(b[m.value + |MARKER|..], r)
  {}

  /** Behind the first marker, a plain match is the only leftmost one. */
  lemma OnlyLeftmost(u: Tables, t: Text, q: nat, d: Parts)
    requires OccursAt(t, MARKER, q) && NoneBefore(t, MARKER, q) && Plain(t[q + |MARKER|..], d)
    ensures LeftmostMatch(u, t, q, d)
    ensures forall p, e :: LeftmostMatch(u, t, p, e) ==> p == q && e == d
  {
    var s := t[q + |MARKER|..];
    ScannerIsPattern(u, s, d);
    assert MatchAt(u, t, q, d);
    forall p, e | LeftmostMatch(u, t, p, e) ensures p == q && e == d {
      assert MatchAt(u, t, p, e);
      OnlyMatch(u, s, d, e);
    }
  }
}
