/** Printed costs parse back. */
module CostPrint {
  import opened Common
  import opened Unicode
  import opened Kernels
  import opened CostTuple
  import opened CostExact

  /** What PostgreSQL prints: costs to two decimals, in hundredths here. */
  datatype Cost = Cost(min: nat, max: nat, rows: nat, width: nat)

  function PrintDigit(n: nat): nat
    requires n < 10
  {
    '0' as nat + n
  }

  function PrintNat(n: nat): (t: Text)
    ensures t != []
  {
    if n < 10 then [PrintDigit(n)] else PrintNat(n / 10) + [PrintDigit(n % 10)]
  }

  function TwoDecimals(n: nat): Text
    requires n < 100
  {
    [PrintDigit(n / 10), PrintDigit(n % 10)]
  }

  function PrintDecimal(hundredths: nat): Text {
    PrintNat(hundredths / 100) + ([DOT] + TwoDecimals(hundredths % 100))
  }

  const GAP: Text := [' ' as nat]
  const SEPARATOR: Text := [DOT, DOT]

  /** ` label` and a number */
  function PrintLabelled(lit: Text, n: nat, rest: Text): Text {
    GAP + (lit + (PrintNat(n) + rest))
  }

  /** Everything behind the marker. */
  function PrintFields(c: Cost, rest: Text): Text {
    PrintDecimal(c.min) + (SEPARATOR + (PrintDecimal(c.max)
      + PrintLabelled(ROWS, c.rows, PrintLabelled(WIDTH, c.width, [CLOSE] + rest))))
  }

  function Hundredths(n: nat): real {
    n as real / 100.0
  }

  function Value(c: Cost): Tuple {
    Tuple(Hundredths(c.min), Hundredths(c.max), c.rows, c.width)
  }

  // ---- Numbers ----

  lemma DigitsValueSnoc(t: Text, c: nat)
    requires AllDigits(t) && AsciiDigit(c)
    ensures AllDigits(t + [c]) && DigitsValue(t + [c]) == 10 * DigitsValue(t) + (c - '0' as nat)
  {
    assert (t + [c])[..|t|] == t;
  }

  lemma {:induction false} PrintNatReads(n: nat)
    ensures AllDigits(PrintNat(n)) && DigitsValue(PrintNat(n)) == n
  {
    if n < 10 {
      var none: Text := [];
      assert none + PrintNat(n) == PrintNat(n);
      DigitsValueSnoc(none, PrintDigit(n));
    } else {
      PrintNatReads(n / 10);
      DigitsValueSnoc(PrintNat(n / 10), PrintDigit(n % 10));
    }
  }

  lemma PrintedUpTo(n: nat, max: nat)
    requires n <= max
    ensures ParseUpTo(PrintNat(n), max) == Some(n)
  {
    PrintNatReads(n);
  }

  lemma {:induction false} FirstDotBehind(w: Text, rest: Text)
    requires AllDigits(w)
    ensures FirstDot(w + ([DOT] + rest)) == |w|
  {
    var t := w + ([DOT] + rest);
    if w == [] {
      assert t[0] == DOT;
    } else {
      HeadTail(w, [DOT] + rest);
      FirstDotBehind(w[1..], rest);
    }
  }

  lemma DecimalDigits(w: Text, n: nat)
    requires AllDigits(w) && n < 100
    ensures AllDigits(w + TwoDecimals(n)) && DigitsValue(w + TwoDecimals(n)) == 100 * DigitsValue(w) + n
  {
    var a, b := PrintDigit(n / 10), PrintDigit(n % 10);
    DigitsValueSnoc(w, a);
    DigitsValueSnoc(w + [a], b);
    assert w + TwoDecimals(n) == (w + [a]) + [b];
  }

  lemma PrintedDecimal(h: nat)
    ensures ParseDecimal(PrintDecimal(h)) == Some(Hundredths(h))
  {
    var w, f := PrintNat(h / 100), TwoDecimals(h % 100);
    PrintNatReads(h / 100);
    DecimalDigits(w, h % 100);
    var t := w + ([DOT] + f);
    FirstDotBehind(w, f);
    assert t[..|w|] == w && t[|w| + 1..] == f;
    assert DigitsValue(w + f) == h;
    HundredthsOf(t, w, f, h);
  }

  lemma HundredthsOf(t: Text, w: Text, f: Text, h: nat)
    requires FirstDot(t) == |w| < |t| && t[..|w|] == w && t[|w| + 1..] == f && |f| == 2
    requires AllDigits(w + f) && DigitsValue(w + f) == h
    ensures ParseDecimal(t) == Some(Hundredths(h))
  {
    DecimalOf(t, w, f);
    TwoPlaces(h, Pow10(|f|));
  }

  lemma TwoPlaces(h: nat, p: nat)
    requires p == Pow10(2)
    ensures p > 0 && h as real / p as real == Hundredths(h)
  {
    assert Pow10(2) == 10 * Pow10(1) && Pow10(1) == 10 * Pow10(0);
    assert p as real == 100.0;
  }

  lemma DecimalOf(t: Text, w: Text, f: Text)
    requires FirstDot(t) == |w| < |t| && t[..|w|] == w && t[|w| + 1..] == f
    requires w + f != [] && AllDigits(w + f)
    ensures ParseDecimal(t) == Some(Shifted(w + f, |f|))
  {
    assert t[..FirstDot(t)] == w && t[FirstDot(t) + 1..] == f;
  }

  /** Digits with so many of them behind the dot. */
  function Shifted(digits: Text, places: nat): real
    requires AllDigits(digits)
  {
    DigitsValue(digits) as real / Pow10(places) as real
  }

  // ---- Where the printed parts lie ----

  lemma Peel(s: Text, i: nat, x: Text, rest: Text)
    requires i <= |s| && s[i..] == x + rest
    ensures i + |x| <= |s| && s[i..i + |x|] == x && s[i + |x|..] == rest
  {
    assert s[i..][..|x|] == x && s[i..][|x|..] == rest;
  }

  lemma DigitsRun(s: Text, from: nat, end: nat)
    requires from < end <= |s| && AllDigits(s[from..end])
    ensures IsRun(Scanner, Digits, s, from, end)
  {
    forall k | from <= k < end ensures AsciiDigit(s[k]) {
      assert s[k] == s[from..end][k - from];
    }
  }

  /** Digits with a single dot among them. */
  ghost predicate OneDot(t: Text, n: nat) {
    0 < n < |t| - 1 && t[n] == DOT && forall i :: 0 <= i < |t| && i != n ==> AsciiDigit(t[i])
  }

  lemma PrintedOneDot(h: nat)
    ensures OneDot(PrintDecimal(h), |PrintNat(h / 100)|)
  {
    PrintNatReads(h / 100);
    var w, t := PrintNat(h / 100), PrintDecimal(h);
    assert t[|w|] == DOT;
    assert forall i :: 0 <= i < |w| ==> t[i] == w[i];
  }

  lemma OneDotRun(s: Text, from: nat, end: nat, n: nat)
    requires from <= end <= |s| && OneDot(s[from..end], n)
    ensures IsRun(Scanner, Number, s, from, end) && NoDotsIn(s, from, end)
    ensures AsciiDigit(s[from]) && AsciiDigit(s[end - 1])
  {
    var t := s[from..end];
    forall k | from <= k < end ensures s[k] == t[k - from] && InKind(Scanner, Number, s[k]) {}
    forall k | from <= k && k + 1 < end ensures !TwoDots(s, k) {
      assert s[k] == t[k - from] && s[k + 1] == t[k + 1 - from];
    }
  }

  /** A printed label and number at `pos`. */
  lemma PrintedLabelled(s: Text, pos: nat, lit: Text, n: nat, rest: Text) returns (gap: nat, end: nat)
    requires pos <= |s| && s[pos..] == PrintLabelled(lit, n, rest)
    ensures Labelled(Scanner, s, pos, gap, lit, end)
    ensures s[gap + |lit|..end] == PrintNat(n) && s[end..] == rest
  {
    gap := pos + 1;
    Peel(s, pos, GAP, lit + (PrintNat(n) + rest));
    assert s[pos..gap][0] == s[pos];
    Peel(s, gap, lit, PrintNat(n) + rest);
    Peel(s, gap + |lit|, PrintNat(n), rest);
    end := gap + |lit| + |PrintNat(n)|;
    PrintNatReads(n);
    DigitsRun(s, gap + |lit|, end);
  }

  /** The printed costs at the front. */
  lemma PrintedCosts(s: Text, min: nat, max: nat, rest: Text) returns (i: nat, j: nat)
    requires s == PrintDecimal(min) + (SEPARATOR + (PrintDecimal(max) + rest))
    ensures IsRun(Scanner, Number, s, 0, i) && TwoDots(s, i) && IsRun(Scanner, Number, s, i + 2, j)
    ensures forall k: nat :: k + 1 < j && TwoDots(s, k) ==> k == i
    ensures s[..i] == PrintDecimal(min) && s[i + 2..j] == PrintDecimal(max) && s[j..] == rest
  {
    i := |PrintDecimal(min)|;
    j := i + 2 + |PrintDecimal(max)|;
    assert s[0..] == s;
    Peel(s, 0, PrintDecimal(min), SEPARATOR + (PrintDecimal(max) + rest));
    assert s[0..i] == s[..i];
    Peel(s, i, SEPARATOR, PrintDecimal(max) + rest);
    assert s[i] == s[i..i + 2][0] && s[i + 1] == s[i..i + 2][1];
    Peel(s, i + 2, PrintDecimal(max), rest);
    PrintedOneDot(min);
    PrintedOneDot(max);
    OneDotRun(s, 0, i, |PrintNat(min / 100)|);
    OneDotRun(s, i + 2, j, |PrintNat(max / 100)|);
    OnlySeparator(s, i, j);
  }

  lemma OnlySeparator(s: Text, i: nat, j: nat)
    requires 0 < i && i + 2 < j <= |s| && NoDotsIn(s, 0, i) && NoDotsIn(s, i + 2, j)
    requires AsciiDigit(s[i - 1]) && AsciiDigit(s[i + 2])
    ensures forall k: nat :: k + 1 < j && TwoDots(s, k) ==> k == i
  {}

  /** The captures of `d` are the printed numbers. */
  ghost predicate CapturesPrinted(s: Text, d: Parts, c: Cost) {
    && Plain(s, d)
    && s[..d.min] == PrintDecimal(c.min) && s[d.min + 2..d.max] == PrintDecimal(c.max)
    && s[d.rowsGap + |ROWS|..d.rows] == PrintNat(c.rows) && s[d.widthGap + |WIDTH|..d.width] == PrintNat(c.width)
  }

  /** The printed fields are a plain match. */
  lemma PrintedFieldsMatch(s: Text, c: Cost, rest: Text) returns (d: Parts)
    requires s == PrintFields(c, rest)
    ensures CapturesPrinted(s, d, c)
  {
    var close := [CLOSE] + rest;
    var width := PrintLabelled(WIDTH, c.width, close);
    var i, j := PrintedCosts(s, c.min, c.max, PrintLabelled(ROWS, c.rows, width));
    var rowsGap, rowsEnd := PrintedLabelled(s, j, ROWS, c.rows, width);
    var widthGap, widthEnd := PrintedLabelled(s, rowsEnd, WIDTH, c.width, close);
    assert s[widthEnd] == s[widthEnd..][0];
    d := Parts(i, j, rowsGap, rowsEnd, widthGap, widthEnd);
  }

  lemma PrintedCostsRead(s: Text, d: Parts, c: Cost)
    requires CapturesPrinted(s, d, c)
    ensures MinOf(s, d) == Some(Hundredths(c.min)) && MaxOf(s, d) == Some(Hundredths(c.max))
  {
    PrintedDecimal(c.min);
    PrintedDecimal(c.max);
  }

  lemma PrintedCountsRead(s: Text, d: Parts, c: Cost)
    requires CapturesPrinted(s, d, c) && c.rows <= U64_MAX && c.width <= U32_MAX
    ensures RowsOf(s, d) == Some(c.rows) && WidthOf(s, d) == Some(c.width)
  {
    PrintedUpTo(c.rows, U64_MAX);
    PrintedUpTo(c.width, U32_MAX);
  }

  lemma CapturesRead(s: Text, d: Parts, c: Cost)
    requires CapturesPrinted(s, d, c) && c.rows <= U64_MAX && c.width <= U32_MAX
    ensures AnswerAt(s, Some(Value(c)))
  {
    PrintedCostsRead(s, d, c);
    PrintedCountsRead(s, d, c);
    Reads(s, d, Some(Hundredths(c.min)), Some(Hundredths(c.max)));
  }

  /** Behind the marker, the printed fields read back. */
  lemma PrintedFieldsRead(c: Cost, rest: Text)
    requires c.rows <= U64_MAX && c.width <= U32_MAX
    ensures AnswerAt(PrintFields(c, rest), Some(Value(c)))
  {
    var d := PrintedFieldsMatch(PrintFields(c, rest), c, rest);
    CapturesRead(PrintFields(c, rest), d, c);
  }

  /** A marker behind text without one is the first. */
  lemma FirstBehind(prefix: Text, lit: Text, rest: Text)
    requires lit != [] && lit[0] !in lit[1..] && NoneBefore(prefix, lit, |prefix| + 1)
    ensures IsFirstOccurrence(prefix + (lit + rest), lit, Some(|prefix|))
  {
    var s := prefix + (lit + rest);
    SplitOccurs(prefix, lit, rest);
    forall i | 0 <= i < |prefix| ensures !OccursAt(s, lit, i) {
      if i + |lit| <= |prefix| {
        assert s[i..i + |lit|] == prefix[i..i + |lit|];
        assert !OccursAt(prefix, lit, i);
      } else if i + |lit| <= |s| {
        var k := |prefix| - i;
        assert s[i..i + |lit|][k] == s[|prefix|] == lit[0];
        assert lit[1..][k - 1] == lit[k];
      }
    }
  }

  /** Any costs, printed behind any text without a marker and in front of any other, parse back. */
  lemma PrintedCostParsesBack(prefix: Text, c: Cost, rest: Text)
    requires NoneBefore(prefix, MARKER, |prefix| + 1)
    requires c.rows <= U64_MAX && c.width <= U32_MAX
    ensures Answer(prefix + (MARKER + PrintFields(c, rest)), Some(Value(c)))
    ensures forall r :: Answer(prefix + (MARKER + PrintFields(c, rest)), r) ==> r == Some(Value(c))
  {
    var fields := PrintFields(c, rest);
    var line := prefix + (MARKER + fields);
    FirstBehind(prefix, MARKER, fields);
    SplitOccurs(prefix, MARKER, fields);
    PrintedFieldsRead(c, rest);
    OnlyAnswer(line, Some(|prefix|), Some(Value(c)));
  }

  /** The right answer behind the first marker is the right answer, and the only one. */
  lemma OnlyAnswer(line: Text, here: Option<nat>, r: Option<Tuple>)
    requires IsFirstOccurrence(line, MARKER, here) && here.Some? && AnswerAt(line[here.value + |MARKER|..], r)
    ensures Answer(line, r)
    ensures forall q :: Answer(line, q) ==> q == r
  {
    forall m: Option<nat> | IsFirstOccurrence(line, MARKER, m) ensures m == here {
      FirstOccurrenceUnique(line, MARKER, m, here);
    }
    forall q | Answer(line, q) ensures q == r {
      AnswerBehind(line, here, q);
      AnswerUnique(line[here.value + |MARKER|..], q, r);
    }
  }
}
