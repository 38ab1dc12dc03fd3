/** The byte-wise parser of `(cost=1.23..4.56 rows=7 width=8)`, which answers exactly or declines. */
module CostTuple {
  import opened Common
  import opened Utf8
  import opened Unicode
  import Kernels

  const U32_MAX: nat := 0xFFFF_FFFF
  const DOT: nat := '.' as nat
  const CLOSE: nat := ')' as nat

  /** `(cost=` */
  const MARKER: seq<byte> := ['(' as nat, 'c' as nat, 'o' as nat, 's' as nat, 't' as nat, '=' as nat]
  /** `rows=` */
  const ROWS: seq<byte> := ['r' as nat, 'o' as nat, 'w' as nat, 's' as nat, '=' as nat]
  /** `width=` */
  const WIDTH: seq<byte> := ['w' as nat, 'i' as nat, 'd' as nat, 't' as nat, 'h' as nat, '=' as nat]

  /** Costs as the exact decimals they spell. */
  datatype Tuple = Tuple(min: real, max: real, rows: nat, width: nat)

  // ---- The expression ----

  /** Whose character classes apply: the expression's, or the scanner's. */
  datatype View = Pattern(u: Tables) | Scanner

  datatype Kind = Number | Gap | Digits

  predicate InKind(v: View, kind: Kind, c: nat) {
    match v
    case Pattern(u) =>
      (match kind
       case Number => IsDigit(u, c) || c == DOT
       case Gap => IsSpace(u, c)
       case Digits => IsDigit(u, c))
    case Scanner =>
      (match kind
       case Number => AsciiDigit(c) || c == DOT
       case Gap => AsciiSpace(c) && c != 0x0B
       case Digits => AsciiDigit(c))
  }

  /** A nonempty run of one kind. */
  ghost predicate IsRun(v: View, kind: Kind, s: Text, from: nat, end: nat) {
    from < end <= |s| && forall k :: from <= k < end ==> InKind(v, kind, s[k])
  }

  predicate TwoDots(s: Text, i: nat) {
    i + 1 < |s| && s[i] == DOT && s[i + 1] == DOT
  }

  /** Where the parts of one match end. */
  datatype Parts = Parts(min: nat, max: nat, rowsGap: nat, rows: nat, widthGap: nat, width: nat)

  /** `\s+label\d+` from `pos` to `end`. */
  ghost predicate Labelled(v: View, s: Text, pos: nat, gap: nat, lit: Text, end: nat) {
    IsRun(v, Gap, s, pos, gap) && OccursAt(s, lit, gap) && IsRun(v, Digits, s, gap + |lit|, end)
  }

  /** `([\d.]+)\.\.([\d.]+)\s+rows=(\d+)\s+width=(\d+)\)`, behind the marker. */
  ghost predicate Matches(v: View, s: Text, d: Parts) {
    && IsRun(v, Number, s, 0, d.min)
    && TwoDots(s, d.min)
    && IsRun(v, Number, s, d.min + 2, d.max)
    && Labelled(v, s, d.max, d.rowsGap, ROWS, d.rows)
    && Labelled(v, s, d.rows, d.widthGap, WIDTH, d.width)
    && d.width < |s| && s[d.width] == CLOSE
  }

  /** The two costs hold no pair of dots but the separator. */
  ghost predicate OneSeparator(s: Text, d: Parts) {
    forall k: nat :: k + 1 < d.max && TwoDots(s, k) ==> k == d.min
  }

  /** What the parser does not decline: a match in ASCII, with one separator. */
  ghost predicate Plain(s: Text, d: Parts) {
    Matches(Scanner, s, d) && OneSeparator(s, d)
  }

  // ---- Numbers ----

  predicate AllDigits(t: Text) {
    forall i :: 0 <= i < |t| ==> AsciiDigit(t[i])
  }

  function DigitsValue(t: Text): nat
    requires AllDigits(t)
  {
    if t == [] then 0 else 10 * DigitsValue(t[..|t| - 1]) + (t[|t| - 1] - '0' as nat)
  }

  /** Unsigned integers up to `max`. */
  function ParseUpTo(t: Text, max: nat): Option<nat> {
    if t == [] || !AllDigits(t) || DigitsValue(t) > max then None else Some(DigitsValue(t))
  }

  function FirstDot(t: Text): (n: nat)
    ensures n <= |t|
  {
    if t == [] || t[0] == DOT then 0 else 1 + FirstDot(t[1..])
  }

  function Pow10(n: nat): (p: nat)
    ensures p > 0
  {
    if n == 0 then 1 else 10 * Pow10(n - 1)
  }

  /** Decimals: digits around at most one dot, at least one of them. */
  function ParseDecimal(t: Text): Option<real> {
    var k := FirstDot(t);
    var whole, fraction := t[..k], if k < |t| then t[k + 1..] else [];
    if whole + fraction == [] || !AllDigits(whole + fraction) then None
    else Some(DigitsValue(whole + fraction) as real / Pow10(|fraction|) as real)
  }

  // The four captured groups, converted.

  function MinOf(s: Text, d: Parts): Option<real>
    requires d.min <= |s|
  {
    ParseDecimal(s[..d.min])
  }

  function MaxOf(s: Text, d: Parts): Option<real>
    requires d.min + 2 <= d.max <= |s|
  {
    ParseDecimal(s[d.min + 2..d.max])
  }

  function RowsOf(s: Text, d: Parts): Option<nat>
    requires d.rowsGap + |ROWS| <= d.rows <= |s|
  {
    ParseUpTo(s[d.rowsGap + |ROWS|..d.rows], U64_MAX)
  }

  function WidthOf(s: Text, d: Parts): Option<nat>
    requires d.widthGap + |WIDTH| <= d.width <= |s|
  {
    ParseUpTo(s[d.widthGap + |WIDTH|..d.width], U32_MAX)
  }

  /** The tuple, if all four can be read. */
  function Fields(s: Text, d: Parts): Option<Tuple>
    requires d.min + 2 <= d.max <= |s|
    requires d.rowsGap + |ROWS| <= d.rows <= |s| && d.widthGap + |WIDTH| <= d.width <= |s|
  {
    var min, max, rows, width := MinOf(s, d), MaxOf(s, d), RowsOf(s, d), WidthOf(s, d);
    if min.None? || max.None? || rows.None? || width.None? then None
    else Some(Tuple(min.value, max.value, rows.value, width.value))
  }

  lemma ParseUpToLess(t: Text, max: nat, less: nat)
    requires less <= max
    ensures ParseUpTo(t, less) ==
            if ParseUpTo(t, max).Some? && ParseUpTo(t, max).value <= less then ParseUpTo(t, max) else None
  {}

  /** A number is what its digits are worth, the leftmost most. */
  lemma {:induction false} DigitsAreWorth(t: Text)
    requires AllDigits(t) && t != []
    ensures AllDigits(t[1..]) && DigitsValue(t) == (t[0] - '0' as nat) * Pow10(|t| - 1) + DigitsValue(t[1..])
  {
    var n := |t| - 1;
    if n == 0 {
      assert t[..n] == [] && t[1..] == [];
    } else {
      var init, one := t[..n], t[n] - '0' as nat;
      DigitsAreWorth(init);
      assert init[1..] == t[1..][..n - 1];
      Tenfold(t[0] - '0' as nat, Pow10(n - 1), DigitsValue(init[1..]), one);
    }
  }

  lemma Tenfold(a: nat, p: nat, rest: nat, one: nat)
    ensures 10 * (a * p + rest) + one == a * (10 * p) + (10 * rest + one)
  {}

  /** Rows of 64 bits and widths of 32 are read, larger ones are not. */
  lemma NumbersFit(s: Text, d: Parts)
    requires Plain(s, d)
    ensures var rows, width := s[d.rowsGap + |ROWS|..d.rows], s[d.widthGap + |WIDTH|..d.width];
            && AllDigits(rows) && AllDigits(width)
            && RowsOf(s, d) == (if DigitsValue(rows) < 0x1_0000_0000_0000_0000 then Some(DigitsValue(rows)) else None)
            && WidthOf(s, d) == (if DigitsValue(width) < 0x1_0000_0000 then Some(DigitsValue(width)) else None)
  {
    RunIsDigits(s, d.rowsGap + |ROWS|, d.rows);
    RunIsDigits(s, d.widthGap + |WIDTH|, d.width);
  }

  lemma RunIsDigits(s: Text, from: nat, end: nat)
    requires IsRun(Scanner, Digits, s, from, end)
    ensures AllDigits(s[from..end]) && s[from..end] != []
  {
    forall i | 0 <= i < end - from ensures AsciiDigit(s[from..end][i]) {
      assert InKind(Scanner, Digits, s[from + i]);
    }
  }

  /** The right answer for what follows the marker. */
  ghost predicate AnswerAt(s: Text, r: Option<Tuple>) {
    match r
    case None => forall d :: Plain(s, d) ==> Fields(s, d) == None
    case Some(t) => exists d :: Plain(s, d) && Fields(s, d) == r
  }

  /** The right answer for a line: only its first marker is looked at. */
  ghost predicate Answer(s: Text, r: Option<Tuple>) {
    forall m: Option<nat> :: Kernels.IsFirstOccurrence(s, MARKER, m) ==>
      if m.None? then r == None else AnswerAt(s[m.value + |MARKER|..], r)
  }

  // ---- One decomposition ----

  /**
   * A run the scanner ended and a run the expression could have ended, from the
   * same place, each followed by something the other cannot take.
   */
  lemma SameRun(u: Tables, kind: Kind, s: Text, from: nat, end: nat, end': nat)
    requires IsRun(Scanner, kind, s, from, end) && IsRun(Pattern(u), kind, s, from, end')
    requires end < |s| && !InKind(Pattern(u), kind, s[end])
    requires end' < |s| && !InKind(Scanner, kind, s[end'])
    ensures end == end'
  {}

  /** The expression's classes contain the scanner's. */
  lemma ScannerIsPattern(u: Tables, s: Text, d: Parts)
    requires Matches(Scanner, s, d)
    ensures Matches(Pattern(u), s, d)
  {
    ScannerRunIsPattern(u, Number, s, 0, d.min);
    ScannerRunIsPattern(u, Number, s, d.min + 2, d.max);
    ScannerRunIsPattern(u, Gap, s, d.max, d.rowsGap);
    ScannerRunIsPattern(u, Digits, s, d.rowsGap + |ROWS|, d.rows);
    ScannerRunIsPattern(u, Gap, s, d.rows, d.widthGap);
    ScannerRunIsPattern(u, Digits, s, d.widthGap + |WIDTH|, d.width);
  }

  lemma ScannerRunIsPattern(u: Tables, kind: Kind, s: Text, from: nat, end: nat)
    requires IsRun(Scanner, kind, s, from, end)
    ensures IsRun(Pattern(u), kind, s, from, end)
  {
    forall k | from <= k < end ensures InKind(Pattern(u), kind, s[k]) {
      assert InKind(Scanner, kind, s[k]);
    }
  }

  /** Greedy or not, the first cost can only end at the one separator. */
  lemma SameMin(u: Tables, s: Text, d: Parts, e: Parts)
    requires Plain(s, d) && Matches(Pattern(u), s, e)
    ensures e.min == d.min
  {
    assert InKind(Scanner, Gap, s[d.max]);
  }

  lemma SameLabelled(u: Tables, s: Text, pos: nat, lit: Text, gap: nat, end: nat, gap': nat, end': nat)
    requires Labelled(Scanner, s, pos, gap, lit, end) && Labelled(Pattern(u), s, pos, gap', lit, end')
    requires lit != [] && IsAscii(lit[0]) && !AsciiSpace(lit[0])
    requires end < |s| && !InKind(Pattern(u), Digits, s[end])
    requires end' < |s| && !InKind(Scanner, Digits, s[end'])
    ensures gap' == gap && end' == end
  {
    assert s[gap] == s[gap..gap + |lit|][0] && s[gap'] == s[gap'..gap' + |lit|][0];
    SameRun(u, Gap, s, pos, gap, gap');
    SameRun(u, Digits, s, gap + |lit|, end, end');
  }

  /** The parts of a plain match are the only way the expression can match there. */
  lemma OnlyMatch(u: Tables, s: Text, d: Parts, e: Parts)
    requires Plain(s, d) && Matches(Pattern(u), s, e)
    ensures e == d
  {
    SameMin(u, s, d, e);
    assert InKind(Scanner, Gap, s[d.max]) && InKind(Pattern(u), Gap, s[e.max]);
    SameRun(u, Number, s, d.min + 2, d.max, e.max);
    assert InKind(Scanner, Gap, s[d.rows]) && InKind(Pattern(u), Gap, s[e.rows]);
    SameLabelled(u, s, d.max, ROWS, d.rowsGap, d.rows, e.rowsGap, e.rows);
    SameLabelled(u, s, d.rows, WIDTH, d.widthGap, d.width, e.widthGap, e.width);
  }

  // ---- The scanner ----

  /** A run, possibly empty, that cannot go on. */
  ghost predicate WholeRun(kind: Kind, s: Text, from: nat, end: nat) {
    && from <= end <= |s|
    && (forall k :: from <= k < end ==> InKind(Scanner, kind, s[k]))
    && (end < |s| ==> !InKind(Scanner, kind, s[end]))
  }

  lemma WholeRunIsRun(kind: Kind, s: Text, from: nat, end: nat, end': nat)
    requires WholeRun(kind, s, from, end)
    requires IsRun(Scanner, kind, s, from, end') && end' < |s| && !InKind(Scanner, kind, s[end'])
    ensures end == end'
  {}

  /** A label and digits that could be part of a match: something else follows them. */
  ghost predicate Stopped(s: Text, pos: nat, gap: nat, lit: Text, end: nat) {
    Labelled(Scanner, s, pos, gap, lit, end) && end < |s| && !InKind(Scanner, Digits, s[end])
  }

  /** The only `gap` and `end` that a label at `pos` can have. */
  ghost predicate OnlyLabelled(s: Text, pos: nat, lit: Text, gap: nat, end: nat) {
    forall g: nat, e: nat :: Stopped(s, pos, g, lit, e) ==> g == gap && e == end
  }

  ghost predicate NoLabelled(s: Text, pos: nat, lit: Text) {
    forall g: nat, e: nat :: !Stopped(s, pos, g, lit, e)
  }

  /** The labelled number at `pos`: the one there can be, up to `end`; or none that could be read. */
  ghost predicate LabelledAnswer(s: Text, pos: nat, lit: Text, value: Option<nat>, end: nat) {
    match value
    case None => forall g: nat, e: nat :: Stopped(s, pos, g, lit, e) ==> ParseUpTo(s[g + |lit|..e], U64_MAX) == None
    case Some(v) =>
      exists gap: nat :: Labelled(Scanner, s, pos, gap, lit, end) && OnlyLabelled(s, pos, lit, gap, end)
        && ParseUpTo(s[gap + |lit|..end], U64_MAX) == Some(v)
  }

  /** `scan_labelled_int`: the number, and the position behind it. */
  method ScanLabelledInt(line: seq<byte>, pos: nat, lit: seq<byte>) returns (value: Option<nat>, end: nat)
    requires pos <= |line|
    requires lit != [] && IsAscii(lit[0]) && !AsciiSpace(lit[0])
    ensures LabelledAnswer(line, pos, lit, value, end)
  {
    var k := pos;
    while k < |line| && InKind(Scanner, Gap, line[k])
      invariant pos <= k <= |line| && forall i :: pos <= i < k ==> InKind(Scanner, Gap, line[i])
    {
      k := k + 1;
    }
    ghost var gap := k;
    GapEnds(line, pos, lit, gap);
    if k == pos || !OccursAt(line, lit, k) {
      return None, pos;
    }
    var digits := k + |lit|;
    k := digits;
    while k < |line| && InKind(Scanner, Digits, line[k])
      invariant digits <= k <= |line| && forall i :: digits <= i < k ==> InKind(Scanner, Digits, line[i])
    {
      k := k + 1;
    }
    DigitsEnd(line, pos, lit, gap, k);
    if k == digits {
      return None, pos;
    }
    value, end := ParseUpTo(line[digits..k], U64_MAX), k;
    TheNumber(line, pos, lit, gap, k, value);
  }

  lemma LabelledGap(s: Text, pos: nat, lit: Text, v: nat, end: nat) returns (gap: nat)
    requires LabelledAnswer(s, pos, lit, Some(v), end)
    ensures Labelled(Scanner, s, pos, gap, lit, end) && OnlyLabelled(s, pos, lit, gap, end)
    ensures ParseUpTo(s[gap + |lit|..end], U64_MAX) == Some(v)
  {
    gap :| Labelled(Scanner, s, pos, gap, lit, end) && OnlyLabelled(s, pos, lit, gap, end)
      && ParseUpTo(s[gap + |lit|..end], U64_MAX) == Some(v);
  }

  lemma TheNumber(s: Text, pos: nat, lit: Text, gap: nat, end: nat, value: Option<nat>)
    requires Labelled(Scanner, s, pos, gap, lit, end) && OnlyLabelled(s, pos, lit, gap, end)
    requires value == ParseUpTo(s[gap + |lit|..end], U64_MAX)
    ensures LabelledAnswer(s, pos, lit, value, end)
  {}

  lemma GapEnds(s: Text, pos: nat, lit: Text, gap: nat)
    requires WholeRun(Gap, s, pos, gap)
    requires lit != [] && IsAscii(lit[0]) && !AsciiSpace(lit[0])
    ensures forall g: nat, e: nat :: Labelled(Scanner, s, pos, g, lit, e) ==> g == gap
  {
    forall g: nat, e: nat | Labelled(Scanner, s, pos, g, lit, e) ensures g == gap {
      assert s[g] == s[g..g + |lit|][0];
      WholeRunIsRun(Gap, s, pos, gap, g);
    }
  }

  lemma DigitsEnd(s: Text, pos: nat, lit: Text, gap: nat, end: nat)
    requires WholeRun(Digits, s, gap + |lit|, end)
    requires forall g: nat, e: nat :: Labelled(Scanner, s, pos, g, lit, e) ==> g == gap
    ensures OnlyLabelled(s, pos, lit, gap, end)
    ensures end == gap + |lit| ==> NoLabelled(s, pos, lit)
  {
    forall g: nat, e: nat | Stopped(s, pos, g, lit, e) ensures e == end {
      WholeRunIsRun(Digits, s, gap + |lit|, end, e);
    }
  }

  /** The scan for the separator stops at a pair of dots, or nowhere that helps. */
  ghost predicate MinScanned(s: Text, i: nat) {
    && i <= |s|
    && (forall k :: 0 <= k < i ==> InKind(Scanner, Number, s[k]) && !TwoDots(s, k))
    && (i < |s| && InKind(Scanner, Number, s[i]) ==> TwoDots(s, i))
  }

  lemma MinFound(s: Text, i: nat)
    requires MinScanned(s, i)
    ensures forall d :: Plain(s, d) ==> d.min == i && 0 < i && SeparatorAt(s, i)
  {
    forall d | Plain(s, d) ensures d.min == i && 0 < i && SeparatorAt(s, i) {
      assert s[d.min + 2] == DOT ==> TwoDots(s, d.min + 1);
    }
  }

  /** Two dots and no third. */
  predicate SeparatorAt(s: Text, i: nat) {
    TwoDots(s, i) && !(i + 2 < |s| && s[i + 2] == DOT)
  }

  ghost predicate NoDotsIn(s: Text, from: nat, end: nat) {
    forall k :: from <= k && k + 1 < end ==> !TwoDots(s, k)
  }

  lemma MaxFound(s: Text, i: nat, j: nat)
    requires forall d :: Plain(s, d) ==> d.min == i
    requires WholeRun(Number, s, i + 2, j)
    ensures forall d :: Plain(s, d) ==> d.max == j && i + 2 < j && NoDotsIn(s, i + 2, j)
  {
    forall d | Plain(s, d) ensures d.max == j && i + 2 < j && NoDotsIn(s, i + 2, j) {
      assert InKind(Scanner, Gap, s[d.max]);
      WholeRunIsRun(Number, s, i + 2, j, d.max);
    }
  }

  lemma OneSeparatorFound(s: Text, d: Parts)
    requires MinScanned(s, d.min) && SeparatorAt(s, d.min) && NoDotsIn(s, d.min + 2, d.max)
    ensures OneSeparator(s, d)
  {}

  /** A window of two dots, as the scan of the second cost looks for it. */
  method HasTwoDots(line: seq<byte>, from: nat, end: nat) returns (found: bool)
    requires end <= |line|
    ensures found <==> !NoDotsIn(line, from, end)
  {
    var k := from;
    while k + 1 < end
      invariant forall n :: from <= n < k ==> !TwoDots(line, n)
    {
      if TwoDots(line, k) {
        return true;
      }
      k := k + 1;
    }
    return false;
  }

  /** The two costs: where they end, if any plain match is possible. */
  method ScanCosts(line: seq<byte>) returns (r: Option<(nat, nat)>)
    ensures r.None? ==> forall d :: !Plain(line, d)
    ensures r.Some? ==> forall d :: Plain(line, d) ==> d.min == r.value.0 && d.max == r.value.1
    ensures r.Some? ==> CostsAt(line, r.value.0, r.value.1)
  {
    var i := 0;
    while i < |line| && (AsciiDigit(line[i]) || (line[i] == DOT && !(i + 1 < |line| && line[i + 1] == DOT)))
      invariant i <= |line|
      invariant forall k :: 0 <= k < i ==> InKind(Scanner, Number, line[k]) && !TwoDots(line, k)
    {
      i := i + 1;
    }
    MinFound(line, i);
    if !TwoDots(line, i) || i == 0 {
      return None;
    }
    if i + 2 < |line| && line[i + 2] == DOT {
      return None;
    }
    var j := i + 2;
    while j < |line| && InKind(Scanner, Number, line[j])
      invariant i + 2 <= j <= |line| && forall k :: i + 2 <= k < j ==> InKind(Scanner, Number, line[k])
    {
      j := j + 1;
    }
    MaxFound(line, i, j);
    var dots := HasTwoDots(line, i + 2, j);
    if j == i + 2 || dots {
      return None;
    }
    return Some((i, j));
  }

  ghost predicate CostsAt(s: Text, i: nat, j: nat) {
    && IsRun(Scanner, Number, s, 0, i) && IsRun(Scanner, Number, s, i + 2, j)
    && MinScanned(s, i) && SeparatorAt(s, i) && NoDotsIn(s, i + 2, j)
  }

  /** The rows of a plain match are a labelled number that something else follows. */
  lemma RowsStopped(s: Text, d: Parts)
    requires Plain(s, d)
    ensures Stopped(s, d.max, d.rowsGap, ROWS, d.rows)
  {
    assert InKind(Scanner, Gap, s[d.rows]);
  }

  lemma WidthStopped(s: Text, d: Parts)
    requires Plain(s, d)
    ensures Stopped(s, d.rows, d.widthGap, WIDTH, d.width)
  {}

  lemma RowsFound(s: Text, j: nat, gap: nat, end: nat)
    requires forall d :: Plain(s, d) ==> d.max == j
    requires OnlyLabelled(s, j, ROWS, gap, end)
    ensures forall d :: Plain(s, d) ==> d.rowsGap == gap && d.rows == end
  {
    forall d | Plain(s, d) ensures d.rowsGap == gap && d.rows == end {
      RowsStopped(s, d);
    }
  }

  lemma WidthFound(s: Text, pos: nat, gap: nat, end: nat)
    requires forall d :: Plain(s, d) ==> d.rows == pos
    requires OnlyLabelled(s, pos, WIDTH, gap, end)
    ensures forall d :: Plain(s, d) ==> d.widthGap == gap && d.width == end
  {
    forall d | Plain(s, d) ensures d.widthGap == gap && d.width == end {
      WidthStopped(s, d);
    }
  }

  /** What every plain match captures, once its ends are known. */
  lemma CapturedHere(s: Text, i: nat, j: nat)
    requires CostsAt(s, i, j)
    requires forall d :: Plain(s, d) ==> d.min == i && d.max == j
    ensures forall d :: Plain(s, d) ==>
              MinOf(s, d) == ParseDecimal(s[..i]) && MaxOf(s, d) == ParseDecimal(s[i + 2..j])
  {}

  /** `parse_cost_tuple`, behind the marker. */
  method ParseAfterMarker(line: seq<byte>) returns (r: Option<Tuple>)
    ensures AnswerAt(line, r)
  {
    var costs := ScanCosts(line);
    if costs.None? {
      return None;
    }
    var (i, j) := costs.value;
    var min := ParseDecimal(line[..i]);
    if min.None? {
      CapturedHere(line, i, j);
      return None;
    }
    var max := ParseDecimal(line[i + 2..j]);
    if max.None? {
      CapturedHere(line, i, j);
      return None;
    }
    var rows, width := ParseCounts(line, i, j);
    AllRead(line, i, j, min.value, max.value, rows, width);
    if rows.None? || width.None? {
      return None;
    }
    r := Some(Tuple(min.value, max.value, rows.value, width.value));
  }

  lemma AllRead(s: Text, i: nat, j: nat, min: real, max: real, rows: Option<nat>, width: Option<nat>)
    requires CostsAt(s, i, j) && ParseDecimal(s[..i]) == Some(min) && ParseDecimal(s[i + 2..j]) == Some(max)
    requires CountsAre(s, i, j, rows, width)
    ensures AnswerAt(s, if rows.None? || width.None? then None else Some(Tuple(min, max, rows.value, width.value)))
  {
    if rows.Some? && width.Some? {
      var d :| Plain(s, d) && d.min == i && d.max == j && RowsOf(s, d) == rows && WidthOf(s, d) == width;
      Reads(s, d, Some(min), Some(max));
    } else {
      NothingReads(s);
    }
  }

  lemma Reads(s: Text, d: Parts, min: Option<real>, max: Option<real>)
    requires Plain(s, d) && MinOf(s, d) == min && MaxOf(s, d) == max
    requires min.Some? && max.Some? && RowsOf(s, d).Some? && WidthOf(s, d).Some?
    ensures AnswerAt(s, Some(Tuple(min.value, max.value, RowsOf(s, d).value, WidthOf(s, d).value)))
  {}

  lemma NothingReads(s: Text)
    requires forall d :: Plain(s, d) ==> RowsOf(s, d).None? || WidthOf(s, d).None?
    ensures AnswerAt(s, None)
  {}

  /** The counts every plain match captures are `rows` and `width`, and there is one if both are readable. */
  ghost predicate CountsAre(s: Text, i: nat, j: nat, rows: Option<nat>, width: Option<nat>) {
    if rows.None? || width.None? then forall d :: Plain(s, d) ==> RowsOf(s, d).None? || WidthOf(s, d).None?
    else exists d :: Plain(s, d) && d.min == i && d.max == j && RowsOf(s, d) == rows && WidthOf(s, d) == width
  }

  lemma NoRows(s: Text, j: nat, end: nat)
    requires forall d :: Plain(s, d) ==> d.max == j
    requires LabelledAnswer(s, j, ROWS, None, end)
    ensures forall d :: Plain(s, d) ==> RowsOf(s, d).None?
  {
    forall d | Plain(s, d) ensures RowsOf(s, d).None? {
      RowsStopped(s, d);
    }
  }

  /** No plain match has a width that can be read. */
  ghost predicate WidthUnread(s: Text) {
    forall d :: Plain(s, d) ==> WidthOf(s, d).None?
  }

  lemma NoWidth(s: Text, pos: nat, end: nat)
    requires forall d :: Plain(s, d) ==> d.rows == pos
    requires LabelledAnswer(s, pos, WIDTH, None, end)
    ensures WidthUnread(s)
  {
    forall d | Plain(s, d) ensures WidthOf(s, d).None? {
      NoWidthAt(s, d, end);
    }
  }

  lemma NoWidthAt(s: Text, d: Parts, end: nat)
    requires Plain(s, d) && LabelledAnswer(s, d.rows, WIDTH, None, end)
    ensures WidthOf(s, d).None?
  {
    WidthStopped(s, d);
    ParseUpToLess(s[d.widthGap + |WIDTH|..d.width], U64_MAX, U32_MAX);
  }

  lemma NotClosed(s: Text, end: nat)
    requires forall d :: Plain(s, d) ==> d.width == end
    requires end >= |s| || s[end] != CLOSE
    ensures WidthUnread(s)
  {}

  lemma TooWide(s: Text, gap: nat, end: nat)
    requires forall d :: Plain(s, d) ==> d.widthGap == gap && d.width == end
    requires gap + |WIDTH| <= end <= |s| && ParseUpTo(s[gap + |WIDTH|..end], U32_MAX) == None
    ensures WidthUnread(s)
  {}

  lemma UnreadCounts(s: Text, i: nat, j: nat, rows: Option<nat>)
    requires WidthUnread(s)
    ensures CountsAre(s, i, j, rows, None)
  {}

  /** The counts behind the two costs, and the closing parenthesis. */
  method ParseCounts(line: seq<byte>, i: nat, j: nat) returns (rows: Option<nat>, width: Option<nat>)
    requires CostsAt(line, i, j)
    requires forall d :: Plain(line, d) ==> d.min == i && d.max == j
    ensures CountsAre(line, i, j, rows, width)
  {
    width := None;
    var k;
    rows, k := ScanLabelledInt(line, j, ROWS);
    if rows.None? {
      NoRows(line, j, k);
      return;
    }
    ghost var gap := LabelledGap(line, j, ROWS, rows.value, k);
    RowsFound(line, j, gap, k);
    width := ParseWidth(line, i, j, k, gap, rows.value);
  }

  /** The width, the closing parenthesis, and the 32-bit conversion. */
  method ParseWidth(line: seq<byte>, i: nat, j: nat, pos: nat, ghost gap: nat, ghost rows: nat) returns (width: Option<nat>)
    requires CostsAt(line, i, j) && Labelled(Scanner, line, j, gap, ROWS, pos)
    requires forall d :: Plain(line, d) ==> d.rows == pos
    requires ParseUpTo(line[gap + |ROWS|..pos], U64_MAX) == Some(rows)
    ensures CountsAre(line, i, j, Some(rows), width)
  {
    var wide, end := ScanLabelledInt(line, pos, WIDTH);
    if wide.None? {
      NoWidth(line, pos, end);
      UnreadCounts(line, i, j, Some(rows));
      return None;
    }
    ghost var widthGap := LabelledGap(line, pos, WIDTH, wide.value, end);
    WidthFound(line, pos, widthGap, end);
    ParseUpToLess(line[widthGap + |WIDTH|..end], U64_MAX, U32_MAX);
    if end >= |line| || line[end] != CLOSE {
      NotClosed(line, end);
      UnreadCounts(line, i, j, Some(rows));
      return None;
    }
    if wide.value > U32_MAX {
      TooWide(line, widthGap, end);
      UnreadCounts(line, i, j, Some(rows));
      return None;
    }
    WidthRead(line, Parts(i, j, gap, pos, widthGap, end), rows, wide.value);
    return wide;
  }

  lemma WidthRead(s: Text, d: Parts, rows: nat, width: nat)
    requires CostsAt(s, d.min, d.max)
    requires Labelled(Scanner, s, d.max, d.rowsGap, ROWS, d.rows) && Labelled(Scanner, s, d.rows, d.widthGap, WIDTH, d.width)
    requires d.width < |s| && s[d.width] == CLOSE
    requires ParseUpTo(s[d.rowsGap + |ROWS|..d.rows], U64_MAX) == Some(rows)
    requires ParseUpTo(s[d.widthGap + |WIDTH|..d.width], U32_MAX) == Some(width)
    ensures CountsAre(s, d.min, d.max, Some(rows), Some(width))
  {
    AllFound(s, d);
    CountsFit(s, d, rows, width);
  }

  lemma AllFound(s: Text, d: Parts)
    requires CostsAt(s, d.min, d.max)
    requires Labelled(Scanner, s, d.max, d.rowsGap, ROWS, d.rows) && Labelled(Scanner, s, d.rows, d.widthGap, WIDTH, d.width)
    requires d.width < |s| && s[d.width] == CLOSE
    ensures Plain(s, d)
  {
    OneSeparatorFound(s, d);
  }

  lemma CountsFit(s: Text, d: Parts, rows: nat, width: nat)
    requires Plain(s, d) && RowsOf(s, d) == Some(rows) && WidthOf(s, d) == Some(width)
    ensures CountsAre(s, d.min, d.max, Some(rows), Some(width))
  {}

  /** `parse_cost_tuple`: the tuple, exactly if the line has a plain match with readable numbers. */
  method ParseCostTuple(line: seq<byte>) returns (r: Option<Tuple>)
    ensures Answer(line, r)
  {
    var found := Kernels.FindLiteral(line, MARKER);
    forall m: Option<nat> | Kernels.IsFirstOccurrence(line, MARKER, m) ensures m == found {
      Kernels.FirstOccurrenceUnique(line, MARKER, m, found);
    }
    if found.None? {
      return None;
    }
    r := ParseAfterMarker(line[found.value + |MARKER|..]);
  }

  /** There is one right answer. */
  lemma AnswerUnique(s: Text, r: Option<Tuple>, q: Option<Tuple>)
    requires AnswerAt(s, r) && AnswerAt(s, q)
    ensures r == q
  {
    if r.Some? && q.Some? {
      var d :| Plain(s, d) && Fields(s, d) == r;
      var e :| Plain(s, e) && Fields(s, e) == q;
      ScannerIsPattern(ASCII_ONLY, s, e);
      OnlyMatch(ASCII_ONLY, s, d, e);
    }
  }
}
