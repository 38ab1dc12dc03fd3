/**
 * The hand-written timestamp scanner that stands in for the log-line regular
 * expression, and the splitter built on it.
 */
module Timestamp {
  import opened Common
  import opened Utf8
  import opened Unicode
  import opened Regex

  datatype Verdict = Match(len: nat) | NoMatch | Unsure

  /** `dddd-dd-dd dd:dd:dd` */
  const TS_SHAPE: seq<Class> := [
    Digit, Digit, Digit, Digit, Lit('-' as nat), Digit, Digit, Lit('-' as nat), Digit, Digit,
    Lit(' ' as nat), Digit, Digit, Lit(':' as nat), Digit, Digit, Lit(':' as nat), Digit, Digit
  ]
  const TS_CORE_LEN: nat := 19
  const BLOCK: nat := 16

  // ---- The expression ----

  /** `\.\d{1,6}` */
  const FRACTION: Re := Cat(Atom(Lit('.' as nat)), Repeat(Atom(Digit), 1, 6))

  /** `(?::?\d{2})` */
  const MINUTES: Re := Cat(Opt(Atom(Lit(':' as nat))), Repeat(Atom(Digit), 2, 2))

  const ABBREVIATION: Re := Repeat(Atom(Upper), 2, 5)

  const OFFSET: Re := Cat(Atom(Sign), Cat(Repeat(Atom(Digit), 2, 2), Opt(MINUTES)))

  /** ` (?:[A-Z]{2,5}|[+-]\d{2}(?::?\d{2})?)` */
  const ZONE: Re := Cat(Atom(Lit(' ' as nat)), Alt(ABBREVIATION, OFFSET))

  /** Capture group 1 of the log-line pattern. */
  const TIMESTAMP: Re := Chain(TS_SHAPE, Cat(Opt(FRACTION), Opt(ZONE)))

  /** Length of capture group 1. Group 2, `(.*)`, never fails, so group 1 decides the match. */
  function RegexLen(u: Tables, t: Text): Option<nat> {
    First(u, TIMESTAMP, t, 0)
  }

  // ---- The scanner, over bytes ----

  function CoreVerdict(line: seq<byte>): Verdict {
    if |line| < TS_CORE_LEN then NoMatch
    else if !AllAscii(line[..TS_CORE_LEN]) then Unsure
    else if InOrder(ASCII_ONLY, TS_SHAPE, line, 0) then Match(TS_CORE_LEN)
    else NoMatch
  }

  predicate IsAt(line: seq<byte>, i: nat, c: char) {
    i < |line| && line[i] == c as nat
  }

  /** End of the optional fraction at `pos`, `None` where the bytes cannot decide. */
  function FractionEnd(line: seq<byte>, pos: nat): (r: Option<nat>)
    requires pos <= |line|
    ensures r.Some? ==> pos <= r.value <= |line|
  {
    if !IsAt(line, pos, '.') then Some(pos)
    else
      var n := Run(ASCII_ONLY, Digit, line, pos + 1, 6);
      var stop := pos + 1 + n;
      if n < 6 && stop < |line| && !IsAscii(line[stop]) then None
      else Some(if n >= 1 then stop else pos)
  }

  /** Two digits at `pos`: `None` if a byte there is not ASCII. */
  function TwoDigits(line: seq<byte>, pos: nat): (r: Option<bool>)
    ensures r == Some(true) ==> pos + 1 < |line|
  {
    if pos + 1 >= |line| then Some(false)
    else if !IsAscii(line[pos]) || !IsAscii(line[pos + 1]) then None
    else Some(AsciiDigit(line[pos]) && AsciiDigit(line[pos + 1]))
  }

  function MinutesEnd(line: seq<byte>, end: nat): (r: Option<nat>)
    requires end <= |line|
    ensures r.Some? ==> end <= r.value <= |line|
  {
    var p := if IsAt(line, end, ':') then end + 1 else end;
    match TwoDigits(line, p)
    case None => None
    case Some(two) => Some(if two then p + 2 else end)
  }

  /** End of the optional zone token at `pos`. */
  function ZoneEnd(line: seq<byte>, pos: nat): (r: Option<nat>)
    requires pos <= |line|
    ensures r.Some? ==> pos <= r.value <= |line|
  {
    if !IsAt(line, pos, ' ') || pos + 1 >= |line| then Some(pos)
    else if In(ASCII_ONLY, Upper, line[pos + 1]) then
      var n := Run(ASCII_ONLY, Upper, line, pos + 1, 5);
      Some(if n >= 2 then pos + 1 + n else pos)
    else if In(ASCII_ONLY, Sign, line[pos + 1]) then
      match TwoDigits(line, pos + 2)
      case None => None
      case Some(two) => if two then MinutesEnd(line, pos + 4) else Some(pos)
    else Some(pos)
  }

  function TailVerdict(line: seq<byte>): (v: Verdict)
    requires TS_CORE_LEN <= |line|
    ensures v.Match? ==> v.len <= |line|
  {
    match FractionEnd(line, TS_CORE_LEN)
    case None => Unsure
    case Some(pos) =>
      match ZoneEnd(line, pos)
      case None => Unsure
      case Some(end) => Match(end)
  }

  function PrefixVerdict(line: seq<byte>): (v: Verdict)
    ensures v.Match? ==> v.len <= |line|
  {
    if CoreVerdict(line).Match? then TailVerdict(line) else CoreVerdict(line)
  }

  predicate IsLogLineStart(line: seq<byte>) {
    CoreVerdict(line).Match?
  }

  // ---- The scanner's loops ----

  /** Byte-at-a-time core check. */
  method TimestampCoreScalar(line: seq<byte>) returns (v: Verdict)
    ensures v == CoreVerdict(line)
  {
    if |line| < TS_CORE_LEN {
      return NoMatch;
    }
    if !AllAscii(line[..TS_CORE_LEN]) {
      return Unsure;
    }
    var digits := DIGIT_AT;
    CoreShapeByIndex(line);
    for k := 0 to |digits|
      invariant forall j :: 0 <= j < k ==> AsciiDigit(line[digits[j]])
    {
      if !AsciiDigit(line[digits[k]]) {
        return NoMatch;
      }
    }
    assert AllDigitsAt(line, digits);
    if line[4] != '-' as nat || line[7] != '-' as nat || line[10] != ' ' as nat {
      return NoMatch;
    }
    if line[13] != ':' as nat || line[16] != ':' as nat {
      return NoMatch;
    }
    return Match(TS_CORE_LEN);
  }

  ghost predicate AllDigitsAt(line: seq<byte>, at: seq<nat>)
    requires forall j :: 0 <= j < |at| ==> at[j] < |line|
  {
    forall j :: 0 <= j < |at| ==> AsciiDigit(line[at[j]])
  }

  const DIGIT_AT: seq<nat> := [0, 1, 2, 3, 5, 6, 8, 9, 11, 12, 14, 15, 17, 18]

  ghost predicate LiteralsOk(line: seq<byte>)
    requires TS_CORE_LEN <= |line|
  {
    && line[4] == '-' as nat && line[7] == '-' as nat && line[10] == ' ' as nat
    && line[13] == ':' as nat && line[16] == ':' as nat
  }

  /** The shape, spelt out position by position. */
  lemma CoreShapeByIndex(line: seq<byte>)
    requires TS_CORE_LEN <= |line| && AllAscii(line[..TS_CORE_LEN])
    ensures InOrder(ASCII_ONLY, TS_SHAPE, line, 0) <==> AllDigitsAt(line, DIGIT_AT) && LiteralsOk(line)
  {
    if InOrder(ASCII_ONLY, TS_SHAPE, line, 0) {
      CoreShapeImplies(line);
    }
    if AllDigitsAt(line, DIGIT_AT) && LiteralsOk(line) {
      CoreShapeFollows(line);
    }
  }

  lemma CoreShapeImplies(line: seq<byte>)
    requires TS_CORE_LEN <= |line| && InOrder(ASCII_ONLY, TS_SHAPE, line, 0)
    ensures AllDigitsAt(line, DIGIT_AT) && LiteralsOk(line)
  {
    forall j | 0 <= j < |DIGIT_AT| ensures AsciiDigit(line[DIGIT_AT[j]]) {
      var k := DIGIT_AT[j];
      assert TS_SHAPE[k] == Digit && In(ASCII_ONLY, TS_SHAPE[k], line[0 + k]);
    }
    assert In(ASCII_ONLY, TS_SHAPE[4], line[0 + 4]) && In(ASCII_ONLY, TS_SHAPE[7], line[0 + 7]);
    assert In(ASCII_ONLY, TS_SHAPE[10], line[0 + 10]) && In(ASCII_ONLY, TS_SHAPE[13], line[0 + 13]);
    assert In(ASCII_ONLY, TS_SHAPE[16], line[0 + 16]);
  }

  lemma CoreShapeFollows(line: seq<byte>)
    requires TS_CORE_LEN <= |line| && AllDigitsAt(line, DIGIT_AT) && LiteralsOk(line)
    ensures InOrder(ASCII_ONLY, TS_SHAPE, line, 0)
  {
    forall k | 0 <= k < TS_CORE_LEN ensures In(ASCII_ONLY, TS_SHAPE[k], line[0 + k]) {
      if TS_SHAPE[k] == Digit {
        assert exists j :: 0 <= j < |DIGIT_AT| && DIGIT_AT[j] == k by {
          var j := if k < 4 then k else if k < 7 then k - 1 else if k < 10 then k - 2
                   else if k < 13 then k - 3 else if k < 16 then k - 4 else k - 5;
          assert DIGIT_AT[j] == k;
        }
      }
    }
  }

  /** The optional tails, with the loops and early exits of the scanner. */
  method TimestampTail(line: seq<byte>) returns (v: Verdict)
    requires TS_CORE_LEN <= |line|
    ensures v == TailVerdict(line)
  {
    var pos := TS_CORE_LEN;
    if IsAt(line, pos, '.') {
      var n := 0;
      while n < 6
        invariant 0 <= n <= 6 && pos + 1 + n <= |line|
        invariant forall k :: pos + 1 <= k < pos + 1 + n ==> In(ASCII_ONLY, Digit, line[k])
      {
        if pos + 1 + n < |line| && AsciiDigit(line[pos + 1 + n]) {
          n := n + 1;
        } else if pos + 1 + n < |line| && !IsAscii(line[pos + 1 + n]) {
          RunUnique(ASCII_ONLY, Digit, line, pos + 1, 6, n);
          return Unsure;
        } else {
          break;
        }
      }
      RunUnique(ASCII_ONLY, Digit, line, pos + 1, 6, n);
      if n >= 1 {
        pos := pos + 1 + n;
      }
    }
    assert FractionEnd(line, TS_CORE_LEN) == Some(pos);
    v := ZoneToken(line, pos);
  }

  method ZoneToken(line: seq<byte>, start: nat) returns (v: Verdict)
    requires start <= |line|
    ensures v == if ZoneEnd(line, start).Some? then Match(ZoneEnd(line, start).value) else Unsure
  {
    var pos := start;
    if IsAt(line, pos, ' ') && pos + 1 < |line| {
      var c := line[pos + 1];
      if In(ASCII_ONLY, Upper, c) {
        var n := 0;
        while n < 5
          invariant 0 <= n <= 5 && pos + 1 + n <= |line|
          invariant forall k :: pos + 1 <= k < pos + 1 + n ==> In(ASCII_ONLY, Upper, line[k])
        {
          if pos + 1 + n < |line| && In(ASCII_ONLY, Upper, line[pos + 1 + n]) {
            n := n + 1;
          } else {
            break;
          }
        }
        RunUnique(ASCII_ONLY, Upper, line, pos + 1, 5, n);
        if n >= 2 {
          pos := pos + 1 + n;
        }
      } else if In(ASCII_ONLY, Sign, c) && pos + 3 < |line| {
        var a, b := line[pos + 2], line[pos + 3];
        if !IsAscii(a) || !IsAscii(b) {
          return Unsure;
        }
        if AsciiDigit(a) && AsciiDigit(b) {
          v := MinutesToken(line, pos + 4);
          return v;
        }
      }
    }
    return Match(pos);
  }

  method MinutesToken(line: seq<byte>, start: nat) returns (v: Verdict)
    requires start <= |line|
    ensures v == if MinutesEnd(line, start).Some? then Match(MinutesEnd(line, start).value) else Unsure
  {
    var end, p := start, start;
    if IsAt(line, p, ':') {
      p := p + 1;
    }
    if p + 1 < |line| {
      var x, y := line[p], line[p + 1];
      if !IsAscii(x) || !IsAscii(y) {
        return Unsure;
      }
      if AsciiDigit(x) && AsciiDigit(y) {
        end := p + 2;
      }
    }
    return Match(end);
  }

  // ---- Bytes against characters ----

  /**
   * What a byte scanner and a character matcher have in common: they see the
   * same ASCII up to `k`, where both end or both meet a non-ASCII character.
   */
  ghost predicate Mirror(t: Text, b: seq<byte>, k: nat) {
    && k <= |t| <= |b|
    && (forall i :: 0 <= i < k ==> b[i] == t[i] && IsAscii(t[i]))
    && (k == |t| ==> |b| == |t|)
    && (k < |t| ==> !IsAscii(t[k]) && !IsAscii(b[k]))
  }

  lemma {:induction false} EncodingMirrors(t: Text) returns (k: nat)
    requires IsText(t)
    ensures Mirror(t, EncodeText(t), k)
  {
    if t == [] || !IsAscii(t[0]) {
      k := 0;
    } else {
      var n := EncodingMirrors(t[1..]);
      var b := EncodeText(t);
      assert b == [t[0]] + EncodeText(t[1..]);
      forall i | 0 <= i < n + 1 ensures b[i] == t[i] && IsAscii(t[i]) {
        assert i > 0 ==> t[i] == t[1..][i - 1] && b[i] == EncodeText(t[1..])[i - 1];
      }
      k := n + 1;
    }
  }

  /** A run of ASCII-decidable characters, unless the bytes stop being ASCII. */
  lemma RunMirrors(u: Tables, cls: Class, t: Text, b: seq<byte>, k: nat, i: nat, cap: nat)
    requires Mirror(t, b, k) && i <= k && (cls == Digit || cls == Upper)
    ensures var n := Run(ASCII_ONLY, cls, b, i, cap);
            && i + n <= k
            && (n == cap || i + n == |b| || IsAscii(b[i + n]) || cls == Upper ==> Run(u, cls, t, i, cap) == n)
  {
    var n := Run(ASCII_ONLY, cls, b, i, cap);
    RunIsMaximal(ASCII_ONLY, cls, b, i, cap);
    if n == cap || i + n == |b| || IsAscii(b[i + n]) || cls == Upper {
      RunUnique(u, cls, t, i, cap, n);
    }
  }

  lemma FractionRefines(u: Tables, t: Text, b: seq<byte>, k: nat, pos: nat)
    requires Mirror(t, b, k) && pos <= k && FractionEnd(b, pos).Some?
    ensures First(u, Opt(FRACTION), t, pos) == FractionEnd(b, pos)
    ensures FractionEnd(b, pos).value <= k
  {
    FirstGuardedRun(u, Lit('.' as nat), Digit, 1, 6, t, pos);
    if IsAt(b, pos, '.') {
      RunMirrors(u, Digit, t, b, k, pos + 1, 6);
    }
  }

  /** `\d{2}` where the bytes can tell. */
  lemma TwoDigitsRefine(u: Tables, t: Text, b: seq<byte>, k: nat, pos: nat)
    requires Mirror(t, b, k) && pos <= k && TwoDigits(b, pos).Some?
    ensures First(u, Repeat(Atom(Digit), 2, 2), t, pos) == if TwoDigits(b, pos).value then Some(pos + 2) else None
    ensures TwoDigits(b, pos).value ==> pos + 2 <= k
  {
    FirstRepeat(u, Digit, 2, 2, t, pos);
    var two := pos + 1 < |t| && IsDigit(u, t[pos]) && IsDigit(u, t[pos + 1]);
    assert two <==> Run(u, Digit, t, pos, 2) == 2 by {
      assert Run(u, Digit, t, pos, 2) == 2 ==> In(u, Digit, t[pos]) && In(u, Digit, t[pos + 1]);
    }
  }

  lemma MinutesRefine(u: Tables, t: Text, b: seq<byte>, k: nat, end: nat)
    requires Mirror(t, b, k) && end <= k && MinutesEnd(b, end).Some?
    ensures First(u, Opt(MINUTES), t, end) == MinutesEnd(b, end)
    ensures MinutesEnd(b, end).value <= k
  {
    FirstOpt(u, MINUTES, t, end);
    FirstOptAtomCat(u, Lit(':' as nat), Repeat(Atom(Digit), 2, 2), t, end);
    if IsAt(b, end, ':') {
      TwoDigitsRefine(u, t, b, k, end + 1);
      FirstRepeat(u, Digit, 2, 2, t, end);
    } else {
      TwoDigitsRefine(u, t, b, k, end);
    }
  }

  lemma OffsetRefines(u: Tables, t: Text, b: seq<byte>, k: nat, pos: nat)
    requires Mirror(t, b, k) && pos <= k && pos < |b| && In(ASCII_ONLY, Sign, b[pos])
    requires TwoDigits(b, pos + 1).Some?
    requires TwoDigits(b, pos + 1).value ==> MinutesEnd(b, pos + 3).Some?
    ensures First(u, OFFSET, t, pos) == if TwoDigits(b, pos + 1).value then MinutesEnd(b, pos + 3) else None
    ensures TwoDigits(b, pos + 1).value ==> MinutesEnd(b, pos + 3).value <= k
  {
    var two := Repeat(Atom(Digit), 2, 2);
    FirstAtomCat(u, Sign, Cat(two, Opt(MINUTES)), t, pos);
    TwoDigitsRefine(u, t, b, k, pos + 1);
    if TwoDigits(b, pos + 1).value {
      MinutesRefine(u, t, b, k, pos + 3);
    }
    FirstCat(u, two, Opt(MINUTES), t, pos + 1);
  }

  lemma ZoneRefines(u: Tables, t: Text, b: seq<byte>, k: nat, pos: nat)
    requires Mirror(t, b, k) && pos <= k && ZoneEnd(b, pos).Some?
    ensures First(u, Opt(ZONE), t, pos) == ZoneEnd(b, pos)
    ensures ZoneEnd(b, pos).value <= k
  {
    FirstGuarded(u, Lit(' ' as nat), Alt(ABBREVIATION, OFFSET), t, pos);
    if IsAt(b, pos, ' ') {
      ZoneTokenRefines(u, t, b, k, pos + 1);
    }
  }

  /** Behind the space. */
  lemma ZoneTokenRefines(u: Tables, t: Text, b: seq<byte>, k: nat, p: nat)
    requires Mirror(t, b, k) && 0 < p <= k && IsAt(b, p - 1, ' ') && ZoneEnd(b, p - 1).Some?
    ensures First(u, Alt(ABBREVIATION, OFFSET), t, p) ==
            if ZoneEnd(b, p - 1) == Some(p - 1) then None else ZoneEnd(b, p - 1)
    ensures ZoneEnd(b, p - 1).value <= k
  {
    FirstAlt(u, ABBREVIATION, OFFSET, t, p);
    FirstRepeat(u, Upper, 2, 5, t, p);
    RunMirrors(u, Upper, t, b, k, p, 5);
    if p < |b| && In(ASCII_ONLY, Sign, b[p]) {
      OffsetRefines(u, t, b, k, p);
    } else {
      FirstAtomCat(u, Sign, Cat(Repeat(Atom(Digit), 2, 2), Opt(MINUTES)), t, p);
    }
  }

  lemma TailRefines(u: Tables, t: Text, b: seq<byte>, k: nat, pos: nat)
    requires Mirror(t, b, k) && pos <= k
    requires FractionEnd(b, pos).Some? && ZoneEnd(b, FractionEnd(b, pos).value).Some?
    ensures var end := ZoneEnd(b, FractionEnd(b, pos).value);
            First(u, Cat(Opt(FRACTION), Opt(ZONE)), t, pos) == end && end.value <= k
  {
    FractionRefines(u, t, b, k, pos);
    ZoneRefines(u, t, b, k, FractionEnd(b, pos).value);
    FirstCat(u, Opt(FRACTION), Opt(ZONE), t, pos);
  }

  /** The tails are optional: once the core matches, the expression matches. */
  lemma CoreDecides(u: Tables, t: Text)
    ensures RegexLen(u, t).Some? <==> InOrder(u, TS_SHAPE, t, 0)
  {
    var tail := Cat(Opt(FRACTION), Opt(ZONE));
    FirstChain(u, TS_SHAPE, tail, t, 0);
    if InOrder(u, TS_SHAPE, t, 0) {
      FirstOpt(u, FRACTION, t, TS_CORE_LEN);
      var mid := First(u, Opt(FRACTION), t, TS_CORE_LEN).value;
      FirstOpt(u, ZONE, t, mid);
      FirstCat(u, Opt(FRACTION), Opt(ZONE), t, TS_CORE_LEN);
    }
  }

  lemma CoreRefines(u: Tables, t: Text, b: seq<byte>, k: nat)
    requires Mirror(t, b, k)
    ensures CoreVerdict(b).Match? ==> TS_CORE_LEN <= k && InOrder(u, TS_SHAPE, t, 0)
    ensures CoreVerdict(b).NoMatch? ==> !InOrder(u, TS_SHAPE, t, 0)
  {
    if |b| >= TS_CORE_LEN && AllAscii(b[..TS_CORE_LEN]) {
      assert forall j :: 0 <= j < TS_CORE_LEN ==> b[..TS_CORE_LEN][j] == b[j];
      ShapeIsAscii(u, t, b);
    }
  }

  lemma ShapeIsAscii(u: Tables, s: Text, b: Text)
    requires TS_CORE_LEN <= |s| && TS_CORE_LEN <= |b|
    requires forall j :: 0 <= j < TS_CORE_LEN ==> b[j] == s[j] && IsAscii(s[j])
    ensures InOrder(u, TS_SHAPE, s, 0) <==> InOrder(ASCII_ONLY, TS_SHAPE, b, 0)
  {
    forall j | 0 <= j < TS_CORE_LEN
      ensures In(u, TS_SHAPE[j], s[0 + j]) <==> In(ASCII_ONLY, TS_SHAPE[j], b[0 + j])
    {
      assert b[j] == s[j];
    }
  }

  /**
   * The scanner is the expression wherever it answers: `Match(n)` is what the
   * engine captures, all of it ASCII; `NoMatch` means the engine fails. This
   * holds whatever `\d` means outside ASCII.
   */
  lemma ScannerRefinesRegex(u: Tables, t: Text)
    requires IsText(t)
    ensures var v := PrefixVerdict(EncodeText(t));
            && (v.Match? ==> RegexLen(u, t) == Some(v.len) && v.len <= |t| && AllAscii(t[..v.len]))
            && (v.NoMatch? ==> RegexLen(u, t) == None)
  {
    var k := EncodingMirrors(t);
    var b := EncodeText(t);
    MirrorRefines(u, t, b, k);
    if PrefixVerdict(b).Match? {
      MirrorIsAscii(t, b, k, PrefixVerdict(b).len);
    }
  }

  lemma MirrorIsAscii(t: Text, b: seq<byte>, k: nat, n: nat)
    requires Mirror(t, b, k) && n <= k
    ensures n <= |t| && AllAscii(t[..n])
  {}

  lemma MirrorRefines(u: Tables, t: Text, b: seq<byte>, k: nat)
    requires Mirror(t, b, k)
    ensures var v := PrefixVerdict(b);
            && (v.Match? ==> RegexLen(u, t) == Some(v.len) && v.len <= k)
            && (v.NoMatch? ==> RegexLen(u, t) == None)
  {
    CoreDecides(u, t);
    CoreRefines(u, t, b, k);
    if PrefixVerdict(b).Match? {
      TailRefines(u, t, b, k, TS_CORE_LEN);
      FirstChain(u, TS_SHAPE, Cat(Opt(FRACTION), Opt(ZONE)), t, 0);
    }
  }

  /** The digits of a fraction, up to the byte that ends them. */
  predicate LooksAtFraction(line: seq<byte>, i: nat) {
    IsAt(line, TS_CORE_LEN, '.') && TS_CORE_LEN < i <= TS_CORE_LEN + 6
    && i <= TS_CORE_LEN + 1 + Run(ASCII_ONLY, Digit, line, TS_CORE_LEN + 1, 6)
  }

  /** The two hour digits behind a sign at `pos + 1`, and the two minute digits behind those. */
  predicate LooksAtOffset(line: seq<byte>, pos: nat, i: nat) {
    && IsAt(line, pos, ' ') && pos + 1 < |line| && In(ASCII_ONLY, Sign, line[pos + 1])
    && (i == pos + 2 || i == pos + 3
        || (TwoDigits(line, pos + 2) == Some(true) &&
            var p := if IsAt(line, pos + 4, ':') then pos + 5 else pos + 4;
            i == p || i == p + 1))
  }

  /** The positions at which the scanner asks for a digit. */
  predicate Consulted(line: seq<byte>, i: nat) {
    i < TS_CORE_LEN
    || (CoreVerdict(line).Match? && LooksAtFraction(line, i))
    || (CoreVerdict(line).Match? && FractionEnd(line, TS_CORE_LEN).Some?
        && LooksAtOffset(line, FractionEnd(line, TS_CORE_LEN).value, i))
  }

  /** The scanner defers only over a non-ASCII byte it looked at, which is one of the first 33. */
  lemma UnsureNeedsNonAscii(line: seq<byte>) returns (i: nat)
    requires PrefixVerdict(line) == Unsure
    ensures i < |line| && i < 33 && Consulted(line, i) && !IsAscii(line[i])
  {
    if CoreVerdict(line) == Unsure {
      i :| 0 <= i < TS_CORE_LEN && !IsAscii(line[..TS_CORE_LEN][i]);
    } else if FractionEnd(line, TS_CORE_LEN).None? {
      i := TS_CORE_LEN + 1 + Run(ASCII_ONLY, Digit, line, TS_CORE_LEN + 1, 6);
    } else {
      i := UnsureOffset(line, FractionEnd(line, TS_CORE_LEN).value);
    }
  }

  lemma UnsureOffset(line: seq<byte>, pos: nat) returns (i: nat)
    requires pos <= |line| && ZoneEnd(line, pos).None?
    ensures i < |line| && i <= pos + 6 && LooksAtOffset(line, pos, i) && !IsAscii(line[i])
  {
    if TwoDigits(line, pos + 2).None? {
      i := if !IsAscii(line[pos + 2]) then pos + 2 else pos + 3;
    } else {
      var p := if IsAt(line, pos + 4, ':') then pos + 5 else pos + 4;
      i := if !IsAscii(line[p]) then p else p + 1;
    }
  }

  // ---- The splitter ----

  /** `(.*)` stops in front of a newline. */
  function UpToNewline(t: Text): Text {
    if t == [] || t[0] == NEWLINE then [] else [t[0]] + UpToNewline(t[1..])
  }

  function RegexSplit(u: Tables, t: Text): Option<(Text, Text)> {
    match RegexLen(u, t)
    case None => None
    case Some(n) =>
      FirstInRange(u, TIMESTAMP, t, 0);
      Some((t[..n], UpToNewline(t[n..])))
  }

  /** `split_log_line`: first byte, then scanner, then the expression as a last resort. */
  function SplitLogLine(u: Tables, t: Text): Option<(Text, Text)>
    requires IsText(t)
  {
    if t == [] then None
    else
      var b := EncodeText(t);
      if IsAscii(b[0]) && !AsciiDigit(b[0]) then None
      else
        match PrefixVerdict(b)
        case Match(n) =>
          ScannerRefinesRegex(u, t);
          Some((t[..n], UpToNewline(t[n..])))
        case NoMatch => None
        case Unsure => RegexSplit(u, t)
  }

  /** The fast splitter and the expression agree on every line and every Unicode table. */
  lemma SplitLogLineIsRegex(u: Tables, t: Text)
    requires IsText(t)
    ensures SplitLogLine(u, t) == RegexSplit(u, t)
  {
    ScannerRefinesRegex(u, t);
    CoreDecides(u, t);
    if InOrder(u, TS_SHAPE, t, 0) {
      var k := EncodingMirrors(t);
      assert In(u, TS_SHAPE[0], t[0 + 0]);
    }
  }
}
