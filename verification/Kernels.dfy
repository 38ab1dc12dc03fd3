/** The vector kernels, each proved to be the scalar scan it replaces. */
module Kernels {
  import opened Common
  import opened Utf8
  import opened Unicode
  import opened Regex
  import opened Lanes
  import Timestamp

  type Verdict = Timestamp.Verdict

  // ---- The timestamp core ----

  const CORE_LEN: nat := Timestamp.TS_CORE_LEN

  /** One block's view of the shape: where a digit is due, and the literal due elsewhere. */
  datatype Window = Window(digitLanes: Mask, literals: seq<byte>)

  predicate ByteClass(c: Class) {
    c.Digit? || (c.Lit? && c.c < 256)
  }

  predicate WindowAt(shape: seq<Class>, start: nat) {
    start + BLOCK <= |shape| && forall i :: 0 <= i < |shape| ==> ByteClass(shape[i])
  }

  function TsWindow(shape: seq<Class>, start: nat): Window
    requires WindowAt(shape, start)
  {
    Window(seq(BLOCK, i requires 0 <= i < BLOCK => shape[start + i].Digit?),
           seq(BLOCK, i requires 0 <= i < BLOCK => if shape[start + i].Digit? then 0 else shape[start + i].c))
  }

  predicate Window16(w: Window) {
    |w.digitLanes| == |w.literals| == BLOCK
  }

  function WindowMatches(block: seq<byte>, w: Window): Mask
    requires |block| == BLOCK && Window16(w)
  {
    var isDigit := Le(Sub(block, Splat('0' as nat)), 9);
    var isLiteral := Eq(block, w.literals);
    Select(w.digitLanes, isDigit, isLiteral)
  }

  /** Two overlapping blocks cover the core. */
  function CoreKernel(shape: seq<Class>, core: seq<byte>): Verdict
    requires |core| == |shape| && BLOCK <= |shape| && WindowAt(shape, 0)
  {
    var tailStart := |core| - BLOCK;
    var head, tail := core[..BLOCK], core[tailStart..];
    if AnyTrue(Ge(OrLanes(head, tail), 0x80)) then Timestamp.Unsure
    else if AllTrue(Both(WindowMatches(head, TsWindow(shape, 0)), WindowMatches(tail, TsWindow(shape, tailStart))))
    then Timestamp.Match(|shape|)
    else Timestamp.NoMatch
  }

  lemma ShapeHasWindows()
    ensures |Timestamp.TS_SHAPE| == CORE_LEN && WindowAt(Timestamp.TS_SHAPE, 0)
  {}

  function TimestampCoreVector(line: seq<byte>): Verdict {
    ShapeHasWindows();
    if |line| < CORE_LEN then Timestamp.NoMatch else CoreKernel(Timestamp.TS_SHAPE, line[..CORE_LEN])
  }

  /** A lane matches exactly when its byte is in its class. */
  lemma WindowLane(shape: seq<Class>, start: nat, block: seq<byte>, i: nat)
    requires WindowAt(shape, start) && |block| == BLOCK && i < BLOCK
    ensures WindowMatches(block, TsWindow(shape, start))[i] <==> In(ASCII_ONLY, shape[start + i], block[i])
  {
    assert Le(Sub(block, Splat('0' as nat)), 9)[i] <==> AsciiDigit(block[i]);
  }

  lemma OrByte(a: byte, b: byte)
    ensures Or(a, b) >= 0x80 <==> a >= 0x80 || b >= 0x80
  {
    assert Pow2(7) == 0x80 && Pow2(8) == 0x100;
    OrTopBit(a, b, 7);
  }

  lemma NonAsciiLane(core: seq<byte>)
    requires BLOCK <= |core| <= 2 * BLOCK
    ensures AnyTrue(Ge(OrLanes(core[..BLOCK], core[|core| - BLOCK..]), 0x80)) <==> !AllAscii(core)
  {
    var head, tail := core[..BLOCK], core[|core| - BLOCK..];
    var either := OrLanes(head, tail);
    forall i | 0 <= i < BLOCK
      ensures either[i] >= 0x80 <==> !IsAscii(core[i]) || !IsAscii(core[|core| - BLOCK + i])
    {
      OrByte(head[i], tail[i]);
    }
    if !AllAscii(core) {
      var k :| 0 <= k < |core| && !IsAscii(core[k]);
      var i := if k < BLOCK then k else k - (|core| - BLOCK);
      assert Ge(either, 0x80)[i];
    }
  }

  lemma WindowsCover(shape: seq<Class>, core: seq<byte>)
    requires |core| == |shape| && BLOCK <= |shape| <= 2 * BLOCK && WindowAt(shape, 0)
    ensures var tailStart := |core| - BLOCK;
            AllTrue(Both(WindowMatches(core[..BLOCK], TsWindow(shape, 0)),
                         WindowMatches(core[tailStart..], TsWindow(shape, tailStart))))
            <==> InOrder(ASCII_ONLY, shape, core, 0)
  {
    var at := |core| - BLOCK;
    var head, tail := core[..BLOCK], core[at..];
    var h, t := WindowMatches(head, TsWindow(shape, 0)), WindowMatches(tail, TsWindow(shape, at));
    forall i | 0 <= i < BLOCK
      ensures h[i] <==> In(ASCII_ONLY, shape[i], core[0 + i])
      ensures t[i] <==> In(ASCII_ONLY, shape[at + i], core[0 + (at + i)])
    {
      WindowLane(shape, 0, head, i);
      WindowLane(shape, at, tail, i);
    }
    if AllTrue(Both(h, t)) {
      forall k | 0 <= k < |shape| ensures In(ASCII_ONLY, shape[k], core[0 + k]) {
        if k < BLOCK {
          assert Both(h, t)[k];
        } else {
          assert Both(h, t)[k - at];
        }
      }
    }
  }

  /** The vector core check is the byte-at-a-time one, on lines of every length. */
  lemma VectorCoreIsScalar(line: seq<byte>)
    ensures TimestampCoreVector(line) == Timestamp.CoreVerdict(line)
  {
    if |line| >= CORE_LEN {
      ShapeHasWindows();
      var core := line[..CORE_LEN];
      NonAsciiLane(core);
      WindowsCover(Timestamp.TS_SHAPE, core);
      InOrderPrefix(Timestamp.TS_SHAPE, line);
    }
  }

  lemma InOrderPrefix(shape: seq<Class>, line: seq<byte>)
    requires |shape| <= |line|
    ensures InOrder(ASCII_ONLY, shape, line[..|shape|], 0) <==> InOrder(ASCII_ONLY, shape, line, 0)
  {
    var core := line[..|shape|];
    forall k | 0 <= k < |shape| ensures In(ASCII_ONLY, shape[k], core[0 + k]) <==> In(ASCII_ONLY, shape[k], line[0 + k]) {
      assert core[k] == line[k];
    }
  }

  // ---- Leading whitespace ----

  /** Characters in front of the first one that is not whitespace. */
  function LeadingChars(u: Tables, t: Text): (n: nat)
    ensures n <= |t|
  {
    if t != [] && IsSpace(u, t[0]) then 1 + LeadingChars(u, t[1..]) else 0
  }

  function LeadingVerdict(line: seq<byte>): Verdict {
    var n := LeadingChars(ASCII_ONLY, line);
    if n < |line| && !IsAscii(line[n]) then Timestamp.Unsure else Timestamp.Match(n)
  }

  predicate IsAsciiWs(b: byte) {
    b == ' ' as nat || WrapSub(b, 0x09) <= 0x0D - 0x09
  }

  lemma {:induction false} LeadingUnique(u: Tables, t: Text, n: nat)
    requires n <= |t| && (forall i :: 0 <= i < n ==> IsSpace(u, t[i])) && (n < |t| ==> !IsSpace(u, t[n]))
    ensures LeadingChars(u, t) == n
  {
    if n > 0 {
      assert t[0 + 0] == t[0];
      LeadingUnique(u, t[1..], n - 1);
    }
  }

  /** `leading_whitespace_scalar`. */
  method LeadingWhitespaceScalar(line: seq<byte>) returns (v: Verdict)
    ensures v == LeadingVerdict(line)
  {
    var i := 0;
    while i < |line|
      invariant i <= |line| && forall k :: 0 <= k < i ==> IsSpace(ASCII_ONLY, line[k])
    {
      var b := line[i];
      if IsAsciiWs(b) {
        i := i + 1;
      } else {
        LeadingUnique(ASCII_ONLY, line, i);
        if IsAscii(b) {
          return Timestamp.Match(i);
        } else {
          return Timestamp.Unsure;
        }
      }
    }
    LeadingUnique(ASCII_ONLY, line, i);
    return Timestamp.Match(i);
  }

  function WsLanes(block: seq<byte>): Mask
    requires |block| == BLOCK
  {
    Either(Eq(block, Splat(' ' as nat)), Le(Sub(block, Splat(0x09)), 0x0D - 0x09))
  }

  /** Whitespace lanes are whitespace bytes. */
  lemma WsLane(block: seq<byte>, i: nat)
    requires |block| == BLOCK && i < BLOCK
    ensures WsLanes(block)[i] <==> IsSpace(ASCII_ONLY, block[i])
  {
    assert Le(Sub(block, Splat(0x09)), 0x0D - 0x09)[i] <==> 0x09 <= block[i] <= 0x0D;
  }

  ghost predicate WsBefore(line: seq<byte>, n: nat)
    requires n <= |line|
  {
    forall k :: 0 <= k < n ==> IsSpace(ASCII_ONLY, line[k])
  }

  /** The lanes of a block say which of its bytes are white space. */
  lemma WsMask(line: seq<byte>, offset: nat, m: Mask)
    requires offset + BLOCK <= |line| && m == WsLanes(line[offset..offset + BLOCK])
    ensures forall i :: 0 <= i < BLOCK ==> (m[i] <==> IsSpace(ASCII_ONLY, line[offset + i]))
  {
    var block := line[offset..offset + BLOCK];
    forall i | 0 <= i < BLOCK ensures m[i] <==> IsSpace(ASCII_ONLY, line[offset + i]) {
      WsLane(block, i);
    }
  }

  /** White space goes on by `n` bytes. */
  lemma WsGoesOn(line: seq<byte>, offset: nat, m: Mask, n: nat)
    requires offset + BLOCK <= |line| && WsBefore(line, offset) && n <= BLOCK == |m|
    requires forall i :: 0 <= i < BLOCK ==> (m[i] <==> IsSpace(ASCII_ONLY, line[offset + i]))
    requires forall i :: 0 <= i < n ==> m[i]
    ensures WsBefore(line, offset + n)
  {
    forall k | 0 <= k < offset + n ensures IsSpace(ASCII_ONLY, line[k]) {
      assert k >= offset ==> m[k - offset];
    }
  }

  /** The first lane that is not white space ends the run; if there is none it goes on behind the block. */
  lemma WsEnds(line: seq<byte>, offset: nat, m: Mask, lane: Option<nat>)
    requires offset + BLOCK <= |line| && WsBefore(line, offset) && |m| == BLOCK && IsFirstFalse(m, lane)
    requires forall i :: 0 <= i < BLOCK ==> (m[i] <==> IsSpace(ASCII_ONLY, line[offset + i]))
    ensures lane.None? ==> WsBefore(line, offset + BLOCK)
    ensures lane.Some? ==> lane.value < BLOCK && LeadingChars(ASCII_ONLY, line) == offset + lane.value
  {
    if lane.Some? {
      WsGoesOn(line, offset, m, lane.value);
      LeadingUnique(ASCII_ONLY, line, offset + lane.value);
    } else {
      WsGoesOn(line, offset, m, BLOCK);
    }
  }

  /** Where a block's first false lane puts the end of the run. */
  lemma WsBlock(line: seq<byte>, offset: nat)
    requires offset + BLOCK <= |line| && WsBefore(line, offset)
    ensures var lane := FirstFalseByBits(WsLanes(line[offset..offset + BLOCK]));
            && (lane.None? ==> WsBefore(line, offset + BLOCK))
            && (lane.Some? ==> lane.value < BLOCK && LeadingChars(ASCII_ONLY, line) == offset + lane.value)
  {
    var m := WsLanes(line[offset..offset + BLOCK]);
    WsMask(line, offset, m);
    FirstFalseBits(m);
    WsEnds(line, offset, m, FirstFalseByBits(m));
  }

  /** A scalar scan continued behind known whitespace. */
  lemma WsSuffix(line: seq<byte>, offset: nat)
    requires offset <= |line| && WsBefore(line, offset)
    ensures LeadingChars(ASCII_ONLY, line) == offset + LeadingChars(ASCII_ONLY, line[offset..])
  {
    var n := LeadingChars(ASCII_ONLY, line[offset..]);
    LeadingIsRun(ASCII_ONLY, line[offset..]);
    forall k | 0 <= k < offset + n ensures IsSpace(ASCII_ONLY, line[k]) {
      assert k >= offset ==> line[k] == line[offset..][k - offset];
    }
    LeadingUnique(ASCII_ONLY, line, offset + n);
  }

  lemma {:induction false} LeadingIsRun(u: Tables, t: Text)
    ensures var n := LeadingChars(u, t);
            (forall i :: 0 <= i < n ==> IsSpace(u, t[i])) && (n < |t| ==> !IsSpace(u, t[n]))
  {
    if t != [] && IsSpace(u, t[0]) {
      LeadingIsRun(u, t[1..]);
      var n := LeadingChars(u, t);
      forall i | 0 <= i < n ensures IsSpace(u, t[i]) {
        assert i > 0 ==> t[i] == t[1..][i - 1];
      }
    }
  }

  /** `leading_ws_kernel`: a partial final block is pulled back over the previous one. */
  method LeadingWhitespaceKernel(line: seq<byte>) returns (v: Verdict)
    ensures v == LeadingVerdict(line)
  {
    var offset := 0;
    while offset + BLOCK <= |line|
      invariant offset <= |line| && WsBefore(line, offset)
      decreases |line| - offset
    {
      WsBlock(line, offset);
      var lane := FirstFalseByBits(WsLanes(line[offset..offset + BLOCK]));
      if lane.Some? {
        var end := offset + lane.value;
        return if IsAscii(line[end]) then Timestamp.Match(end) else Timestamp.Unsure;
      }
      offset := offset + BLOCK;
      if offset < |line| && offset + BLOCK > |line| {
        offset := |line| - BLOCK;
      }
    }
    WsSuffix(line, offset);
    v := LeadingWhitespaceScalar(line[offset..]);
    if v.Match? {
      v := Timestamp.Match(offset + v.len);
    }
  }

  /** `get_indent_level`: characters, not bytes, are counted when bytes cannot tell. */
  function IndentLevel(u: Tables, t: Text): nat
    requires IsText(t)
  {
    match LeadingVerdict(EncodeText(t))
    case Match(n) => n
    case _ => LeadingChars(u, t)
  }

  /** The byte scan never changes the answer, whatever is whitespace outside ASCII. */
  lemma IndentLevelIsLeadingChars(u: Tables, t: Text)
    requires IsText(t)
    ensures IndentLevel(u, t) == LeadingChars(u, t)
  {
    if LeadingVerdict(EncodeText(t)).Match? {
      CountedByBytes(u, t);
    }
  }

  /** An ASCII byte ends the run of white space, so bytes and characters count alike. */
  lemma CountedByBytes(u: Tables, t: Text)
    requires IsText(t) && LeadingVerdict(EncodeText(t)).Match?
    ensures LeadingVerdict(EncodeText(t)).len == LeadingChars(u, t)
  {
    var b := EncodeText(t);
    var k := Timestamp.EncodingMirrors(t);
    MirroredRun(u, t, b, k);
    LeadingUnique(u, t, LeadingChars(ASCII_ONLY, b));
  }

  lemma MirroredRun(u: Tables, t: Text, b: seq<byte>, k: nat)
    requires Timestamp.Mirror(t, b, k) && LeadingVerdict(b).Match?
    ensures var n := LeadingChars(ASCII_ONLY, b);
            n <= |t| && (forall i :: 0 <= i < n ==> IsSpace(u, t[i])) && (n < |t| ==> !IsSpace(u, t[n]))
  {
    LeadingIsRun(ASCII_ONLY, b);
  }

  // ---- Literal search ----

  /** No occurrence starts in front of `end`. */
  ghost predicate NoneBefore(haystack: Text, needle: Text, end: nat) {
    forall i :: 0 <= i < end ==> !OccursAt(haystack, needle, i)
  }

  /** The least occurrence; an empty needle is not looked for. */
  ghost predicate IsFirstOccurrence(haystack: Text, needle: Text, r: Option<nat>) {
    match r
    case None => needle == [] || NoneBefore(haystack, needle, |haystack| + 1)
    case Some(i) => needle != [] && OccursAt(haystack, needle, i) && NoneBefore(haystack, needle, i)
  }

  lemma FirstOccurrenceUnique(haystack: Text, needle: Text, r: Option<nat>, q: Option<nat>)
    requires IsFirstOccurrence(haystack, needle, r) && IsFirstOccurrence(haystack, needle, q)
    ensures r == q
  {}

  lemma TooLate(haystack: Text, needle: Text, end: nat)
    requires NoneBefore(haystack, needle, end) && end + |needle| > |haystack|
    ensures NoneBefore(haystack, needle, |haystack| + 1)
  {}

  /** `find_literal_scalar`. */
  method FindLiteralScalar(haystack: seq<byte>, needle: seq<byte>) returns (r: Option<nat>)
    ensures IsFirstOccurrence(haystack, needle, r)
  {
    if needle == [] || |haystack| < |needle| {
      return None;
    }
    var first, last := needle[0], needle[|needle| - 1];
    var end := |haystack| - |needle|;
    var i := 0;
    while i <= end
      invariant i <= end + 1 && NoneBefore(haystack, needle, i)
    {
      var window := haystack[i..i + |needle|];
      assert window[0] == haystack[i] && window[|needle| - 1] == haystack[i + |needle| - 1];
      if haystack[i] == first && haystack[i + |needle| - 1] == last && window == needle {
        return Some(i);
      }
      i := i + 1;
    }
    TooLate(haystack, needle, i);
    return None;
  }

  /** First and last byte of the needle line up. */
  function Candidates(haystack: seq<byte>, needle: seq<byte>, offset: nat): (m: Mask)
    requires needle != [] && offset + |needle| - 1 + BLOCK <= |haystack|
    ensures |m| == BLOCK
  {
    var lastOffset := offset + |needle| - 1;
    Both(Eq(haystack[offset..offset + BLOCK], Splat(needle[0])),
         Eq(haystack[lastOffset..lastOffset + BLOCK], Splat(needle[|needle| - 1])))
  }

  /** The filter loses no occurrence. */
  lemma OccurrenceIsCandidate(haystack: seq<byte>, needle: seq<byte>, offset: nat, i: nat)
    requires needle != [] && offset + |needle| - 1 + BLOCK <= |haystack| && i < BLOCK
    requires OccursAt(haystack, needle, offset + i)
    ensures Candidates(haystack, needle, offset)[i]
  {
    var at, n := offset + i, |needle|;
    var window := haystack[at..at + n];
    assert window[0] == haystack[at] && window[n - 1] == haystack[at + n - 1];
  }

  /** Every occurrence among the lanes is still marked. */
  ghost predicate Pending(haystack: seq<byte>, needle: seq<byte>, offset: nat, m: Mask) {
    forall i :: 0 <= i < |m| && !m[i] ==> !OccursAt(haystack, needle, offset + i)
  }

  /** The lanes below the lowest pending one hold no occurrence. */
  lemma NoneBelowLane(haystack: seq<byte>, needle: seq<byte>, offset: nat, m: Mask)
    requires NoneBefore(haystack, needle, offset) && Pending(haystack, needle, offset, m)
    ensures NoneBefore(haystack, needle, offset + LowestSet(m))
  {
    LowestSetIsLowest(m);
    forall i | 0 <= i < offset + LowestSet(m) ensures !OccursAt(haystack, needle, i) {
      assert i >= offset ==> !m[i - offset] && i == offset + (i - offset);
    }
  }

  /** One block's lanes, in ascending order. */
  method ScanLanes(haystack: seq<byte>, needle: seq<byte>, offset: nat) returns (r: Option<nat>)
    requires needle != [] && offset + |needle| - 1 + BLOCK <= |haystack| && NoneBefore(haystack, needle, offset)
    ensures r.Some? ==> IsFirstOccurrence(haystack, needle, r)
    ensures r.None? ==> NoneBefore(haystack, needle, offset + BLOCK)
  {
    ghost var m := Candidates(haystack, needle, offset);
    forall i | 0 <= i < BLOCK && !m[i] ensures !OccursAt(haystack, needle, offset + i) {
      if OccursAt(haystack, needle, offset + i) {
        OccurrenceIsCandidate(haystack, needle, offset, i);
      }
    }
    var lanes := Bitmask(Candidates(haystack, needle, offset));
    while lanes != 0
      invariant |m| == BLOCK && lanes == Bitmask(m) && Pending(haystack, needle, offset, m)
      decreases BLOCK - LowestSet(m)
    {
      LowestLane(m);
      ClearLowest(m);
      NoneBelowLane(haystack, needle, offset, m);
      var start := offset + TrailingZeros(lanes);
      if haystack[start..start + |needle|] == needle {
        return Some(start);
      }
      ClearedIsHigher(m);
      lanes := And(lanes, lanes - 1);
      m := m[LowestSet(m) := false];
    }
    LowestLane(m);
    NoneBelowLane(haystack, needle, offset, m);
    return None;
  }

  lemma ClearedIsHigher(m: Mask)
    requires LowestSet(m) < |m|
    ensures LowestSet(m[LowestSet(m) := false]) > LowestSet(m)
  {
    var k := LowestSet(m);
    var cleared := m[k := false];
    LowestSetIsLowest(m);
    LowestSetIsLowest(cleared);
    assert LowestSet(cleared) < |cleared| ==> cleared[LowestSet(cleared)];
  }

  /** `find_literal_kernel`: whole blocks of candidate starts, then the scalar search. */
  method FindLiteralKernel(haystack: seq<byte>, needle: seq<byte>) returns (r: Option<nat>)
    requires needle != [] && |needle| <= |haystack|
    ensures IsFirstOccurrence(haystack, needle, r)
  {
    var candidateStarts := |haystack| - |needle| + 1;
    var offset := 0;
    while offset + BLOCK <= candidateStarts
      invariant offset <= candidateStarts && NoneBefore(haystack, needle, offset)
    {
      r := ScanLanes(haystack, needle, offset);
      if r.Some? {
        return r;
      }
      offset := offset + BLOCK;
    }
    var found := FindLiteralScalar(haystack[offset..], needle);
    SuffixOccurrence(haystack, needle, offset, found);
    r := if found.Some? then Some(offset + found.value) else None;
  }

  lemma SuffixOccurrence(haystack: seq<byte>, needle: seq<byte>, offset: nat, found: Option<nat>)
    requires needle != [] && offset <= |haystack| && NoneBefore(haystack, needle, offset)
    requires IsFirstOccurrence(haystack[offset..], needle, found)
    ensures IsFirstOccurrence(haystack, needle, if found.Some? then Some(offset + found.value) else None)
  {
    var s := haystack[offset..];
    forall i | 0 <= i <= |haystack| - offset
      ensures OccursAt(haystack, needle, offset + i) <==> OccursAt(s, needle, i)
    {
      if i + |needle| <= |s| {
        assert s[i..i + |needle|] == haystack[offset + i..offset + i + |needle|];
      }
    }
    var end := if found.Some? then offset + found.value else |haystack| + 1;
    forall i | 0 <= i < end ensures !OccursAt(haystack, needle, i) {
      assert i >= offset ==> i == offset + (i - offset) && !OccursAt(s, needle, i - offset);
    }
  }

  /** `find_literal_simd`. */
  method FindLiteral(haystack: seq<byte>, needle: seq<byte>) returns (r: Option<nat>)
    ensures IsFirstOccurrence(haystack, needle, r)
  {
    if needle == [] || |haystack| < |needle| {
      return None;
    }
    r := FindLiteralKernel(haystack, needle);
  }
}
