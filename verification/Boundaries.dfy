/** Where a log may be cut: the boundary scans of the exporter and of the background worker. */
module Boundaries {
  import opened Common
  import opened Lines
  import opened Regex
  import opened Unicode
  import opened Timestamp
  import opened LogParser

  /** The line that begins at `c`. */
  function LineAt(s: seq<byte>, c: nat): seq<byte>
    requires c <= |s|
  {
    s[c..][..FirstLineLen(s[c..], NEWLINE)]
  }

  /** A line begins at `c`, and it is one of those `p` accepts. */
  predicate StartsAt(s: seq<byte>, p: seq<byte> -> bool, c: nat) {
    c < |s| && LineStart(s, NEWLINE, c) && p(LineAt(s, c))
  }

  /** Offset of the last accepted line, counted from `base`. */
  function LastStart(s: seq<byte>, p: seq<byte> -> bool, base: nat): Option<nat>
    decreases |s|
  {
    if s == [] then None
    else
      var n := FirstLineLen(s, NEWLINE);
      var later := LastStart(s[n..], p, base + n);
      if later.Some? then later else if p(s[..n]) then Some(base) else None
  }

  /** Whether two lines or more are accepted. */
  predicate TwoStarts(s: seq<byte>, p: seq<byte> -> bool)
    decreases |s|
  {
    s != [] &&
    var n := FirstLineLen(s, NEWLINE);
    if p(s[..n]) then LastStart(s[n..], p, 0).Some? else TwoStarts(s[n..], p)
  }

  /** A scan over the lines, counting the accepted ones and remembering the last. */
  function Scan(s: seq<byte>, p: seq<byte> -> bool, base: nat, count: nat, last: Option<nat>): (nat, Option<nat>)
    decreases |s|
  {
    if s == [] then (count, last)
    else
      var n := FirstLineLen(s, NEWLINE);
      if p(s[..n]) then Scan(s[n..], p, base + n, count + 1, Some(base))
      else Scan(s[n..], p, base + n, count, last)
  }

  /** The loop of both boundary scans: a running offset, line by line. */
  method ScanLines(bytes: seq<byte>, p: seq<byte> -> bool) returns (count: nat, last: Option<nat>)
    ensures (count, last) == Scan(bytes, p, 0, 0, None)
  {
    var pos, rest := 0, bytes;
    count, last := 0, None;
    while rest != []
      invariant Scan(rest, p, pos, count, last) == Scan(bytes, p, 0, 0, None)
      decreases |rest|
    {
      var n := FirstLineLen(rest, NEWLINE);
      if p(rest[..n]) {
        count, last := count + 1, Some(pos);
      }
      pos, rest := pos + n, rest[n..];
    }
  }

  lemma {:induction false} ScanMeaning(s: seq<byte>, p: seq<byte> -> bool, base: nat, count: nat, last: Option<nat>)
    ensures Scan(s, p, base, count, last).1 ==
            if LastStart(s, p, base).Some? then LastStart(s, p, base) else last
    ensures Scan(s, p, base, count, last).0 >= count
    ensures Scan(s, p, base, count, last).0 >= count + 1 <==> LastStart(s, p, base).Some?
    ensures Scan(s, p, base, count, last).0 >= count + 2 <==> TwoStarts(s, p)
    decreases |s|
  {
    if s != [] {
      var n := FirstLineLen(s, NEWLINE);
      LastStartBase(s[n..], p, base + n, 0);
      if p(s[..n]) {
        ScanMeaning(s[n..], p, base + n, count + 1, Some(base));
      } else {
        ScanMeaning(s[n..], p, base + n, count, last);
      }
    }
  }

  lemma {:induction false} LastStartBase(s: seq<byte>, p: seq<byte> -> bool, base: nat, other: nat)
    ensures LastStart(s, p, base).Some? <==> LastStart(s, p, other).Some?
    decreases |s|
  {
    if s != [] {
      var n := FirstLineLen(s, NEWLINE);
      LastStartBase(s[n..], p, base + n, other + n);
    }
  }

  lemma StartsAtFirst(s: seq<byte>, p: seq<byte> -> bool, c: nat)
    requires s != []
    ensures c < FirstLineLen(s, NEWLINE) ==>
              (StartsAt(s, p, c) <==> c == 0 && p(s[..FirstLineLen(s, NEWLINE)]))
    ensures FirstLineLen(s, NEWLINE) <= c ==>
              (StartsAt(s, p, c) <==> StartsAt(s[FirstLineLen(s, NEWLINE)..], p, c - FirstLineLen(s, NEWLINE)))
  {
    var n := FirstLineLen(s, NEWLINE);
    FirstLineShape(s, NEWLINE);
    if c < n {
      assert s[0..] == s;
    } else if c < |s| {
      assert s[n..][c - n..] == s[c..];
      assert s[n - 1] == NEWLINE;
      assert c > n ==> s[n..][c - n - 1] == s[c - 1];
    }
  }

  /** The scan finds an accepted line, and none comes after it. */
  lemma {:induction false} LastStartMeaning(s: seq<byte>, p: seq<byte> -> bool, base: nat)
    ensures LastStart(s, p, base).Some? ==>
              base <= LastStart(s, p, base).value && StartsAt(s, p, LastStart(s, p, base).value - base)
    ensures forall c: nat :: StartsAt(s, p, c) ==>
              LastStart(s, p, base).Some? && base + c <= LastStart(s, p, base).value
    decreases |s|
  {
    if s != [] {
      var n := FirstLineLen(s, NEWLINE);
      LastStartMeaning(s[n..], p, base + n);
      var last := LastStart(s, p, base);
      if last.Some? {
        StartsAtFirst(s, p, last.value - base);
      }
      forall c: nat | StartsAt(s, p, c) ensures last.Some? && base + c <= last.value {
        StartsAtFirst(s, p, c);
      }
    }
  }

  /** Two starts means one in front of the last. */
  lemma {:induction false} TwoStartsMeaning(s: seq<byte>, p: seq<byte> -> bool, c: nat, d: nat)
    requires c < d && StartsAt(s, p, c) && StartsAt(s, p, d)
    ensures TwoStarts(s, p)
    decreases |s|
  {
    var n := FirstLineLen(s, NEWLINE);
    StartsAtFirst(s, p, c);
    StartsAtFirst(s, p, d);
    if c < n {
      LastStartMeaning(s[n..], p, 0);
    } else if p(s[..n]) {
      LastStartMeaning(s[n..], p, 0);
    } else {
      TwoStartsMeaning(s[n..], p, c - n, d - n);
    }
  }

  /** With two starts the last one is not at the beginning. */
  lemma {:induction false} TwoStartsLast(s: seq<byte>, p: seq<byte> -> bool, base: nat)
    requires TwoStarts(s, p)
    ensures LastStart(s, p, base).Some? && LastStart(s, p, base).value > base
    decreases |s|
  {
    var n := FirstLineLen(s, NEWLINE);
    if p(s[..n]) {
      LastStartBase(s[n..], p, 0, base + n);
      LastStartMeaning(s[n..], p, base + n);
    } else {
      TwoStartsLast(s[n..], p, base + n);
    }
  }

  // ---- The exporter ----

  /** A complete line that carries a timestamp. */
  predicate CompleteLogLine(line: seq<byte>) {
    line != [] && line[|line| - 1] == NEWLINE && IsLogLineStart(line)
  }

  function LastBoundary(s: seq<byte>): Option<nat> {
    LastStart(s, CompleteLogLine, 0)
  }

  method LastEntryBoundary(bytes: seq<byte>) returns (last: Option<nat>)
    ensures last == LastBoundary(bytes)
  {
    var count;
    count, last := ScanLines(bytes, CompleteLogLine);
    ScanMeaning(bytes, CompleteLogLine, 0, 0, None);
  }

  /** A position at which the file may be cut, now and after any append. */
  predicate GoodCut(file: seq<byte>, p: nat) {
    p == |file| || (p < |file| && LineStart(file, NEWLINE, p) && StartsEntry(file[p..]))
  }

  lemma FirstLineStable(s: seq<byte>, more: seq<byte>)
    requires s != []
    requires s[FirstLineLen(s, NEWLINE) - 1] == NEWLINE
    ensures FirstLineLen(s + more, NEWLINE) == FirstLineLen(s, NEWLINE)
    ensures (s + more)[..FirstLineLen(s, NEWLINE)] == s[..FirstLineLen(s, NEWLINE)]
  {
    FirstLineShape(s, NEWLINE);
    FirstLineLenUnique(s + more, NEWLINE, FirstLineLen(s, NEWLINE));
  }

  /** A complete timestamped line found in a window is a good cut of every file that extends it. */
  lemma BoundaryIsGoodCut(file: seq<byte>, start: nat, end: nat, c: nat)
    requires start <= end <= |file| && 0 < c && StartsAt(file[start..end], CompleteLogLine, c)
    ensures start + c < end && GoodCut(file, start + c)
  {
    var w := file[start..end];
    var p := start + c;
    assert file[p - 1] == w[c - 1] == NEWLINE;
    var tail := w[c..];
    var n := FirstLineLen(tail, NEWLINE);
    assert tail[..n][n - 1] == tail[n - 1] == NEWLINE;
    assert file[p..] == tail + file[end..];
    FirstLineStable(tail, file[end..]);
  }

  /** It is a complete timestamped line of the file. */
  lemma WindowLineInFile(file: seq<byte>, start: nat, end: nat, c: nat)
    requires start <= end <= |file| && 0 < c && StartsAt(file[start..end], CompleteLogLine, c)
    ensures StartsAt(file, CompleteLogLine, start + c) && start + c + |LineAt(file, start + c)| <= end
  {
    var w := file[start..end];
    assert file[start + c - 1] == w[c - 1] == NEWLINE;
    assert file[start + c..] == w[c..] + file[end..];
    CompleteLineStable(w[c..], file[end..]);
  }

  lemma CompleteLineStable(tail: seq<byte>, more: seq<byte>)
    requires tail != [] && CompleteLogLine(tail[..FirstLineLen(tail, NEWLINE)])
    ensures CompleteLogLine((tail + more)[..FirstLineLen(tail + more, NEWLINE)])
    ensures FirstLineLen(tail + more, NEWLINE) <= |tail|
  {
    var n := FirstLineLen(tail, NEWLINE);
    assert tail[..n][n - 1] == tail[n - 1] == NEWLINE;
    FirstLineStable(tail, more);
  }

  /** A timestamped line that is complete at `p` is found by any window that covers it. */
  lemma WindowFindsLine(file: seq<byte>, start: nat, end: nat, p: nat)
    requires start < p < end <= |file| && StartsAt(file, CompleteLogLine, p)
    requires p + |LineAt(file, p)| <= end
    ensures StartsAt(file[start..end], CompleteLogLine, p - start)
  {
    var w := file[start..end];
    var n := FirstLineLen(file[p..], NEWLINE);
    assert w[p - start - 1] == file[p - 1];
    assert w[p - start..] == file[p..end] == file[p..][..end - p];
    assert file[p..][..n][n - 1] == NEWLINE;
    FirstLineShape(file[p..], NEWLINE);
    FirstLineLenUnique(w[p - start..], NEWLINE, n);
    assert w[p - start..][..n] == file[p..][..n];
  }

  // ---- The background worker ----

  predicate Contains(haystack: seq<byte>, needle: seq<byte>) {
    exists i: nat :: i <= |haystack| && OccursAt(haystack, needle, i)
  }

  /** `duration:` */
  const DURATION: seq<byte> := [100, 117, 114, 97, 116, 105, 111, 110, 58]

  /** `plan:` */
  const PLAN_MARK: seq<byte> := [112, 108, 97, 110, 58]

  predicate IsEntryHeader(line: seq<byte>) {
    IsLogLineStart(line) && Contains(line, DURATION) && Contains(line, PLAN_MARK)
  }

  /** An entry header carries a timestamp and both words of auto_explain. */
  lemma HeaderNeedsBoth(line: seq<byte>)
    ensures IsEntryHeader(line) <==>
            && IsLogLineStart(line)
            && (exists i: nat :: OccursAt(line, Ascii("duration:"), i))
            && (exists i: nat :: OccursAt(line, Ascii("plan:"), i))
  {
    assert DURATION == Ascii("duration:") && PLAN_MARK == Ascii("plan:");
    if i: nat :| OccursAt(line, Ascii("duration:"), i) {
      assert i <= |line| && OccursAt(line, DURATION, i);
    }
    if i: nat :| OccursAt(line, Ascii("plan:"), i) {
      assert i <= |line| && OccursAt(line, PLAN_MARK, i);
    }
  }

  /** Start of the last of two or more entries, else 0. */
  function CompleteBoundary(s: seq<byte>): nat {
    if !TwoStarts(s, IsEntryHeader) then 0
    else
      TwoStartsLast(s, IsEntryHeader, 0);
      LastStart(s, IsEntryHeader, 0).value
  }

  method LastCompleteBoundary(bytes: seq<byte>) returns (boundary: nat)
    ensures boundary == CompleteBoundary(bytes)
  {
    var headerCount, lastHeader := ScanLines(bytes, IsEntryHeader);
    ScanMeaning(bytes, IsEntryHeader, 0, 0, None);
    if headerCount < 2 {
      return 0;
    }
    TwoStartsLast(bytes, IsEntryHeader, 0);
    return lastHeader.value;
  }

  /** A header stays one however the line continues. */
  lemma HeaderPrefix(line: seq<byte>, more: seq<byte>)
    requires IsEntryHeader(line)
    ensures IsEntryHeader(line + more)
  {
    var long := line + more;
    assert long[..TS_CORE_LEN] == line[..TS_CORE_LEN];
    forall j | 0 <= j < TS_CORE_LEN ensures In(ASCII_ONLY, TS_SHAPE[j], long[0 + j]) {
      assert In(ASCII_ONLY, TS_SHAPE[j], line[0 + j]);
    }
    ContainsPrefix(line, more, DURATION);
    ContainsPrefix(line, more, PLAN_MARK);
  }

  lemma ContainsPrefix(s: seq<byte>, more: seq<byte>, needle: seq<byte>)
    requires Contains(s, needle)
    ensures Contains(s + more, needle)
  {
    var i: nat :| i <= |s| && OccursAt(s, needle, i);
    assert (s + more)[i..i + |needle|] == needle;
    assert OccursAt(s + more, needle, i);
  }
}
