/**
 * Splitting a buffer into lines. The same split serves the parser's
 * newline-terminated reads, the boundary scans of both tailers and, over
 * decoded text, the newline split of a string.
 */
module Lines {
  import opened Common

  /** Length of the first line, its terminator included. */
  function FirstLineLen<T(==)>(s: seq<T>, nl: T): (n: nat)
    ensures n <= |s|
    ensures s != [] ==> n > 0
  {
    if s == [] then 0 else if s[0] == nl then 1 else 1 + FirstLineLen(s[1..], nl)
  }

  /** The first line ends at the first newline, or with the buffer. */
  lemma {:induction false} FirstLineShape<T>(s: seq<T>, nl: T)
    ensures var n := FirstLineLen(s, nl);
            && (forall i :: 0 <= i < n - 1 ==> s[i] != nl)
            && (n == |s| || (n > 0 && s[n - 1] == nl))
  {
    if s != [] && s[0] != nl {
      FirstLineShape(s[1..], nl);
      var n := FirstLineLen(s, nl);
      forall i | 0 <= i < n - 1 ensures s[i] != nl {
        assert i > 0 ==> s[i] == s[1..][i - 1];
      }
    }
  }

  lemma {:induction false} FirstLineOfPrefix<T>(s: seq<T>, nl: T, k: nat)
    requires k <= |s|
    ensures FirstLineLen(s[..k], nl) <= FirstLineLen(s, nl)
  {
    if k > 0 && s[0] != nl {
      assert s[..k][1..] == s[1..][..k - 1];
      FirstLineOfPrefix(s[1..], nl, k - 1);
    }
  }

  function Split<T(==)>(s: seq<T>, nl: T): (lines: seq<seq<T>>)
    ensures s == [] <==> lines == []
    decreases |s|
  {
    if s == [] then []
    else
      var n := FirstLineLen(s, nl);
      [s[..n]] + Split(s[n..], nl)
  }

  /** The lines of a file, each with its newline; the last one may lack it. */
  function FileLines(s: seq<byte>): seq<seq<byte>> {
    Split(s, NEWLINE)
  }

  /** A position at which a line of `s` begins. */
  predicate LineStart<T(==)>(s: seq<T>, nl: T, c: nat)
    requires c <= |s|
  {
    c == 0 || s[c - 1] == nl
  }

  /** A line: not empty, its only newline at the end, where just the last line may lack it. */
  ghost predicate IsLine<T>(line: seq<T>, nl: T, last: bool) {
    && line != []
    && (forall i :: 0 <= i < |line| - 1 ==> line[i] != nl)
    && (line[|line| - 1] == nl || last)
  }

  /** What it means for `lines` to be a split into lines, however it was found. */
  ghost predicate IsSplit<T>(lines: seq<seq<T>>, nl: T) {
    lines == [] || (IsLine(lines[0], nl, |lines| == 1) && IsSplit(lines[1..], nl))
  }

  lemma FirstLineLenUnique<T>(s: seq<T>, nl: T, n: nat)
    requires 0 < n <= |s|
    requires forall i :: 0 <= i < n - 1 ==> s[i] != nl
    requires n == |s| || s[n - 1] == nl
    ensures FirstLineLen(s, nl) == n
  {
    FirstLineShape(s, nl);
    var m := FirstLineLen(s, nl);
    assert m == |s| || s[m - 1] == nl;
    assert n == |s| || s[n - 1] == nl;
  }

  /** A line followed by whatever comes after it. */
  lemma SplitLine<T>(line: seq<T>, rest: seq<T>, nl: T)
    requires IsLine(line, nl, rest == [])
    ensures Split(line + rest, nl) == [line] + Split(rest, nl)
  {
    var s := line + rest;
    FirstLineLenUnique(s, nl, |line|);
    assert s[..|line|] == line && s[|line|..] == rest;
  }

  /** The first line of a buffer and what follows it. */
  lemma FirstLineIsLine<T>(s: seq<T>, nl: T) returns (line: seq<T>, rest: seq<T>)
    requires s != []
    ensures line == s[..FirstLineLen(s, nl)] && rest == s[FirstLineLen(s, nl)..]
    ensures s == line + rest
    ensures IsLine(line, nl, rest == [])
    ensures Split(s, nl) == [line] + Split(rest, nl)
  {
    FirstLineShape(s, nl);
    var n := FirstLineLen(s, nl);
    line, rest := s[..n], s[n..];
    assert line[n - 1] == s[n - 1];
  }

  /** The split loses nothing and has the shape of a split. */
  lemma {:induction false} SplitIsSplit<T>(s: seq<T>, nl: T)
    ensures Flatten(Split(s, nl)) == s
    ensures IsSplit(Split(s, nl), nl)
    decreases |s|
  {
    if s != [] {
      var line, rest := FirstLineIsLine(s, nl);
      SplitIsSplit(rest, nl);
      assert Split(s, nl)[1..] == Split(rest, nl);
    }
  }

  /** Any sequence with the shape of a split is the split of what it spells. */
  lemma {:induction false} SplitUnique<T>(lines: seq<seq<T>>, nl: T)
    requires IsSplit(lines, nl)
    ensures Split(Flatten(lines), nl) == lines
  {
    if lines != [] {
      SplitUnique(lines[1..], nl);
      assert |lines| > 1 ==> lines[1..] != [];
      SplitLine(lines[0], Flatten(lines[1..]), nl);
    }
  }

  /** Cutting where a line starts cuts between lines. */
  lemma {:induction false} SplitAtLineStart<T>(a: seq<T>, b: seq<T>, nl: T)
    requires LineStart(a + b, nl, |a|)
    ensures Split(a + b, nl) == Split(a, nl) + Split(b, nl)
    decreases |a|
  {
    if a == [] {
      assert a + b == b;
    } else {
      var line, rest := FirstLineIsLine(a, nl);
      LineStartDrop(line, rest, b, nl);
      SplitAtLineStart(rest, b, nl);
      SplitLineCut(line, rest, b, nl);
    }
  }

  lemma LineStartDrop<T>(line: seq<T>, rest: seq<T>, b: seq<T>, nl: T)
    requires line != []
    requires LineStart((line + rest) + b, nl, |line + rest|)
    ensures LineStart(rest + b, nl, |rest|)
    ensures rest == [] ==> line[|line| - 1] == nl
  {
    var s := (line + rest) + b;
    assert s[|line + rest| - 1] == if rest == [] then line[|line| - 1] else rest[|rest| - 1];
    assert rest != [] ==> (rest + b)[|rest| - 1] == rest[|rest| - 1];
  }

  lemma SplitLineCut<T>(line: seq<T>, rest: seq<T>, b: seq<T>, nl: T)
    requires IsLine(line, nl, false)
    requires Split(rest + b, nl) == Split(rest, nl) + Split(b, nl)
    ensures Split((line + rest) + b, nl) == Split(line + rest, nl) + Split(b, nl)
  {
    Assoc(line, rest, b);
    SplitLine(line, rest + b, nl);
    SplitLine(line, rest, nl);
    Assoc([line], Split(rest, nl), Split(b, nl));
  }
}
