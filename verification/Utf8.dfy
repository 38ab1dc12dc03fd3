/**
 * Lossy UTF-8 decoding of log bytes (section 3 of RFC 3629): every maximal
 * ill-formed piece becomes one U+FFFD, nothing is dropped.
 */
module Utf8 {
  import opened Common
  import opened Lines

  const REPLACEMENT: nat := 0xFFFD

  predicate IsAscii(b: nat) {
    b < 0x80
  }

  predicate AllAscii(s: seq<nat>) {
    forall i :: 0 <= i < |s| ==> IsAscii(s[i])
  }

  /** Continuation octets a lead octet announces; 0 for ASCII and for octets that never lead. */
  function TailLen(lead: byte): nat {
    if 0xC2 <= lead <= 0xDF then 1
    else if 0xE0 <= lead <= 0xEF then 2
    else if 0xF0 <= lead <= 0xF4 then 3
    else 0
  }

  /** Whether `b` may stand at position `k` (from 1) of a sequence led by `lead`. */
  predicate Continues(lead: byte, k: nat, b: byte) {
    var lo := if k != 1 then 0x80 else if lead == 0xE0 then 0xA0 else if lead == 0xF0 then 0x90 else 0x80;
    var hi := if k != 1 then 0xBF else if lead == 0xED then 0x9F else if lead == 0xF4 then 0x8F else 0xBF;
    lo <= b <= hi
  }

  /** How many octets from position `k` on continue the sequence that `s` begins with. */
  function GoodTail(s: seq<byte>, k: nat): (n: nat)
    requires 1 <= k <= |s|
    ensures k + n <= |s|
    ensures k <= TailLen(s[0]) + 1 ==> k + n <= TailLen(s[0]) + 1
    decreases |s| - k
  {
    if k <= TailLen(s[0]) && k < |s| && Continues(s[0], k, s[k]) then 1 + GoodTail(s, k + 1) else 0
  }

  /** Octets the next decoded character takes. */
  function StepLen(s: seq<byte>): (n: nat)
    requires s != []
    ensures 1 <= n <= |s| && n <= 4
  {
    1 + GoodTail(s, 1)
  }

  /** The payload bits of an octet. */
  function Low(b: byte, m: nat): nat
    requires m > 0
  {
    b % m
  }

  function ScalarOf(s: seq<byte>): (c: nat)
    requires s != [] && |s| == 1 + TailLen(s[0])
    requires TailLen(s[0]) == 0 ==> IsAscii(s[0])
  {
    if |s| == 1 then s[0]
    else if |s| == 2 then Low(s[0], 0x20) * 0x40 + Low(s[1], 0x40)
    else if |s| == 3 then (Low(s[0], 0x10) * 0x40 + Low(s[1], 0x40)) * 0x40 + Low(s[2], 0x40)
    else ((Low(s[0], 0x08) * 0x40 + Low(s[1], 0x40)) * 0x40 + Low(s[2], 0x40)) * 0x40 + Low(s[3], 0x40)
  }

  /** The character the first `StepLen(s)` octets decode to. */
  function StepScalar(s: seq<byte>): nat
    requires s != []
  {
    if StepLen(s) == 1 + TailLen(s[0]) && (TailLen(s[0]) > 0 || IsAscii(s[0]))
    then ScalarOf(s[..StepLen(s)])
    else REPLACEMENT
  }

  function Decode(s: seq<byte>): Text {
    if s == [] then [] else [StepScalar(s)] + Decode(s[StepLen(s)..])
  }

  predicate IsScalar(c: nat) {
    c < 0xD800 || 0xE000 <= c < 0x11_0000
  }

  function Encode(c: nat): (s: seq<byte>)
    requires IsScalar(c)
    ensures 1 <= |s| <= 4
    ensures IsAscii(c) ==> s == [c]
    ensures !IsAscii(c) ==> forall i :: 0 <= i < |s| ==> !IsAscii(s[i])
  {
    if c < 0x80 then [c]
    else if c < 0x800 then [0xC0 + c / 0x40, 0x80 + c % 0x40]
    else if c < 0x1_0000 then [0xE0 + c / 0x40 / 0x40, 0x80 + c / 0x40 % 0x40, 0x80 + c % 0x40]
    else [0xF0 + c / 0x40 / 0x40 / 0x40, 0x80 + c / 0x40 / 0x40 % 0x40, 0x80 + c / 0x40 % 0x40, 0x80 + c % 0x40]
  }

  predicate IsText(t: Text) {
    forall i :: 0 <= i < |t| ==> IsScalar(t[i])
  }

  /** `str::as_bytes`. */
  function EncodeText(t: Text): (s: seq<byte>)
    requires IsText(t)
    ensures |s| >= |t|
  {
    if t == [] then [] else Encode(t[0]) + EncodeText(t[1..])
  }

  // ---- Decoding ----

  /** The tail of a sequence is judged the same whatever follows an octet that cannot continue it. */
  lemma {:induction false} GoodTailPrefix(s: seq<byte>, r: seq<byte>, k: nat)
    requires 1 <= k <= |s|
    requires r != [] ==> IsAscii(r[0])
    ensures GoodTail(s + r, k) == GoodTail(s, k)
    decreases |s| - k
  {
    if k < |s| {
      GoodTailPrefix(s, r, k + 1);
    } else if r != [] {
      assert (s + r)[k] == r[0];
    }
  }

  /** A decoded character is a scalar value, and ASCII only when it is that very octet. */
  lemma StepScalarAscii(s: seq<byte>)
    requires s != []
    ensures IsScalar(StepScalar(s))
    ensures IsAscii(s[0]) ==> StepLen(s) == 1 && StepScalar(s) == s[0]
    ensures !IsAscii(s[0]) ==> !IsAscii(StepScalar(s))
  {
    var n := StepLen(s);
    if n == 1 + TailLen(s[0]) && TailLen(s[0]) > 0 {
      var p := s[..n];
      assert n >= 2 ==> Continues(s[0], 1, s[1]);
      if n >= 3 { assert GoodTail(s, 1) == 1 + GoodTail(s, 2); assert Continues(s[0], 2, s[2]); }
      if n >= 4 { assert GoodTail(s, 2) == 1 + GoodTail(s, 3); assert Continues(s[0], 3, s[3]); }
    }
  }

  lemma {:induction false} DecodeIsText(s: seq<byte>)
    ensures IsText(Decode(s))
  {
    if s != [] {
      StepScalarAscii(s);
      DecodeIsText(s[StepLen(s)..]);
    }
  }

  lemma DecodeStepCut(s: seq<byte>, r: seq<byte>)
    requires s != []
    requires r != [] ==> IsAscii(r[0])
    ensures StepLen(s + r) == StepLen(s) && StepScalar(s + r) == StepScalar(s)
    ensures (s + r)[StepLen(s)..] == s[StepLen(s)..] + r
  {
    GoodTailPrefix(s, r, 1);
    assert (s + r)[..StepLen(s)] == s[..StepLen(s)];
  }

  /**
   * Decoding may be cut in front of any ASCII octet: it never occurs inside a
   * multi-octet character, and it ends an ill-formed piece as the end of input does.
   */
  lemma {:induction false} DecodeCut(s: seq<byte>, r: seq<byte>)
    requires r != [] ==> IsAscii(r[0])
    ensures Decode(s + r) == Decode(s) + Decode(r)
    decreases |s|
  {
    if s == [] {
      assert s + r == r;
    } else {
      DecodeStepCut(s, r);
      var rest := s[StepLen(s)..];
      DecodeCut(rest, r);
      Assoc([StepScalar(s)], Decode(rest), Decode(r));
    }
  }

  lemma {:induction false} DecodeAsciiPrefix(p: seq<byte>, r: seq<byte>)
    requires AllAscii(p)
    ensures Decode(p + r) == p + Decode(r)
  {
    if p == [] {
      assert p + r == r;
    } else {
      HeadTail(p, r);
      StepScalarAscii(p + r);
      DecodeAsciiPrefix(p[1..], r);
      HeadTail(p, Decode(r));
    }
  }

  /** A newline-free buffer decodes to newline-free text. */
  lemma {:induction false} DecodeNoNewline(s: seq<byte>)
    requires forall i :: 0 <= i < |s| ==> s[i] != NEWLINE
    ensures forall i :: 0 <= i < |Decode(s)| ==> Decode(s)[i] != NEWLINE
  {
    if s != [] {
      StepScalarAscii(s);
      DecodeNoNewline(s[StepLen(s)..]);
    }
  }

  function DecodeEach(lines: seq<seq<byte>>): (r: seq<Text>)
    ensures |r| == |lines|
    ensures forall k :: 0 <= k < |lines| ==> r[k] == Decode(lines[k])
  {
    if lines == [] then [] else [Decode(lines[0])] + DecodeEach(lines[1..])
  }

  /** Splitting raw bytes and decoding each line is decoding the buffer and splitting its text. */
  lemma {:induction false} DecodeLinewise(s: seq<byte>)
    ensures Split(Decode(s), NEWLINE) == DecodeEach(FileLines(s))
    decreases |s|
  {
    if s != [] {
      var line, rest := FirstLineIsLine(s, NEWLINE);
      DecodeFirstLine(line, rest);
      DecodeLinewise(rest);
      SplitLine(Decode(line), Decode(rest), NEWLINE);
      assert FileLines(s)[1..] == FileLines(rest);
    }
  }

  lemma DecodeFirstLine(line: seq<byte>, rest: seq<byte>)
    requires IsLine(line, NEWLINE, rest == [])
    ensures Decode(line + rest) == Decode(line) + Decode(rest)
    ensures IsLine(Decode(line), NEWLINE, Decode(rest) == [])
  {
    if line[|line| - 1] == NEWLINE {
      var body := line[..|line| - 1];
      assert line == body + [NEWLINE];
      DecodeTerminated(body, rest);
      DecodeTerminated(body, []);
      assert body + [NEWLINE] + [] == line;
      assert Decode(line) == Decode(body) + [NEWLINE];
      DecodeNoNewline(body);
    } else {
      assert line + rest == line;
      DecodeNoNewline(line);
    }
  }

  lemma DecodeTerminated(body: seq<byte>, rest: seq<byte>)
    ensures Decode(body + [NEWLINE] + rest) == Decode(body) + [NEWLINE] + Decode(rest)
  {
    var nl: seq<byte> := [NEWLINE];
    assert body + nl + rest == body + (nl + rest);
    DecodeCut(body, nl + rest);
    DecodeAsciiPrefix(nl, rest);
    assert Decode(body) + (nl + Decode(rest)) == Decode(body) + nl + Decode(rest);
  }

  // ---- Round trip ----

  lemma {:induction false} GoodTailFull(s: seq<byte>, k: nat)
    requires s != [] && 1 <= k <= TailLen(s[0]) + 1 <= |s|
    requires forall j :: k <= j <= TailLen(s[0]) ==> Continues(s[0], j, s[j])
    ensures GoodTail(s, k) == TailLen(s[0]) + 1 - k
    decreases |s| - k
  {
    if k <= TailLen(s[0]) {
      GoodTailFull(s, k + 1);
    }
  }

  lemma Payload(x: nat, m: nat, q: nat)
    requires x < m && q * m + x < 256
    requires m == 0x08 || m == 0x10 || m == 0x20 || m == 0x40
    ensures Low(q * m + x, m) == x
  {
    var k := q * m + x;
    if m == 0x08 {
      assert k == q * 0x08 + x;
    } else if m == 0x10 {
      assert k == q * 0x10 + x;
    } else if m == 0x20 {
      assert k == q * 0x20 + x;
    } else {
      assert k == q * 0x40 + x;
    }
  }

  lemma EncodeShape(c: nat)
    requires IsScalar(c) && !IsAscii(c)
    ensures var e := Encode(c); TailLen(e[0]) == |e| - 1
    ensures var e := Encode(c); forall j :: 1 <= j < |e| ==> Continues(e[0], j, e[j])
    ensures var e := Encode(c); ScalarOf(e) == c
  {
    var a, b := c / 0x40, c % 0x40;
    Payload(b, 0x40, 2);
    if c < 0x800 {
      Payload(a, 0x20, 6);
    } else {
      var a', b' := a / 0x40, a % 0x40;
      Payload(b', 0x40, 2);
      if c < 0x1_0000 {
        EncodeShape3(c, a', b', b);
      } else {
        EncodeShape4(c, a' / 0x40, a' % 0x40, b', b);
      }
    }
  }

  lemma EncodeShape3(c: nat, x: nat, y: nat, z: nat)
    requires IsScalar(c) && 0x800 <= c < 0x1_0000
    requires x == c / 0x40 / 0x40 && y == c / 0x40 % 0x40 && z == c % 0x40
    ensures Encode(c) == [0xE0 + x, 0x80 + y, 0x80 + z]
    ensures TailLen(0xE0 + x) == 2 && Continues(0xE0 + x, 1, 0x80 + y) && Continues(0xE0 + x, 2, 0x80 + z)
    ensures ScalarOf(Encode(c)) == c
  {
    assert c / 0x40 == x * 0x40 + y;
    Payload(x, 0x10, 14);
    Payload(y, 0x40, 2);
    Payload(z, 0x40, 2);
  }

  lemma EncodeShape4(c: nat, w: nat, x: nat, y: nat, z: nat)
    requires IsScalar(c) && 0x1_0000 <= c
    requires w == c / 0x40 / 0x40 / 0x40 && x == c / 0x40 / 0x40 % 0x40 && y == c / 0x40 % 0x40 && z == c % 0x40
    ensures Encode(c) == [0xF0 + w, 0x80 + x, 0x80 + y, 0x80 + z]
    ensures TailLen(0xF0 + w) == 3 && Continues(0xF0 + w, 1, 0x80 + x)
    ensures Continues(0xF0 + w, 2, 0x80 + y) && Continues(0xF0 + w, 3, 0x80 + z)
    ensures ScalarOf(Encode(c)) == c
  {
    assert c / 0x40 == (w * 0x40 + x) * 0x40 + y;
    Payload(w, 0x08, 30);
    Payload(x, 0x40, 2);
    Payload(y, 0x40, 2);
    Payload(z, 0x40, 2);
  }

  lemma EncodeDecodeOne(c: nat, r: seq<byte>)
    requires IsScalar(c)
    ensures StepLen(Encode(c) + r) == |Encode(c)|
    ensures StepScalar(Encode(c) + r) == c
  {
    var e := Encode(c);
    var s := e + r;
    assert s[..|e|] == e && s[0] == e[0];
    if !IsAscii(c) {
      EncodeShape(c);
      forall j | 1 <= j <= TailLen(s[0]) ensures Continues(s[0], j, s[j]) {
        assert s[j] == e[j];
      }
      GoodTailFull(s, 1);
    }
  }

  /** Decoding is the left inverse of encoding. */
  lemma {:induction false} DecodeEncode(t: Text)
    requires IsText(t)
    ensures Decode(EncodeText(t)) == t
  {
    if t != [] {
      var e, r := Encode(t[0]), EncodeText(t[1..]);
      EncodeDecodeOne(t[0], r);
      assert (e + r)[|e|..] == r;
      DecodeEncode(t[1..]);
    }
  }

  lemma {:induction false} EncodeAppend(a: Text, b: Text)
    requires IsText(a) && IsText(b)
    ensures IsText(a + b) && EncodeText(a + b) == EncodeText(a) + EncodeText(b)
  {
    if a == [] {
      assert a + b == b;
    } else {
      HeadTail(a, b);
      EncodeAppend(a[1..], b);
      Assoc(Encode(a[0]), EncodeText(a[1..]), EncodeText(b));
    }
  }

  lemma {:induction false} EncodeAsciiText(p: Text, r: Text)
    requires IsText(p) && IsText(r) && AllAscii(p)
    ensures IsText(p + r) && EncodeText(p + r) == p + EncodeText(r)
  {
    if p == [] {
      assert p + r == r;
    } else {
      HeadTail(p, r);
      EncodeAsciiText(p[1..], r);
      HeadTail(p, EncodeText(r));
    }
  }

  /** Octets that are ASCII are the characters themselves. */
  lemma {:induction false} EncodeAsciiPrefix(t: Text, n: nat)
    requires IsText(t)
    requires n <= |EncodeText(t)| && AllAscii(EncodeText(t)[..n])
    ensures n <= |t| && EncodeText(t)[..n] == t[..n]
  {
    if n > 0 {
      var e, r := Encode(t[0]), EncodeText(t[1..]);
      var s := EncodeText(t);
      assert s == e + r;
      assert IsAscii(s[..n][0]) && s[0] == e[0];
      assert e == [t[0]];
      assert s[..n] == e + r[..n - 1];
      assert AllAscii(r[..n - 1]) by {
        forall i | 0 <= i < n - 1 ensures IsAscii(r[i]) { assert s[..n][i + 1] == r[i]; }
      }
      EncodeAsciiPrefix(t[1..], n - 1);
      assert t[..n] == [t[0]] + t[1..][..n - 1];
    }
  }
}
