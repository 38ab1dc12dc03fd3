/** What lossy decoding replaces: maximal pieces, one character each. */
module Utf8Pieces {
  import opened Common
  import opened Utf8

  /** Some character's encoding begins with these octets. */
  ghost predicate Begins(p: seq<byte>) {
    exists c: nat :: IsScalar(c) && p <= Encode(c)
  }

  /** Some character's encoding stands at the front. */
  ghost predicate Leads(s: seq<byte>) {
    exists c: nat :: IsScalar(c) && Encode(c) <= s
  }

  /** A lead octet and all the continuations it announces. */
  predicate Complete(e: seq<byte>) {
    e != [] && |e| == 1 + TailLen(e[0]) && TailLen(e[0]) > 0 && forall j :: 1 <= j < |e| ==> Continues(e[0], j, e[j])
  }

  lemma Digits64(a: nat, b: nat)
    requires b < 0x40
    ensures (a * 0x40 + b) / 0x40 == a && (a * 0x40 + b) % 0x40 == b
  {}

  /** The payload of an octet above a lead or continuation mark. */
  lemma LowOf(b: byte, m: nat, q: nat)
    requires q * m <= b < q * m + m && (m == 0x08 || m == 0x10 || m == 0x20 || m == 0x40)
    ensures Low(b, m) == b - q * m
  {
    Payload(b - q * m, m, q);
  }

  /** Such octets are the encoding of the character they spell. */
  lemma CompleteIsEncoding(e: seq<byte>)
    requires Complete(e)
    ensures IsScalar(ScalarOf(e)) && Encode(ScalarOf(e)) == e
  {
    assert Continues(e[0], 1, e[1]);
    LowOf(e[1], 0x40, 2);
    if |e| == 2 {
      LowOf(e[0], 0x20, 6);
      Digits64(e[0] - 0xC0, e[1] - 0x80);
    } else {
      assert Continues(e[0], 2, e[2]);
      LowOf(e[2], 0x40, 2);
      if |e| == 3 {
        LowOf(e[0], 0x10, 14);
        ThreeOctets(e, e[0] - 0xE0, e[1] - 0x80, e[2] - 0x80);
      } else {
        assert Continues(e[0], 3, e[3]);
        LowOf(e[3], 0x40, 2);
        LowOf(e[0], 0x08, 30);
        FourOctets(e, e[0] - 0xF0, e[1] - 0x80, e[2] - 0x80, e[3] - 0x80);
      }
    }
  }

  lemma ThreeOctets(e: seq<byte>, x: nat, y: nat, z: nat)
    requires e == [0xE0 + x, 0x80 + y, 0x80 + z] && x < 0x10 && y < 0x40 && z < 0x40
    requires (x == 0 ==> y >= 0x20) && (x == 13 ==> y < 0x20)
    ensures var c := (x * 0x40 + y) * 0x40 + z; IsScalar(c) && Encode(c) == e
  {
    var c := (x * 0x40 + y) * 0x40 + z;
    Digits64(x * 0x40 + y, z);
    Digits64(x, y);
    assert 0x800 <= c < 0x1_0000;
  }

  lemma FourOctets(e: seq<byte>, w: nat, x: nat, y: nat, z: nat)
    requires e == [0xF0 + w, 0x80 + x, 0x80 + y, 0x80 + z] && w <= 4 && x < 0x40 && y < 0x40 && z < 0x40
    requires (w == 0 ==> x >= 0x10) && (w == 4 ==> x < 0x10)
    ensures var c := ((w * 0x40 + x) * 0x40 + y) * 0x40 + z; IsScalar(c) && Encode(c) == e
  {
    var c := ((w * 0x40 + x) * 0x40 + y) * 0x40 + z;
    Digits64((w * 0x40 + x) * 0x40 + y, z);
    Digits64(w * 0x40 + x, y);
    Digits64(w, x);
    assert 0x1_0000 <= c < 0x11_0000;
  }

  /** Where the continuations stop, and that they are continuations up to there. */
  lemma {:induction false} TailStops(s: seq<byte>, k: nat)
    requires 1 <= k <= |s|
    ensures var n := k + GoodTail(s, k);
            && (forall j :: k <= j < n ==> j <= TailLen(s[0]) && Continues(s[0], j, s[j]))
            && (n > TailLen(s[0]) || n >= |s| || !Continues(s[0], n, s[n]))
    decreases |s| - k
  {
    if k <= TailLen(s[0]) && k < |s| && Continues(s[0], k, s[k]) {
      TailStops(s, k + 1);
    }
  }

  /** The decoder takes a whole character. */
  predicate TakesWhole(s: seq<byte>)
    requires s != []
  {
    StepLen(s) == 1 + TailLen(s[0]) && (TailLen(s[0]) > 0 || IsAscii(s[0]))
  }

  lemma WholeLeads(s: seq<byte>)
    requires s != [] && TakesWhole(s)
    ensures IsScalar(StepScalar(s)) && Encode(StepScalar(s)) == s[..StepLen(s)]
  {
    TailStops(s, 1);
    var e := s[..StepLen(s)];
    if TailLen(s[0]) > 0 {
      assert e[0] == s[0];
      CompleteIsEncoding(e);
    }
  }

  lemma LeadsIsTaken(s: seq<byte>, c: nat)
    requires s != [] && IsScalar(c) && Encode(c) <= s
    ensures TakesWhole(s) && StepScalar(s) == c && StepLen(s) == |Encode(c)|
  {
    var e := Encode(c);
    assert s == e + s[|e|..];
    EncodeDecodeOne(c, s[|e|..]);
    if !IsAscii(c) {
      EncodeShape(c);
      assert s[0] == e[0];
    }
  }

  /** A piece that is no character goes on as long as it might have become one. */
  lemma PieceGoesOn(s: seq<byte>)
    requires s != [] && !TakesWhole(s) && StepLen(s) > 1
    ensures Begins(s[..StepLen(s)])
  {
    var n, len := StepLen(s), 1 + TailLen(s[0]);
    TailStops(s, 1);
    var e := s[..n] + seq(len - n, i => 0x80);
    forall j | 1 <= j < |e| ensures Continues(e[0], j, e[j]) {
      assert j < n ==> e[j] == s[j];
      assert j >= n ==> j != 1 && e[j] == 0x80;
    }
    CompleteIsEncoding(e);
    assert s[..n] <= Encode(ScalarOf(e));
  }

  /** And no longer. */
  lemma PieceStops(s: seq<byte>)
    requires s != [] && !TakesWhole(s) && StepLen(s) < |s|
    ensures !Begins(s[..StepLen(s) + 1])
  {
    var n := StepLen(s);
    TailStops(s, 1);
    forall c: nat | IsScalar(c) && s[..n + 1] <= Encode(c) ensures false {
      var e := Encode(c);
      assert |e| > n >= 1 && e[0] == s[0] && e[n] == s[n];
      EncodeShape(c);
    }
  }

  /**
   * At each step the decoder takes the character that stands at the front. If
   * there is none, one U+FFFD stands for the longest piece that begins one, or
   * for a single octet.
   */
  lemma PiecesAreMaximal(s: seq<byte>)
    requires s != []
    ensures Leads(s) ==> IsScalar(StepScalar(s)) && Encode(StepScalar(s)) == s[..StepLen(s)]
    ensures !Leads(s) ==>
              && StepScalar(s) == 0xFFFD
              && (StepLen(s) > 1 ==> Begins(s[..StepLen(s)]))
              && (StepLen(s) < |s| ==> !Begins(s[..StepLen(s) + 1]))
  {
    if TakesWhole(s) {
      WholeLeads(s);
      assert Encode(StepScalar(s)) <= s;
    } else {
      if Leads(s) {
        var c: nat :| IsScalar(c) && Encode(c) <= s;
        LeadsIsTaken(s, c);
      }
      if StepLen(s) > 1 {
        PieceGoesOn(s);
      }
      if StepLen(s) < |s| {
        PieceStops(s);
      }
    }
  }
}
