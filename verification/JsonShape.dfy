/** Texts with balanced brackets, and where the bracket count finds their end. */
module JsonShape {
  import opened Common
  import opened EntryState

  const QUOTE: nat := '"' as nat
  const BACKSLASH: nat := '\\' as nat

  /** A character of a string literal, as it is written. */
  datatype Char = Verbatim(c: nat) | Escaped(c: nat)

  /** What stands between two brackets, as far as brackets and strings go: every JSON text is spelt this way. */
  datatype Doc =
    | End
    | Plain(c: nat, rest: Doc)
    | Quoted(chars: seq<Char>, rest: Doc)
    | Nested(square: bool, inner: Doc, rest: Doc)

  predicate IsBracket(c: nat) {
    c == '[' as nat || c == ']' as nat || c == '{' as nat || c == '}' as nat
  }

  predicate WellFormed(d: Doc) {
    match d
    case End => true
    case Plain(c, rest) => c != QUOTE && !IsBracket(c) && WellFormed(rest)
    case Quoted(chars, rest) =>
      (forall i :: 0 <= i < |chars| && chars[i].Verbatim? ==> chars[i].c != QUOTE && chars[i].c != BACKSLASH)
      && WellFormed(rest)
    case Nested(_, inner, rest) => WellFormed(inner) && WellFormed(rest)
  }

  function SpellChars(chars: seq<Char>): Text {
    if chars == [] then []
    else (match chars[0] case Verbatim(c) => [c] case Escaped(c) => [BACKSLASH, c]) + SpellChars(chars[1..])
  }

  function Opening(square: bool): nat {
    if square then '[' as nat else '{' as nat
  }

  function Closing(square: bool): nat {
    if square then ']' as nat else '}' as nat
  }

  function Spell(d: Doc): Text {
    match d
    case End => []
    case Plain(c, rest) => [c] + Spell(rest)
    case Quoted(chars, rest) => [QUOTE] + (SpellChars(chars) + ([QUOTE] + Spell(rest)))
    case Nested(square, inner, rest) => ([Opening(square)] + (Spell(inner) + [Closing(square)])) + Spell(rest)
  }

  /** An object or an array. */
  function Bracketed(square: bool, inner: Doc): Text {
    [Opening(square)] + (Spell(inner) + [Closing(square)])
  }

  // ---- Scanning ----

  lemma {:induction false} ScanAppend(s: JsonScan, a: Text, b: Text)
    ensures ScanLine(s, a + b) == ScanLine(ScanLine(s, a), b)
    decreases |a|
  {
    if a == [] {
      assert a + b == b;
    } else {
      HeadTail(a, b);
      ScanAppend(ScanChar(s, a[0]), a[1..], b);
    }
  }

  lemma ScanOne(s: JsonScan, c: nat)
    ensures ScanLine(s, [c]) == ScanChar(s, c)
  {
    assert [c][1..] == [];
  }

  /** Inside a document: outside strings, at some depth. */
  predicate Between(s: JsonScan) {
    s.started && !s.inString && !s.escapeNext
  }

  /** Everywhere in `t` the count stays at `depth` or above. */
  ghost predicate StaysAbove(s: JsonScan, t: Text, depth: int) {
    forall k :: 0 <= k <= |t| ==> ScanLine(s, t[..k]).depth >= depth && ScanLine(s, t[..k]).started
  }

  lemma StaysAboveAppend(s: JsonScan, a: Text, b: Text, depth: int)
    requires StaysAbove(s, a, depth) && StaysAbove(ScanLine(s, a), b, depth)
    ensures StaysAbove(s, a + b, depth)
  {
    forall k | 0 <= k <= |a + b|
      ensures ScanLine(s, (a + b)[..k]).depth >= depth && ScanLine(s, (a + b)[..k]).started
    {
      if k <= |a| {
        assert (a + b)[..k] == a[..k];
      } else {
        assert (a + b)[..k] == a + b[..k - |a|];
        ScanAppend(s, a, b[..k - |a|]);
      }
    }
  }

  lemma StaysAboveOne(s: JsonScan, c: nat, depth: int)
    requires s.started && s.depth >= depth && ScanChar(s, c).depth >= depth
    ensures StaysAbove(s, [c], depth)
  {
    forall k | 0 <= k <= 1 ensures ScanLine(s, [c][..k]).depth >= depth && ScanLine(s, [c][..k]).started {
      if k == 0 {
        assert [c][..0] == [];
      } else {
        assert [c][..1] == [c];
        ScanOne(s, c);
      }
    }
  }

  lemma StaysAboveNone(s: JsonScan, t: Text, depth: int)
    requires t == [] && s.started && s.depth >= depth
    ensures StaysAbove(s, t, depth) && ScanLine(s, t) == s
  {
    forall k | 0 <= k <= |t| ensures ScanLine(s, t[..k]).depth >= depth && ScanLine(s, t[..k]).started {
      assert t[..k] == [];
    }
  }

  /** One character, then the rest. */
  lemma StaysAboveCons(s: JsonScan, c: nat, t: Text, depth: int)
    requires s.started && s.depth >= depth && StaysAbove(ScanChar(s, c), t, depth) && ScanChar(s, c).depth >= depth
    ensures StaysAbove(s, [c] + t, depth) && ScanLine(s, [c] + t) == ScanLine(ScanChar(s, c), t)
  {
    StaysAboveOne(s, c, depth);
    ScanOne(s, c);
    StaysAboveAppend(s, [c], t, depth);
    ScanAppend(s, [c], t);
  }

  lemma {:induction false} CharsStay(s: JsonScan, chars: seq<Char>)
    requires s.started && s.inString && !s.escapeNext
    requires forall i :: 0 <= i < |chars| && chars[i].Verbatim? ==> chars[i].c != QUOTE && chars[i].c != BACKSLASH
    ensures StaysAbove(s, SpellChars(chars), s.depth) && ScanLine(s, SpellChars(chars)) == s
    decreases |chars|
  {
    if chars == [] {
      StaysAboveNone(s, SpellChars(chars), s.depth);
    } else {
      var rest := SpellChars(chars[1..]);
      CharsStay(s, chars[1..]);
      match chars[0]
      case Verbatim(c) => StaysAboveCons(s, c, rest, s.depth);
      case Escaped(c) =>
        StaysAboveCons(s.(escapeNext := true), c, rest, s.depth);
        StaysAboveCons(s, BACKSLASH, [c] + rest, s.depth);
        assert [BACKSLASH, c] + rest == [BACKSLASH] + ([c] + rest);
    }
  }

  lemma QuotedStays(s: JsonScan, chars: seq<Char>, rest: Text)
    requires Between(s) && StaysAbove(s, rest, s.depth) && ScanLine(s, rest) == s
    requires forall i :: 0 <= i < |chars| && chars[i].Verbatim? ==> chars[i].c != QUOTE && chars[i].c != BACKSLASH
    ensures var t := [QUOTE] + (SpellChars(chars) + ([QUOTE] + rest));
            StaysAbove(s, t, s.depth) && ScanLine(s, t) == s
  {
    var inside := s.(inString := true);
    CharsStay(inside, chars);
    StaysAboveCons(inside, QUOTE, rest, s.depth);
    StaysAboveAppend(inside, SpellChars(chars), [QUOTE] + rest, s.depth);
    ScanAppend(inside, SpellChars(chars), [QUOTE] + rest);
    StaysAboveCons(s, QUOTE, SpellChars(chars) + ([QUOTE] + rest), s.depth);
  }

  /** What a bracket holds, and its partner. */
  lemma ClosingStays(s: JsonScan, deep: JsonScan, close: nat, inner: Text)
    requires s.started && deep.started && ScanChar(deep, close) == s && deep.depth == s.depth + 1
    requires StaysAbove(deep, inner, deep.depth) && ScanLine(deep, inner) == deep
    ensures StaysAbove(deep, inner + [close], s.depth) && ScanLine(deep, inner + [close]) == s
  {
    assert StaysAbove(deep, inner, s.depth);
    StaysAboveOne(deep, close, s.depth);
    ScanOne(deep, close);
    StaysAboveAppend(deep, inner, [close], s.depth);
    ScanAppend(deep, inner, [close]);
  }

  lemma BracketedStays(s: JsonScan, square: bool, inner: Text)
    requires Between(s)
    requires var deep := s.(depth := s.depth + 1); StaysAbove(deep, inner, deep.depth) && ScanLine(deep, inner) == deep
    ensures var t := [Opening(square)] + (inner + [Closing(square)]);
            StaysAbove(s, t, s.depth) && ScanLine(s, t) == s
  {
    var deep := s.(depth := s.depth + 1);
    ClosingStays(s, deep, Closing(square), inner);
    StaysAboveCons(s, Opening(square), inner + [Closing(square)], s.depth);
  }

  /** A balanced text leaves the count where it was, and never goes below. */
  lemma {:induction false} DocStays(s: JsonScan, d: Doc)
    requires Between(s) && WellFormed(d)
    ensures StaysAbove(s, Spell(d), s.depth) && ScanLine(s, Spell(d)) == s
    decreases d
  {
    match d
    case End => StaysAboveNone(s, Spell(d), s.depth);
    case Plain(c, rest) =>
      DocStays(s, rest);
      StaysAboveCons(s, c, Spell(rest), s.depth);
    case Quoted(chars, rest) =>
      DocStays(s, rest);
      QuotedStays(s, chars, Spell(rest));
    case Nested(square, inner, rest) =>
      DocStays(s.(depth := s.depth + 1), inner);
      BracketedStays(s, square, Spell(inner));
      DocStays(s, rest);
      StaysAboveAppend(s, Bracketed(square, inner), Spell(rest), s.depth);
      ScanAppend(s, Bracketed(square, inner), Spell(rest));
  }

  /** An object or array is found closed at its last bracket and nowhere before. */
  lemma ClosesAtLastBracket(square: bool, inner: Doc, k: nat)
    requires WellFormed(inner) && k <= |Bracketed(square, inner)|
    ensures Closed(ScanLine(JSON_START, Bracketed(square, inner)[..k])) <==> k == |Bracketed(square, inner)|
  {
    var deep := JsonScan(1, false, false, true);
    var body := Spell(inner);
    var open, close: Text := [Opening(square)], [Closing(square)];
    var t := Bracketed(square, inner);
    DocStays(deep, inner);
    ScanOne(JSON_START, Opening(square));
    if k == 0 {
      assert t[..0] == [];
    } else if k == |t| {
      assert t[..k] == open + (body + close);
      ScanAppend(JSON_START, open, body + close);
      ScanAppend(deep, body, close);
      ScanOne(deep, Closing(square));
    } else {
      assert t[..k] == open + body[..k - 1];
      ScanAppend(JSON_START, open, body[..k - 1]);
    }
  }
}
