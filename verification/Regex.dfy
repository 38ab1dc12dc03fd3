/** The Unicode tables the program consults, which ASCII fixes and the model leaves open above it. */
module Unicode {
  /** `\d` and `char::is_whitespace` on characters outside ASCII. */
  datatype Tables = Tables(digit: nat -> bool, space: nat -> bool)

  /** No character outside ASCII belongs to a class: how a byte comparison sees the world. */
  const ASCII_ONLY: Tables := Tables((c: nat) => false, (c: nat) => false)

  predicate AsciiDigit(c: nat) {
    '0' as nat <= c <= '9' as nat
  }

  predicate AsciiSpace(c: nat) {
    c == ' ' as nat || 0x09 <= c <= 0x0D
  }

  predicate IsDigit(u: Tables, c: nat) {
    if c < 0x80 then AsciiDigit(c) else u.digit(c)
  }

  predicate IsSpace(u: Tables, c: nat) {
    if c < 0x80 then AsciiSpace(c) else u.space(c)
  }
}

/**
 * Leftmost-first regular expression matching, as a backtracking engine
 * explores it: `Ends` lists every end position in order of preference.
 */
module Regex {
  import opened Common
  import opened Unicode

  datatype Class = Lit(c: nat) | Digit | Upper | Sign

  datatype Re = Empty | Atom(cls: Class) | Cat(fst: Re, snd: Re) | Alt(fst: Re, snd: Re)

  predicate In(u: Tables, cls: Class, c: nat) {
    match cls
    case Lit(d) => c == d
    case Digit => IsDigit(u, c)
    case Upper => 'A' as nat <= c <= 'Z' as nat
    case Sign => c == '+' as nat || c == '-' as nat
  }

  /** `re?` */
  function Opt(re: Re): Re {
    Alt(re, Empty)
  }

  /** `re{min,max}`, unrolled */
  function Repeat(re: Re, min: nat, max: nat): Re
    requires min <= max
    decreases max
  {
    if max == 0 then Empty
    else if min > 0 then Cat(re, Repeat(re, min - 1, max - 1))
    else Opt(Cat(re, Repeat(re, 0, max - 1)))
  }

  /** A fixed run of classes in front of `rest` */
  function Chain(cs: seq<Class>, rest: Re): Re {
    if cs == [] then rest else Cat(Atom(cs[0]), Chain(cs[1..], rest))
  }

  function Ends(u: Tables, re: Re, s: Text, i: nat): seq<nat>
    decreases re, 0, |s|
  {
    match re
    case Empty => [i]
    case Atom(cls) => if i < |s| && In(u, cls, s[i]) then [i + 1] else []
    case Cat(a, b) => EndsFromEach(u, b, s, Ends(u, a, s, i))
    case Alt(a, b) => Ends(u, a, s, i) + Ends(u, b, s, i)
  }

  function EndsFromEach(u: Tables, re: Re, s: Text, starts: seq<nat>): seq<nat>
    decreases re, 1 + |starts|, |s|
  {
    if starts == [] then [] else Ends(u, re, s, starts[0]) + EndsFromEach(u, re, s, starts[1..])
  }

  /** Where the match the engine reports ends. */
  function First(u: Tables, re: Re, s: Text, i: nat): Option<nat> {
    var js := Ends(u, re, s, i);
    if js == [] then None else Some(js[0])
  }

  ghost predicate InRange(js: seq<nat>, lo: nat, hi: nat) {
    forall k :: 0 <= k < |js| ==> lo <= js[k] <= hi
  }

  /** Matches stay within the text. */
  lemma {:induction false} EndsInRange(u: Tables, re: Re, s: Text, i: nat)
    requires i <= |s|
    ensures InRange(Ends(u, re, s, i), i, |s|)
    decreases re, 0
  {
    match re
    case Empty =>
    case Atom(cls) =>
    case Cat(a, b) =>
      EndsInRange(u, a, s, i);
      EndsFromEachInRange(u, b, s, i, Ends(u, a, s, i));
    case Alt(a, b) =>
      EndsInRange(u, a, s, i);
      EndsInRange(u, b, s, i);
  }

  lemma {:induction false} EndsFromEachInRange(u: Tables, re: Re, s: Text, i: nat, starts: seq<nat>)
    requires InRange(starts, i, |s|)
    ensures InRange(EndsFromEach(u, re, s, starts), i, |s|)
    decreases re, 1 + |starts|
  {
    if starts != [] {
      EndsInRange(u, re, s, starts[0]);
      EndsFromEachInRange(u, re, s, i, starts[1..]);
    }
  }

  lemma FirstInRange(u: Tables, re: Re, s: Text, i: nat)
    requires i <= |s|
    ensures First(u, re, s, i).Some? ==> i <= First(u, re, s, i).value <= |s|
  {
    EndsInRange(u, re, s, i);
  }

  /** Characters of `cls` from `i` on, at most `cap`. */
  function Run(u: Tables, cls: Class, s: Text, i: nat, cap: nat): (n: nat)
    ensures n <= cap && (i <= |s| ==> i + n <= |s|)
    decreases cap, |s|
  {
    if cap > 0 && i < |s| && In(u, cls, s[i]) then 1 + Run(u, cls, s, i + 1, cap - 1) else 0
  }

  /** The run is maximal, and only one length is. */
  lemma {:induction false} RunIsMaximal(u: Tables, cls: Class, s: Text, i: nat, cap: nat)
    requires i <= |s|
    ensures var n := Run(u, cls, s, i, cap);
            && i + n <= |s|
            && (forall k :: i <= k < i + n ==> In(u, cls, s[k]))
            && (n == cap || i + n == |s| || !In(u, cls, s[i + n]))
    decreases cap
  {
    if cap > 0 && i < |s| && In(u, cls, s[i]) {
      RunIsMaximal(u, cls, s, i + 1, cap - 1);
    }
  }

  lemma RunUnique(u: Tables, cls: Class, s: Text, i: nat, cap: nat, n: nat)
    requires n <= cap && i + n <= |s|
    requires forall k :: i <= k < i + n ==> In(u, cls, s[k])
    requires n == cap || i + n == |s| || !In(u, cls, s[i + n])
    ensures Run(u, cls, s, i, cap) == n
  {
    RunIsMaximal(u, cls, s, i, cap);
    var m := Run(u, cls, s, i, cap);
    assert m == cap || i + m == |s| || !In(u, cls, s[i + m]);
  }

  // ---- What the first alternative of a composite expression is ----

  lemma FirstAlt(u: Tables, a: Re, b: Re, s: Text, i: nat)
    ensures First(u, Alt(a, b), s, i) == if First(u, a, s, i).Some? then First(u, a, s, i) else First(u, b, s, i)
  {
    assert Ends(u, Alt(a, b), s, i) == Ends(u, a, s, i) + Ends(u, b, s, i);
  }

  lemma FirstOpt(u: Tables, re: Re, s: Text, i: nat)
    ensures First(u, Opt(re), s, i) == if First(u, re, s, i).Some? then First(u, re, s, i) else Some(i)
  {
    FirstAlt(u, re, Empty, s, i);
    assert Ends(u, Empty, s, i) == [i];
  }

  /** `c?re`: the engine tries with the character first. */
  lemma FirstOptAtomCat(u: Tables, cls: Class, re: Re, s: Text, i: nat)
    ensures var with := if i < |s| && In(u, cls, s[i]) then First(u, re, s, i + 1) else None;
            First(u, Cat(Opt(Atom(cls)), re), s, i) == if with.Some? then with else First(u, re, s, i)
  {
    var starts := Ends(u, Opt(Atom(cls)), s, i);
    assert starts == Ends(u, Atom(cls), s, i) + Ends(u, Empty, s, i);
    assert Ends(u, Empty, s, i) == [i];
    assert Ends(u, Cat(Opt(Atom(cls)), re), s, i) == EndsFromEach(u, re, s, starts);
    assert starts[|starts| - 1..] == [i];
    EndsFromOne(u, re, s, i);
    if |starts| == 2 {
      assert starts[1..] == [i] && starts[0] == i + 1;
    } else {
      assert starts == [i];
    }
  }

  lemma EndsFromOne(u: Tables, re: Re, s: Text, i: nat)
    ensures EndsFromEach(u, re, s, [i]) == Ends(u, re, s, i)
  {
    var one: seq<nat> := [i];
    assert one[1..] == [] && EndsFromEach(u, re, s, one[1..]) == [];
  }

  lemma EndsAtomCat(u: Tables, cls: Class, re: Re, s: Text, i: nat)
    ensures Ends(u, Cat(Atom(cls), re), s, i) ==
            if i < |s| && In(u, cls, s[i]) then Ends(u, re, s, i + 1) else []
  {
    var js := Ends(u, Atom(cls), s, i);
    if js != [] {
      assert js[1..] == [] && EndsFromEach(u, re, s, js[1..]) == [];
    }
  }

  lemma FirstAtomCat(u: Tables, cls: Class, re: Re, s: Text, i: nat)
    ensures First(u, Cat(Atom(cls), re), s, i) ==
            if i < |s| && In(u, cls, s[i]) then First(u, re, s, i + 1) else None
  {
    EndsAtomCat(u, cls, re, s, i);
  }

  /** An optional part that a first character guards. */
  lemma FirstGuarded(u: Tables, cls: Class, re: Re, s: Text, i: nat)
    ensures var inner := if i < |s| && In(u, cls, s[i]) then First(u, re, s, i + 1) else None;
            First(u, Opt(Cat(Atom(cls), re)), s, i) == if inner.Some? then inner else Some(i)
  {
    FirstOpt(u, Cat(Atom(cls), re), s, i);
    FirstAtomCat(u, cls, re, s, i);
  }

  /** If what follows always matches, the preferred end of the first part is final. */
  lemma FirstCat(u: Tables, a: Re, b: Re, s: Text, i: nat)
    requires First(u, a, s, i).Some? ==> First(u, b, s, First(u, a, s, i).value).Some?
    ensures First(u, Cat(a, b), s, i) ==
            if First(u, a, s, i).Some? then First(u, b, s, First(u, a, s, i).value) else None
  {
    var js := Ends(u, a, s, i);
    assert Ends(u, Cat(a, b), s, i) == EndsFromEach(u, b, s, js);
    if js != [] {
      assert EndsFromEach(u, b, s, js) == Ends(u, b, s, js[0]) + EndsFromEach(u, b, s, js[1..]);
    }
  }

  lemma FirstRepeatStep(u: Tables, cls: Class, min: nat, max: nat, s: Text, i: nat)
    requires 0 < max && min <= max
    ensures var min' := if min > 0 then min - 1 else 0;
            var some := i < |s| && In(u, cls, s[i]);
            var more := if some then First(u, Repeat(Atom(cls), min', max - 1), s, i + 1) else None;
            First(u, Repeat(Atom(cls), min, max), s, i) ==
            if more.Some? || min > 0 then more else Some(i)
  {
    var more := Repeat(Atom(cls), if min > 0 then min - 1 else 0, max - 1);
    FirstAtomCat(u, cls, more, s, i);
    FirstOpt(u, Cat(Atom(cls), more), s, i);
  }

  lemma {:induction false} FirstRepeat(u: Tables, cls: Class, min: nat, max: nat, s: Text, i: nat)
    requires min <= max
    ensures First(u, Repeat(Atom(cls), min, max), s, i) ==
            var n := Run(u, cls, s, i, max); if n >= min then Some(i + n) else None
    decreases max
  {
    if max > 0 {
      FirstRepeatStep(u, cls, min, max, s, i);
      if i < |s| && In(u, cls, s[i]) {
        FirstRepeat(u, cls, if min > 0 then min - 1 else 0, max - 1, s, i + 1);
      }
    }
  }

  /** An optional group whose second part is as good as a run of at least `min`. */
  lemma GuardedOutcome(u: Tables, guard: Class, re: Re, min: nat, n: nat, s: Text, i: nat)
    requires i < |s| && In(u, guard, s[i]) ==> First(u, re, s, i + 1) == if n >= min then Some(i + 1 + n) else None
    ensures First(u, Opt(Cat(Atom(guard), re)), s, i) ==
            Some(if i < |s| && In(u, guard, s[i]) && n >= min then i + 1 + n else i)
  {
    FirstGuarded(u, guard, re, s, i);
  }

  /** `(?:gc{min,max})?` */
  lemma FirstGuardedRun(u: Tables, guard: Class, cls: Class, min: nat, max: nat, s: Text, i: nat)
    requires min <= max
    ensures var guarded := i < |s| && In(u, guard, s[i]);
            var n := if guarded then Run(u, cls, s, i + 1, max) else 0;
            First(u, Opt(Cat(Atom(guard), Repeat(Atom(cls), min, max))), s, i) ==
            Some(if guarded && n >= min then i + 1 + n else i)
  {
    if i < |s| && In(u, guard, s[i]) {
      FirstRepeat(u, cls, min, max, s, i + 1);
    }
    GuardedOutcome(u, guard, Repeat(Atom(cls), min, max), min, Run(u, cls, s, i + 1, max), s, i);
  }

  /** Whether the characters from `i` on fall into `cs`, class by class. */
  predicate InOrder(u: Tables, cs: seq<Class>, s: Text, i: nat) {
    i + |cs| <= |s| && forall k :: 0 <= k < |cs| ==> In(u, cs[k], s[i + k])
  }

  lemma InOrderStep(u: Tables, cs: seq<Class>, s: Text, i: nat)
    requires cs != []
    ensures InOrder(u, cs, s, i) <==> i < |s| && In(u, cs[0], s[i]) && InOrder(u, cs[1..], s, i + 1)
  {
    if i < |s| && In(u, cs[0], s[i]) && InOrder(u, cs[1..], s, i + 1) {
      forall k | 0 <= k < |cs| ensures In(u, cs[k], s[i + k]) {
        if k > 0 { assert In(u, cs[1..][k - 1], s[i + 1 + (k - 1)]); }
      }
    }
    if InOrder(u, cs, s, i) {
      assert In(u, cs[0], s[i + 0]);
      forall k | 0 <= k < |cs[1..]| ensures In(u, cs[1..][k], s[i + 1 + k]) {
        assert In(u, cs[k + 1], s[i + (k + 1)]);
      }
    }
  }

  lemma {:induction false} FirstChain(u: Tables, cs: seq<Class>, rest: Re, s: Text, i: nat)
    requires i <= |s|
    ensures First(u, Chain(cs, rest), s, i) ==
            if InOrder(u, cs, s, i) then First(u, rest, s, i + |cs|) else None
  {
    if cs != [] {
      InOrderStep(u, cs, s, i);
      FirstAtomCat(u, cs[0], Chain(cs[1..], rest), s, i);
      if i < |s| && In(u, cs[0], s[i]) {
        FirstChain(u, cs[1..], rest, s, i + 1);
      }
    }
  }
}
