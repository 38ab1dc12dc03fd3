/** Vectors of byte lanes, the masks comparisons give, and masks packed into an integer. */
module Lanes {
  import opened Common

  type Mask = seq<bool>

  const BLOCK: nat := 16

  // ---- Lane by lane ----

  function Splat(b: byte): seq<byte> {
    seq(BLOCK, i => b)
  }

  /** Subtraction wraps around. */
  function WrapSub(a: byte, b: byte): byte {
    (a + 256 - b) % 256
  }

  function Sub(v: seq<byte>, w: seq<byte>): seq<byte>
    requires |v| == |w|
  {
    seq(|v|, i requires 0 <= i < |v| => WrapSub(v[i], w[i]))
  }

  function Le(v: seq<byte>, bound: byte): Mask {
    seq(|v|, i requires 0 <= i < |v| => v[i] <= bound)
  }

  function Ge(v: seq<nat>, bound: nat): Mask {
    seq(|v|, i requires 0 <= i < |v| => v[i] >= bound)
  }

  function Eq(v: seq<byte>, w: seq<byte>): Mask
    requires |v| == |w|
  {
    seq(|v|, i requires 0 <= i < |v| => v[i] == w[i])
  }

  function Both(m: Mask, n: Mask): Mask
    requires |m| == |n|
  {
    seq(|m|, i requires 0 <= i < |m| => m[i] && n[i])
  }

  function Either(m: Mask, n: Mask): Mask
    requires |m| == |n|
  {
    seq(|m|, i requires 0 <= i < |m| => m[i] || n[i])
  }

  function Not(m: Mask): Mask {
    seq(|m|, i requires 0 <= i < |m| => !m[i])
  }

  function Select<T>(m: Mask, yes: seq<T>, no: seq<T>): seq<T>
    requires |m| == |yes| == |no|
  {
    seq(|m|, i requires 0 <= i < |m| => if m[i] then yes[i] else no[i])
  }

  predicate AllTrue(m: Mask) {
    forall i :: 0 <= i < |m| ==> m[i]
  }

  predicate AnyTrue(m: Mask) {
    exists i :: 0 <= i < |m| && m[i]
  }

  // ---- Bits ----

  /** Bitwise and, or. */
  function And(a: nat, b: nat): nat {
    if a == 0 || b == 0 then 0 else a % 2 * (b % 2) + 2 * And(a / 2, b / 2)
  }

  function Or(a: nat, b: nat): nat {
    if a == 0 then b else (if a % 2 == 1 || b % 2 == 1 then 1 else 0) + 2 * Or(a / 2, b / 2)
  }

  function OrLanes(v: seq<byte>, w: seq<byte>): seq<nat>
    requires |v| == |w|
  {
    seq(|v|, i requires 0 <= i < |v| => Or(v[i], w[i]))
  }

  function Pow2(n: nat): (p: nat)
    ensures p > 0
  {
    if n == 0 then 1 else 2 * Pow2(n - 1)
  }

  /** The top bit of a bitwise or. */
  lemma {:induction false} OrTopBit(a: nat, b: nat, n: nat)
    requires a < Pow2(n + 1) && b < Pow2(n + 1)
    ensures Or(a, b) < Pow2(n + 1)
    ensures Or(a, b) >= Pow2(n) <==> a >= Pow2(n) || b >= Pow2(n)
  {
    if n > 0 && a > 0 {
      OrTopBit(a / 2, b / 2, n - 1);
    }
  }

  lemma BitSquare(b: nat)
    requires b < 2
    ensures b * b == b
  {}

  lemma {:induction false} AndSelf(a: nat)
    ensures And(a, a) == a
  {
    if a > 0 {
      AndSelf(a / 2);
      BitSquare(a % 2);
    }
  }

  // ---- Masks as integers, lane 0 lowest ----

  function Bitmask(m: Mask): nat {
    if m == [] then 0 else (if m[0] then 1 else 0) + 2 * Bitmask(m[1..])
  }

  function TrailingZeros(x: nat): nat
    requires x > 0
  {
    if x % 2 == 1 then 0 else 1 + TrailingZeros(x / 2)
  }

  /** The lowest lane that is set. */
  function LowestSet(m: Mask): (k: nat)
    ensures k <= |m|
  {
    if m == [] || m[0] then 0 else 1 + LowestSet(m[1..])
  }

  lemma {:induction false} LowestSetIsLowest(m: Mask)
    ensures var k := LowestSet(m);
            && (forall i :: 0 <= i < k ==> !m[i])
            && (k < |m| ==> m[k])
  {
    if m != [] && !m[0] {
      LowestSetIsLowest(m[1..]);
      var k := LowestSet(m);
      forall i | 0 <= i < k ensures !m[i] {
        assert i > 0 ==> m[i] == m[1..][i - 1];
      }
    }
  }

  /** A mask is empty when its integer is zero; otherwise the trailing zeros find its lowest lane. */
  lemma {:induction false} LowestLane(m: Mask)
    ensures Bitmask(m) == 0 <==> LowestSet(m) == |m|
    ensures Bitmask(m) > 0 ==> TrailingZeros(Bitmask(m)) == LowestSet(m)
  {
    if m != [] {
      LowestLane(m[1..]);
    }
  }

  /** `x & (x - 1)` clears the lowest lane and no other. */
  lemma {:induction false} ClearLowest(m: Mask)
    requires Bitmask(m) > 0
    ensures LowestSet(m) < |m|
    ensures And(Bitmask(m), Bitmask(m) - 1) == Bitmask(m[LowestSet(m) := false])
  {
    LowestLane(m);
    var x, rest := Bitmask(m), Bitmask(m[1..]);
    var cleared := m[LowestSet(m) := false];
    if m[0] {
      assert cleared[1..] == m[1..];
      AndSelf(rest);
      assert And(x, x - 1) == 2 * rest;
    } else {
      ClearLowest(m[1..]);
      assert cleared[1..] == m[1..][LowestSet(m[1..]) := false];
      assert x == 2 * rest && (x - 1) / 2 == rest - 1;
    }
  }

  /** Complementing the integer complements the lanes. */
  lemma {:induction false} ComplementLanes(m: Mask)
    ensures Bitmask(m) < Pow2(|m|)
    ensures Bitmask(Not(m)) == Pow2(|m|) - 1 - Bitmask(m)
  {
    if m != [] {
      ComplementLanes(m[1..]);
      assert Not(m)[1..] == Not(m[1..]);
    }
  }

  // ---- The first lane that is false, two ways ----

  /** The mask's bits complemented, within its width, then trailing zeros. */
  function FirstFalseByBits(m: Mask): Option<nat> {
    ComplementLanes(m);
    var falseLanes := Pow2(|m|) - 1 - Bitmask(m);
    if falseLanes != 0 then Some(TrailingZeros(falseLanes)) else None
  }

  function Lowest(s: seq<nat>): (m: nat)
    requires s != []
  {
    if |s| == 1 then s[0] else Min(s[0], Lowest(s[1..]))
  }

  lemma {:induction false} LowestIsLeast(s: seq<nat>)
    requires s != []
    ensures Lowest(s) in s
    ensures forall i :: 0 <= i < |s| ==> Lowest(s) <= s[i]
  {
    if |s| > 1 {
      LowestIsLeast(s[1..]);
      forall i | 0 <= i < |s| ensures Lowest(s) <= s[i] {
        assert i > 0 ==> s[i] == s[1..][i - 1];
      }
    }
  }

  /** The least of the lane indices, with true lanes out of the way. */
  function FirstFalseByMinimum(m: Mask): Option<nat>
    requires |m| == BLOCK
  {
    var lanes := seq(BLOCK, i => i);
    var past := seq(BLOCK, i => BLOCK);
    var lane := Lowest(Select(m, past, lanes));
    if lane < BLOCK then Some(lane) else None
  }

  /** The lane `first_false_lane` should find. */
  ghost predicate IsFirstFalse(m: Mask, r: Option<nat>) {
    match r
    case None => AllTrue(m)
    case Some(k) => k < |m| && !m[k] && forall i :: 0 <= i < k ==> m[i]
  }

  /** Both instruction sequences find the first false lane. */
  lemma FirstFalseEitherWay(m: Mask)
    requires |m| == BLOCK
    ensures IsFirstFalse(m, FirstFalseByBits(m))
    ensures FirstFalseByMinimum(m) == FirstFalseByBits(m)
  {
    FirstFalseBits(m);
    MinimumFindsIt(m, FirstFalseByBits(m));
  }

  lemma FirstFalseBits(m: Mask)
    ensures IsFirstFalse(m, FirstFalseByBits(m))
  {
    var n := Not(m);
    ComplementLanes(m);
    LowestLane(n);
    LowestSetIsLowest(n);
    forall i | 0 <= i < LowestSet(n) ensures m[i] {
      assert !n[i];
    }
  }

  lemma MinimumFindsIt(m: Mask, r: Option<nat>)
    requires |m| == BLOCK && IsFirstFalse(m, r)
    ensures FirstFalseByMinimum(m) == r
  {
    var lanes := seq(BLOCK, i => i);
    var past := seq(BLOCK, i => BLOCK);
    var s: seq<nat> := Select(m, past, lanes);
    LowestIsLeast(s);
    if r.Some? {
      assert s[r.value] == r.value;
      assert forall i :: 0 <= i < |s| ==> s[i] >= r.value;
    } else {
      assert forall i :: 0 <= i < |s| ==> s[i] == BLOCK;
    }
  }
}
