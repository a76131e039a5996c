/** Bitwise OR and left shift on naturals, and the fact the font score
    relies on: OR of values occupying disjoint bit ranges is their sum. */
module Bits {

  function Pow2(k: nat): (r: nat)
    ensures r >= 1
  {
    if k == 0 then 1 else 2 * Pow2(k - 1)
  }

  /** `a << k`. */
  function Shl(a: nat, k: nat): nat
  {
    if k == 0 then a else 2 * Shl(a, k - 1)
  }

  /** `a | b` for non-negative operands, bit by bit from the lowest. */
  function BitOr(a: nat, b: nat): nat
  {
    if a == 0 then b
    else if b == 0 then a
    else 2 * BitOr(a / 2, b / 2) + (if a % 2 == 1 || b % 2 == 1 then 1 else 0)
  }

  lemma {:induction false} BitOrComm(a: nat, b: nat)
    ensures BitOr(a, b) == BitOr(b, a)
    decreases a
  {
    if a != 0 && b != 0 {
      BitOrComm(a / 2, b / 2);
    }
  }

  /** OR of a value below 2^k with a value shifted left by k is their
      sum: the two occupy disjoint bits. */
  lemma {:induction false} BitOrDisjoint(a: nat, c: nat, k: nat)
    requires a < Pow2(k)
    ensures BitOr(a, Shl(c, k)) == a + Shl(c, k)
    decreases k
  {
    if a == 0 || Shl(c, k) == 0 {
    } else {
      assert k >= 1;
      assert Shl(c, k) / 2 == Shl(c, k - 1);
      BitOrDisjoint(a / 2, c, k - 1);
    }
  }

  /** A value below 2^s plus a field of width `w` placed at bit `s` stays
      below 2^(s + w). */
  lemma {:induction false} FieldBound(a: nat, v: nat, s: nat, w: nat)
    requires a < Pow2(s) && v < Pow2(w)
    ensures a + Shl(v, s) < Pow2(s + w)
    decreases s
  {
    if s > 0 {
      FieldBound(a / 2, v, s - 1, w);
      assert Pow2(s + w) == 2 * Pow2(s - 1 + w);
    }
  }
}
