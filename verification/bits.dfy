/** Bitwise operations on unsigned machine integers, bit by bit. */
module Bits {
  type byte = x: nat | x < 256

  const TWO_TO_THE_32: nat := 0x1_0000_0000

  function And(a: nat, b: nat): nat {
    if a == 0 || b == 0 then 0
    else (if a % 2 == 1 && b % 2 == 1 then 1 else 0) + 2 * And(a / 2, b / 2)
  }

  function Or(a: nat, b: nat): nat
    decreases a + b
  {
    if a == 0 && b == 0 then 0
    else (if a % 2 == 1 || b % 2 == 1 then 1 else 0) + 2 * Or(a / 2, b / 2)
  }

  function Pow2(k: nat): (p: nat)
    ensures p > 0
  {
    if k == 0 then 1 else 2 * Pow2(k - 1)
  }

  function Shifted(a: nat, k: nat): nat {
    if k == 0 then a else 2 * Shifted(a, k - 1)
  }

  /** A 32-bit left shift: bits pushed past the top are lost. */
  function Shl32(a: nat, k: nat): nat {
    Shifted(a, k) % TWO_TO_THE_32
  }

  lemma {:induction false} OrZero(b: nat)
    ensures Or(0, b) == b
  {
    if b > 0 {
      OrZero(b / 2);
    }
  }

  /** Or-ing above the bits in use is addition. */
  lemma {:induction false} OrDisjoint(a: nat, b: nat, k: nat)
    requires a < Pow2(k)
    ensures Or(a, Shifted(b, k)) == a + Shifted(b, k)
  {
    if k == 0 {
      OrZero(b);
    } else {
      OrDisjoint(a / 2, b, k - 1);
    }
  }

  /** The low `k` bits, and the rest. */
  function Low(a: nat, k: nat): (l: nat)
    ensures l < Pow2(k)
  {
    if k == 0 then 0 else a % 2 + 2 * Low(a / 2, k - 1)
  }

  function High(a: nat, k: nat): nat {
    if k == 0 then a else High(a / 2, k - 1)
  }

  lemma {:induction false} SplitAt(a: nat, k: nat)
    ensures a == Low(a, k) + Shifted(High(a, k), k)
  {
    if k > 0 {
      SplitAt(a / 2, k - 1);
    }
  }

  lemma AndOdd(a: nat, b: nat)
    ensures And(a, 2 * b + 1) == a % 2 + 2 * And(a / 2, b)
  {}

  lemma {:induction false} AndMask(a: nat, k: nat)
    ensures And(a, Pow2(k) - 1) == Low(a, k)
  {
    if k > 0 {
      AndMask(a / 2, k - 1);
      AndOdd(a, Pow2(k - 1) - 1);
    }
  }

  lemma AndEven(a: nat, b: nat)
    ensures And(a, 2 * b) == 2 * And(a / 2, b)
  {}

  lemma {:induction false} AndBit(a: nat, k: nat)
    ensures And(a, Pow2(k)) == 0 <==> High(a, k) % 2 == 0
  {
    if k == 0 {
      AndOdd(a, 0);
    } else {
      AndBit(a / 2, k - 1);
      AndEven(a, Pow2(k - 1));
    }
  }

  lemma ShiftedBy7(d: nat, k: nat)
    ensures Shifted(d, k + 7) == 128 * Shifted(d, k)
  {
    assert Shifted(d, k + 2) == 4 * Shifted(d, k);
    assert Shifted(d, k + 4) == 4 * Shifted(d, k + 2);
    assert Shifted(d, k + 6) == 4 * Shifted(d, k + 4);
  }

  lemma Pow2By7(k: nat)
    ensures Pow2(k + 7) == 128 * Pow2(k)
  {
    assert Pow2(k + 2) == 4 * Pow2(k);
    assert Pow2(k + 4) == 4 * Pow2(k + 2);
    assert Pow2(k + 6) == 4 * Pow2(k + 4);
  }

  lemma Split128(b: nat)
    ensures b == Low(b, 7) + 128 * High(b, 7) && Low(b, 7) < 128 == Pow2(7)
  {
    Pow2By7(0);
    ShiftedBy7(High(b, 7), 0);
    SplitAt(b, 7);
  }

  lemma Halves(b: byte, low: nat, high: nat)
    requires b == low + 128 * high && low < 128
    ensures low == b % 128 && (high % 2 == 0 <==> b < 128)
  {}

  /** Masking with 0x7f keeps the low seven bits, masking with 0x80 the top one. */
  lemma ByteMasks(b: byte)
    ensures And(b, 0x7f) == b % 128
    ensures And(b, 0x80) == 0 <==> b < 128
  {
    var low, high := Low(b, 7), High(b, 7);
    Split128(b);
    Halves(b, low, high);
    assert And(b, 0x7f) == low by {
      AndMask(b, 7);
    }
    assert And(b, 0x80) == 0 <==> high % 2 == 0 by {
      AndBit(b, 7);
    }
  }
}
