/** Bitwise exclusive or on unsigned numbers, defined bit by bit on their
    binary digits, with the algebra the checksum needs. */
module Bits {

  import Arith

  /** 2 to the power `k`. */
  function Pow2(k: nat): (p: nat)
    ensures p > 0
  {
    if k == 0 then 1 else 2 * Pow2(k - 1)
  }

  /** The low `k` bits of `a XOR b`. */
  function XorBits(a: nat, b: nat, k: nat): (r: nat)
    ensures r < Pow2(k)
  {
    if k == 0 then 0
    else XorBits(a / 2, b / 2, k - 1) * 2 + (if a % 2 == b % 2 then 0 else 1)
  }

  /** The lowest bit of a XOR, and the XOR of the remaining bits. */
  lemma XorBitsSplit(a: nat, b: nat, k: nat)
    requires k > 0
    ensures XorBits(a, b, k) / 2 == XorBits(a / 2, b / 2, k - 1)
    ensures XorBits(a, b, k) % 2 == (if a % 2 == b % 2 then 0 else 1)
  {
  }

  lemma {:induction false} XorBitsComm(a: nat, b: nat, k: nat)
    ensures XorBits(a, b, k) == XorBits(b, a, k)
  {
    if k > 0 {
      XorBitsComm(a / 2, b / 2, k - 1);
    }
  }

  lemma {:induction false} XorBitsAssoc(a: nat, b: nat, c: nat, k: nat)
    ensures XorBits(XorBits(a, b, k), c, k) == XorBits(a, XorBits(b, c, k), k)
  {
    if k > 0 {
      XorBitsSplit(a, b, k);
      XorBitsSplit(b, c, k);
      XorBitsAssoc(a / 2, b / 2, c / 2, k - 1);
    }
  }

  lemma {:induction false} XorBitsSelf(a: nat, k: nat)
    ensures XorBits(a, a, k) == 0
  {
    if k > 0 {
      XorBitsSelf(a / 2, k - 1);
    }
  }

  /** XOR with zero keeps the low `k` bits. */
  lemma {:induction false} XorBitsZero(a: nat, k: nat)
    ensures XorBits(a, 0, k) == a % Pow2(k)
  {
    if k > 0 {
      XorBitsZero(a / 2, k - 1);
      Arith.DivMod(a, 2, Pow2(k - 1));
    }
  }

  /** XOR with all ones complements the low `k` bits. */
  lemma {:induction false} XorBitsOnes(a: nat, k: nat)
    requires a < Pow2(k)
    ensures XorBits(a, Pow2(k) - 1, k) == Pow2(k) - 1 - a
  {
    if k > 0 {
      XorBitsOnes(a / 2, k - 1);
    }
  }
}
