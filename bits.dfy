/** Binary digits of natural numbers: the bit planes of a quantized level
    and the address bits of a row. */
module Bits {

  function Pow2(n: nat): (p: nat)
    ensures p >= 1
  {
    if n == 0 then 1 else 2 * Pow2(n - 1)
  }

  /** Bit z of q: q shifted right z times, modulo 2. */
  function Bit(q: nat, z: nat): (b: nat)
    ensures b < 2
  {
    if z == 0 then q % 2 else Bit(q / 2, z - 1)
  }

  /** q shifted right z times, one halving per step (what a loop doing
      `r >>= 1` on a non-negative int leaves after z rounds). */
  function Shifted(q: nat, z: nat): nat {
    if z == 0 then q else Shifted(q, z - 1) / 2
  }

  /** The loop's running value yields the bits in order: its low bit after
      z rounds is bit z. */
  lemma {:induction false} ShiftedBit(q: nat, z: nat)
    ensures Bit(q, z) == Shifted(q, z) % 2
    ensures Shifted(q, z + 1) == Shifted(q / 2, z)
  {
    if z > 0 {
      ShiftedBit(q, z - 1);
      ShiftedBit(q / 2, z - 1);
    }
  }

  /** Sum of Bit(q, z) * 2^z over z < n, lowest bit first. */
  function Recompose(q: nat, n: nat): nat {
    if n == 0 then 0 else Recompose(q, n - 1) + Bit(q, n - 1) * Pow2(n - 1)
  }

  lemma {:induction false} RecomposeStep(q: nat, n: nat)
    ensures Recompose(q, n + 1) == q % 2 + 2 * Recompose(q / 2, n)
  {
    if n > 0 {
      RecomposeStep(q, n - 1);
      var b := Bit(q / 2, n - 1);
      assert Bit(q, n) == b;
      assert 2 * (b * Pow2(n - 1)) == b * Pow2(n);
    }
  }

  /** The n low bits of a number below 2^n hold the whole number. */
  lemma {:induction false} RecomposeBits(q: nat, n: nat)
    requires q < Pow2(n)
    ensures Recompose(q, n) == q
  {
    if n > 0 {
      RecomposeStep(q, n - 1);
      RecomposeBits(q / 2, n - 1);
    }
  }

  /** Bits at or above n of a number below 2^n are 0. */
  lemma {:induction false} HighBitsZero(q: nat, n: nat, z: nat)
    requires q < Pow2(n) && n <= z
    ensures Bit(q, z) == 0
  {
    if z > 0 {
      if n == 0 {
        assert q == 0;
        HighBitsZero(0, 0, z - 1);
      } else {
        HighBitsZero(q / 2, n - 1, z - 1);
      }
    }
  }

  /** Five bits written out: the value of a 5-bit number from its bits. */
  lemma FiveBits(q: nat)
    requires q < 32
    ensures q == Bit(q, 0) + 2 * Bit(q, 1) + 4 * Bit(q, 2) + 8 * Bit(q, 3) + 16 * Bit(q, 4)
  {
    assert Pow2(5) == 32;
    RecomposeBits(q, 5);
    assert Recompose(q, 1) == Bit(q, 0);
    assert Recompose(q, 2) == Recompose(q, 1) + 2 * Bit(q, 1);
    assert Recompose(q, 3) == Recompose(q, 2) + 4 * Bit(q, 2);
    assert Recompose(q, 4) == Recompose(q, 3) + 8 * Bit(q, 3);
    assert Recompose(q, 5) == Recompose(q, 4) + 16 * Bit(q, 4);
  }

  /** Sum of 2^z over the z < n that lit marks. */
  function Weight(lit: nat -> bool, n: nat): nat {
    if n == 0 then 0 else Weight(lit, n - 1) + (if lit(n - 1) then Pow2(n - 1) else 0)
  }

  /** Marking the 1-bits of q gives the sum of q's low n bits. */
  lemma {:induction false} WeightOfBits(q: nat, n: nat)
    ensures Weight((z: nat) => Bit(q, z) == 1, n) == Recompose(q, n)
  {
    if n > 0 {
      WeightOfBits(q, n - 1);
    }
  }

  /** Weight depends only on the marks below n. */
  lemma {:induction false} WeightAgrees(lit1: nat -> bool, lit2: nat -> bool, n: nat)
    requires forall z: nat :: z < n ==> (lit1(z) <==> lit2(z))
    ensures Weight(lit1, n) == Weight(lit2, n)
  {
    if n > 0 {
      WeightAgrees(lit1, lit2, n - 1);
    }
  }
}
