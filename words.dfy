/** 32-bit words as the driver uses them: only ever built from single bits
    and combined with OR, tested one bit at a time, and cleared under a
    mask. Such a word is represented exactly by the set of its bit
    positions that are 1: MASK(k) is {k}, `a | b` is a + b, `a & ~m` is
    a - m, `(w >> i) & 1` is whether i is in w, and 0 is {}. */
module Words {

  /** A bit position in a 32-bit word. */
  type Offset = k: int | 0 <= k < 32

  /** A 32-bit word, as the set of its 1-bits. */
  type Word = set<Offset>

  /** MASK(k) = 1 << k. */
  function Mask(k: Offset): Word {
    {k}
  }
}
