/** Pixel quantizer: gamma-corrected reduction of an 8-bit channel to
    BitDepth bits, and the bit-plane decomposition of the reduced level. */
module Quantizer {
  import opened Bits

  /** _MD_BITDEPTH: number of bit planes. */
  const BitDepth: nat := 5
  /** _MD_GAMMA: gamma exponent of the correction curve. */
  const Gamma: nat := 2
  /** Largest quantized level, 2^BitDepth - 1. */
  const MaxLevel: nat := 31

  /** An 8-bit colour channel value. */
  predicate IsChannel(v: int) {
    0 <= v <= 255
  }

  /** convert_bitdepth for gamma 2 and 5 bits, in integer arithmetic:
      first floor(255 * (v/255)^2), then floor(that * 31 / 255). */
  function ConvertBitdepth(v: int): (r: int)
    requires IsChannel(v)
    ensures 0 <= r <= MaxLevel
    ensures v == 0 ==> r == 0
    ensures v == 255 ==> r == MaxLevel
  {
    MulMonotone(v, 255);
    DivMonotone(v * v, 255 * 255, 255);
    var corrected := (v * v) / 255;
    DivMonotone(corrected * MaxLevel, 255 * MaxLevel, 255);
    corrected * MaxLevel / 255
  }

  /** The C++ expression evaluated in exact real arithmetic:
      (int)((int)(pow(v / 255.0, 2) * 255) * (pow(2, 5) - 1) / 255). */
  function RealFormula(v: int): int {
    var x := v as real / 255.0;
    var corrected := (RealPow(x, Gamma) * 255.0).Floor;
    (corrected as real * (Pow2(BitDepth) - 1) as real / 255.0).Floor
  }

  /** pow(x, n) for a whole exponent n. */
  function RealPow(x: real, n: nat): real {
    if n == 0 then 1.0 else x * RealPow(x, n - 1)
  }

  /** With gamma 2 the correction is a square. */
  lemma RealSquare(x: real)
    ensures RealPow(x, Gamma) == x * x
  {
    assert RealPow(x, 1) == x * RealPow(x, 0);
  }

  lemma FloorOfQuotient(n: int, d: int)
    requires n >= 0 && d > 0
    ensures (n as real / d as real).Floor == n / d
  {
    var q, m := n / d, n % d;
    assert n == q * d + m && 0 <= m < d;
    assert n as real / d as real == q as real + m as real / d as real;
    assert 0.0 <= m as real / d as real < 1.0;
  }

  /** The integer form agrees with the exact-real evaluation of the source's
      floating-point expression on every channel value. */
  lemma ConvertMatchesRealFormula(v: int)
    requires IsChannel(v)
    ensures ConvertBitdepth(v) == RealFormula(v)
  {
    var x := v as real / 255.0;
    SquareOverRange(v);
    FloorOfQuotient(v * v, 255);
    var c := (v * v) / 255;
    RealSquare(x);
    assert (RealPow(x, Gamma) * 255.0).Floor == c;
    assert Pow2(BitDepth) - 1 == 31;
    assert c as real * 31.0 == (c * 31) as real;
    FloorOfQuotient(c * 31, 255);
  }

  lemma SquareOverRange(v: int)
    ensures (v as real / 255.0) * (v as real / 255.0) * 255.0 == (v * v) as real / 255.0
  {
    var vr := v as real;
    var x := vr / 255.0;
    assert vr == x * 255.0;
    assert vr * vr == (v * v) as real;
    calc {
      (v * v) as real / 255.0;
      vr * vr / 255.0;
      (x * 255.0) * (x * 255.0) / 255.0;
      x * x * 255.0;
    }
  }

  lemma MulMonotone(a: int, b: int)
    requires 0 <= a <= b
    ensures a * a <= b * b
  {
    assert a * a <= a * b;
    assert a * b <= b * b;
  }

  lemma MulLe(x: int, y: int, d: int)
    requires x <= y && d >= 0
    ensures x * d <= y * d
  {
    assert y * d - x * d == (y - x) * d;
  }

  lemma DivMonotone(a: int, b: int, d: int)
    requires 0 <= a <= b && d > 0
    ensures a / d <= b / d
  {
    var q1, q2 := a / d, b / d;
    assert a == q1 * d + a % d && b == q2 * d + b % d;
    if q2 < q1 {
      MulLe(q2 + 1, q1, d);
    }
  }

  /** The gamma stage keeps the order of its inputs. */
  lemma CorrectedMonotone(v1: int, v2: int)
    requires 0 <= v1 <= v2
    ensures v1 * v1 / 255 <= v2 * v2 / 255
  {
    MulMonotone(v1, v2);
    DivMonotone(v1 * v1, v2 * v2, 255);
  }

  /** The rescaling stage keeps the order of its inputs. */
  lemma RescaledMonotone(c1: int, c2: int)
    requires 0 <= c1 <= c2
    ensures c1 * MaxLevel / 255 <= c2 * MaxLevel / 255
  {
    MulLe(c1, c2, MaxLevel);
    DivMonotone(c1 * MaxLevel, c2 * MaxLevel, 255);
  }

  /** Brighter input never gives a darker level. */
  lemma ConvertMonotone(v1: int, v2: int)
    requires IsChannel(v1) && IsChannel(v2) && v1 <= v2
    ensures ConvertBitdepth(v1) <= ConvertBitdepth(v2)
  {
    CorrectedMonotone(v1, v2);
    RescaledMonotone(v1 * v1 / 255, v2 * v2 / 255);
  }

  /** Every quantized level is the weighted sum of its BitDepth planes, and
      has nothing in the planes above, so storing BitDepth planes loses
      nothing. */
  lemma ConvertDecomposes(v: int)
    requires IsChannel(v)
    ensures Recompose(ConvertBitdepth(v), BitDepth) == ConvertBitdepth(v)
    ensures forall z: nat :: BitDepth <= z ==> Bit(ConvertBitdepth(v), z) == 0
  {
    var q := ConvertBitdepth(v);
    assert Pow2(BitDepth) == 32;
    RecomposeBits(q, BitDepth);
    forall z: nat | BitDepth <= z ensures Bit(q, z) == 0 {
      HighBitsZero(q, BitDepth, z);
    }
  }

  /** Full brightness lights every plane; zero lights none. */
  lemma EndpointPlanes(z: nat)
    ensures Bit(ConvertBitdepth(0), z) == 0
    ensures z < BitDepth ==> Bit(ConvertBitdepth(255), z) == 1
  {
    HighBitsZero(0, 0, z);
    if z < BitDepth {
      assert Bit(31, 0) == 1 && Bit(31, 1) == 1 && Bit(31, 2) == 1 && Bit(31, 3) == 1 && Bit(31, 4) == 1;
    }
  }
}
