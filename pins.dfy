/** The board configuration: where each HUB75 signal sits in the one GPIO
    port, and the pin masks built from it. */
module Pins {
  import opened Words

  /** Bit offsets of the signals R1..B2, A..E, CLK, LAT and OE. */
  datatype PinConfig = PinConfig(
    r1: Offset, g1: Offset, b1: Offset, r2: Offset, g2: Offset, b2: Offset,
    a: Offset, b: Offset, c: Offset, d: Offset, e: Offset,
    clk: Offset, lat: Offset, oe: Offset)
  {
    function Offsets(): seq<Offset> {
      [r1, g1, b1, r2, g2, b2, a, b, c, d, e, clk, lat, oe]
    }
  }

  /** No two signals share a pin. */
  predicate WellFormed(p: PinConfig) {
    var s := p.Offsets();
    forall i, j :: 0 <= i < j < |s| ==> s[i] != s[j]
  }

  /** The Adafruit MatrixPortal M4 assignment (PORT group 1). */
  const MatrixPortalM4 := PinConfig(0, 1, 2, 3, 4, 5, 7, 8, 9, 15, 13, 6, 14, 12)

  lemma MatrixPortalM4WellFormed()
    ensures WellFormed(MatrixPortalM4)
  {
    var s := MatrixPortalM4.Offsets();
    assert s == [0, 1, 2, 3, 4, 5, 7, 8, 9, 15, 13, 6, 14, 12];
  }

  /** WellFormed spelled out pin by pin. */
  lemma PinsDistinct(p: PinConfig)
    requires WellFormed(p)
    ensures p.r1 != p.g1 && p.r1 != p.b1 && p.r1 != p.r2 && p.r1 != p.g2 && p.r1 != p.b2 &&
      p.r1 != p.a && p.r1 != p.b && p.r1 != p.c && p.r1 != p.d && p.r1 != p.e &&
      p.r1 != p.clk && p.r1 != p.lat && p.r1 != p.oe && p.g1 != p.b1 && p.g1 != p.r2 &&
      p.g1 != p.g2 && p.g1 != p.b2 && p.g1 != p.a && p.g1 != p.b && p.g1 != p.c &&
      p.g1 != p.d && p.g1 != p.e && p.g1 != p.clk && p.g1 != p.lat && p.g1 != p.oe &&
      p.b1 != p.r2 && p.b1 != p.g2 && p.b1 != p.b2 && p.b1 != p.a && p.b1 != p.b &&
      p.b1 != p.c && p.b1 != p.d && p.b1 != p.e && p.b1 != p.clk && p.b1 != p.lat &&
      p.b1 != p.oe && p.r2 != p.g2 && p.r2 != p.b2 && p.r2 != p.a && p.r2 != p.b &&
      p.r2 != p.c && p.r2 != p.d && p.r2 != p.e && p.r2 != p.clk && p.r2 != p.lat &&
      p.r2 != p.oe && p.g2 != p.b2 && p.g2 != p.a && p.g2 != p.b && p.g2 != p.c &&
      p.g2 != p.d && p.g2 != p.e && p.g2 != p.clk && p.g2 != p.lat && p.g2 != p.oe &&
      p.b2 != p.a && p.b2 != p.b && p.b2 != p.c && p.b2 != p.d && p.b2 != p.e &&
      p.b2 != p.clk && p.b2 != p.lat && p.b2 != p.oe && p.a != p.b && p.a != p.c &&
      p.a != p.d && p.a != p.e && p.a != p.clk && p.a != p.lat && p.a != p.oe && p.b != p.c &&
      p.b != p.d && p.b != p.e && p.b != p.clk && p.b != p.lat && p.b != p.oe && p.c != p.d &&
      p.c != p.e && p.c != p.clk && p.c != p.lat && p.c != p.oe && p.d != p.e &&
      p.d != p.clk && p.d != p.lat && p.d != p.oe && p.e != p.clk && p.e != p.lat &&
      p.e != p.oe && p.clk != p.lat && p.clk != p.oe && p.lat != p.oe
  {
    var s := p.Offsets();
    assert s[0] == p.r1;
    assert s[1] == p.g1;
    assert s[2] == p.b1;
    assert s[3] == p.r2;
    assert s[4] == p.g2;
    assert s[5] == p.b2;
    assert s[6] == p.a;
    assert s[7] == p.b;
    assert s[8] == p.c;
    assert s[9] == p.d;
    assert s[10] == p.e;
    assert s[11] == p.clk;
    assert s[12] == p.lat;
    assert s[13] == p.oe;
  }

  /** The colour pins, CLK and LAT are eight different pins. */
  lemma DataPinsDistinct(p: PinConfig)
    requires WellFormed(p)
    ensures p.r1 != p.g1 && p.r1 != p.b1 && p.r1 != p.r2 && p.r1 != p.g2 && p.r1 != p.b2 &&
      p.g1 != p.b1 && p.g1 != p.r2 && p.g1 != p.g2 && p.g1 != p.b2 &&
      p.b1 != p.r2 && p.b1 != p.g2 && p.b1 != p.b2 &&
      p.r2 != p.g2 && p.r2 != p.b2 && p.g2 != p.b2
    ensures p.clk != p.r1 && p.clk != p.g1 && p.clk != p.b1 && p.clk != p.r2 && p.clk != p.g2 && p.clk != p.b2
    ensures p.lat != p.r1 && p.lat != p.g1 && p.lat != p.b1 && p.lat != p.r2 && p.lat != p.g2 && p.lat != p.b2
    ensures p.lat != p.clk
  {
    PinsDistinct(p);
  }

  /** The address pins, CLK, LAT and OE are eight different pins. */
  lemma ControlPinsDistinct(p: PinConfig)
    requires WellFormed(p)
    ensures p.a != p.b && p.a != p.c && p.a != p.d && p.a != p.e &&
      p.b != p.c && p.b != p.d && p.b != p.e && p.c != p.d && p.c != p.e && p.d != p.e
    ensures p.lat != p.a && p.lat != p.b && p.lat != p.c && p.lat != p.d && p.lat != p.e
    ensures p.oe != p.a && p.oe != p.b && p.oe != p.c && p.oe != p.d && p.oe != p.e
    ensures p.clk != p.a && p.clk != p.b && p.clk != p.c && p.clk != p.d && p.clk != p.e
    ensures p.clk != p.lat && p.clk != p.oe && p.lat != p.oe
  {
    PinsDistinct(p);
  }

  /** _MD_RGB_MASK: the six colour-data pins. */
  function RgbMask(p: PinConfig): Word {
    Mask(p.r1) + Mask(p.g1) + Mask(p.b1) + Mask(p.r2) + Mask(p.g2) + Mask(p.b2)
  }

  /** _MD_ADR_MASK: the five row-address pins. */
  function AdrMask(p: PinConfig): Word {
    Mask(p.a) + Mask(p.b) + Mask(p.c) + Mask(p.d) + Mask(p.e)
  }

  lemma RgbMaskPins(p: PinConfig, k: Offset)
    ensures k in RgbMask(p) <==> k == p.r1 || k == p.g1 || k == p.b1 || k == p.r2 || k == p.g2 || k == p.b2
  {
  }

  lemma AdrMaskPins(p: PinConfig, k: Offset)
    ensures k in AdrMask(p) <==> k == p.a || k == p.b || k == p.c || k == p.d || k == p.e
  {
  }
}
