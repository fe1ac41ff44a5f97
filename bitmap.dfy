/** Where set_pixel puts a pixel: the column-to-word mapping, the per-plane
    bit it ORs in, and the plane words a whole bitmap produces. */
module Bitmap {
  import opened Bits
  import opened Words
  import opened Quantizer

  const PanelWidth: nat := 64
  const PanelHeight: nat := 32
  /** Bytes of a 64 x 32 RGB bitmap: 64 * 32 * 3. */
  const BitmapSize: nat := 6144

  /** The word half and bit offset that hold column x. */
  datatype Slot = Slot(half: nat, offset: nat)

  /** Columns 0..31 sit in half 0 at their own offset, columns 32..63 in
      half 1 at offset x - 32. */
  function ColumnSlot(x: nat): (s: Slot)
    requires x < PanelWidth
    ensures s.half < 2 && s.offset < 32
    ensures 32 * s.half + s.offset == x
  {
    if x > 31 then Slot(1, x - 32) else Slot(0, x)
  }

  /** The mapping is a bijection between columns and (half, offset) pairs:
      the slot of column 32 * h + o is (h, o). */
  lemma ColumnSlotInverse(h: nat, o: nat)
    requires h < 2 && o < 32
    ensures ColumnSlot(32 * h + o) == Slot(h, o)
  {
  }

  /** The slot of a column is (x / 32, x % 32); so x = 31 lands in half 0 at
      offset 31 and x = 32 in half 1 at offset 0. */
  lemma ColumnSlotDivMod(x: nat)
    requires x < PanelWidth
    ensures ColumnSlot(x) == Slot(x / 32, x % 32)
    ensures ColumnSlot(31) == Slot(0, 31) && ColumnSlot(32) == Slot(1, 0)
  {
  }

  /** (b % 2) << s for a 0/1 value b. */
  function BitAt(b: nat, s: Offset): Word
    requires b < 2
  {
    if b == 1 then Mask(s) else {}
  }

  /** What round z of set_pixel ORs in for level q at offset s: bit z of q,
      moved to bit s. */
  function PlaneMask(q: nat, z: nat, s: Offset): Word {
    BitAt(Bit(q, z), s)
  }

  /** Index of the red byte of pixel (x, y): (y * 64 + x) * 3. */
  function PixelIndex(x: nat, y: nat): (i: nat)
    requires x < PanelWidth && y < PanelHeight
    ensures i + 2 < BitmapSize
  {
    (y * PanelWidth + x) * 3
  }

  /** Different pixels, or different colours of one pixel, read different
      bytes. */
  lemma PixelIndexInjective(x1: nat, y1: nat, c1: nat, x2: nat, y2: nat, c2: nat)
    requires x1 < PanelWidth && y1 < PanelHeight && c1 < 3
    requires x2 < PanelWidth && y2 < PanelHeight && c2 < 3
    ensures PixelIndex(x1, y1) + c1 == PixelIndex(x2, y2) + c2 <==> x1 == x2 && y1 == y2 && c1 == c2
  {
  }

  /** A 64 x 32 bitmap of 8-bit channels, row by row, pixel by pixel, R G B. */
  predicate IsBitmap(bmp: seq<int>) {
    |bmp| == BitmapSize && forall i :: 0 <= i < |bmp| ==> IsChannel(bmp[i])
  }

  /** The quantized level of colour c at (x, y). */
  function LevelAt(bmp: seq<int>, x: nat, y: nat, c: nat): nat
    requires IsBitmap(bmp) && x < PanelWidth && y < PanelHeight && c < 3
  {
    ConvertBitdepth(bmp[PixelIndex(x, y) + c])
  }

  /** Word [z][y][c][h] once columns 0..n-1 of half h have been drawn into a
      cleared buffer. */
  function PartialWord(bmp: seq<int>, z: nat, y: nat, c: nat, h: nat, n: nat): Word
    requires IsBitmap(bmp) && y < PanelHeight && c < 3 && h < 2 && n <= 32
  {
    if n == 0 then {}
    else PartialWord(bmp, z, y, c, h, n - 1) + PlaneMask(LevelAt(bmp, 32 * h + n - 1, y, c), z, n - 1)
  }

  /** Word [z][y][c][h] of a fully drawn bitmap. */
  function FrameWord(bmp: seq<int>, z: nat, y: nat, c: nat, h: nat): Word
    requires IsBitmap(bmp) && y < PanelHeight && c < 3 && h < 2
  {
    PartialWord(bmp, z, y, c, h, 32)
  }

  /** Bit k of a partly drawn word is bit z of the level of column 32h + k if
      that column is drawn, and 0 otherwise. */
  lemma {:induction false} PartialWordBits(bmp: seq<int>, z: nat, y: nat, c: nat, h: nat, n: nat, k: Offset)
    requires IsBitmap(bmp) && y < PanelHeight && c < 3 && h < 2 && n <= 32
    ensures k in PartialWord(bmp, z, y, c, h, n) <==> k < n && Bit(LevelAt(bmp, 32 * h + k, y, c), z) == 1
  {
    if n > 0 {
      PartialWordBits(bmp, z, y, c, h, n - 1, k);
    }
  }

  /** In a drawn frame, bit x % 32 of word [z][y][c][x / 32] is bit z of the
      quantized level of colour c at (x, y). */
  lemma FrameWordBits(bmp: seq<int>, x: nat, y: nat, c: nat, z: nat)
    requires IsBitmap(bmp) && x < PanelWidth && y < PanelHeight && c < 3
    ensures x % 32 in FrameWord(bmp, z, y, c, x / 32) <==> Bit(LevelAt(bmp, x, y, c), z) == 1
  {
    PartialWordBits(bmp, z, y, c, x / 32, 32, x % 32);
    assert 32 * (x / 32) + x % 32 == x;
  }

  /** An all-black bitmap draws an all-zero frame. */
  lemma BlackFrame(bmp: seq<int>, z: nat, y: nat, c: nat, h: nat)
    requires IsBitmap(bmp) && forall i :: 0 <= i < |bmp| ==> bmp[i] == 0
    requires y < PanelHeight && c < 3 && h < 2
    ensures FrameWord(bmp, z, y, c, h) == {}
  {
    forall k: Offset
      ensures k !in FrameWord(bmp, z, y, c, h)
    {
      PartialWordBits(bmp, z, y, c, h, 32, k);
      EndpointPlanes(z);
      assert bmp[PixelIndex(32 * h + k, y) + c] == 0;
    }
  }

  /** How many columns of half h are drawn once columns 0..j-1 of a row are. */
  function Filled(j: nat, h: nat): (n: nat)
    ensures n <= 32
  {
    if j <= 32 * h then 0 else if j >= 32 * h + 32 then 32 else j - 32 * h
  }

  /** Word [z][y][c][h] of a cleared buffer after draw_bitmap has drawn rows
      0..i-1 and columns 0..j-1 of row i. */
  function Drawn(bmp: seq<int>, i: nat, j: nat, z: nat, y: nat, c: nat, h: nat): Word
    requires IsBitmap(bmp) && y < PanelHeight && c < 3 && h < 2
  {
    if y < i then FrameWord(bmp, z, y, c, h)
    else if y == i then PartialWord(bmp, z, y, c, h, Filled(j, h))
    else {}
  }

  /** Nothing is drawn before the first pixel. */
  lemma NothingDrawn(bmp: seq<int>, z: nat, y: nat, c: nat, h: nat)
    requires IsBitmap(bmp) && y < PanelHeight && c < 3 && h < 2
    ensures Drawn(bmp, 0, 0, z, y, c, h) == {}
  {
  }

  /** Drawing pixel (j, i) ORs bit z of its level into bit j % 32 of word
      [z][i][c][j / 32], and changes no other word. */
  lemma DrawnStep(bmp: seq<int>, i: nat, j: nat, z: nat, y: nat, c: nat, h: nat)
    requires IsBitmap(bmp) && i < PanelHeight && j < PanelWidth
    requires y < PanelHeight && c < 3 && h < 2
    ensures Drawn(bmp, i, j + 1, z, y, c, h) ==
      if y == i && h == j / 32 then Drawn(bmp, i, j, z, y, c, h) + PlaneMask(LevelAt(bmp, j, i, c), z, j % 32)
      else Drawn(bmp, i, j, z, y, c, h)
  {
    if y == i && h == j / 32 {
      assert Filled(j, h) == j % 32 && Filled(j + 1, h) == j % 32 + 1;
      assert 32 * h + j % 32 == j;
    } else if y == i {
      assert Filled(j + 1, h) == Filled(j, h);
    }
  }

  /** A finished row reads as the start of the next one. */
  lemma RowFinished(bmp: seq<int>, i: nat, z: nat, y: nat, c: nat, h: nat)
    requires IsBitmap(bmp) && y < PanelHeight && c < 3 && h < 2
    ensures Drawn(bmp, i, PanelWidth, z, y, c, h) == Drawn(bmp, i + 1, 0, z, y, c, h)
  {
  }

  /** Once every row is drawn, each word is the frame's word. */
  lemma AllRowsFinished(bmp: seq<int>, z: nat, y: nat, c: nat, h: nat)
    requires IsBitmap(bmp) && y < PanelHeight && c < 3 && h < 2
    ensures Drawn(bmp, PanelHeight, 0, z, y, c, h) == FrameWord(bmp, z, y, c, h)
  {
  }

  /** Which planes of the drawn frame hold a 1 for colour c at (x, y). */
  function FrameBits(bmp: seq<int>, x: nat, y: nat, c: nat): nat -> bool
    requires IsBitmap(bmp) && x < PanelWidth && y < PanelHeight && c < 3
  {
    (z: nat) => x % 32 in FrameWord(bmp, z, y, c, x / 32)
  }

  /** The frame's BitDepth planes hold exactly the bit-plane decomposition
      of the quantized bitmap: weighting plane z by 2^z and summing gives
      back each pixel's level. */
  lemma FrameDecomposes(bmp: seq<int>, x: nat, y: nat, c: nat)
    requires IsBitmap(bmp) && x < PanelWidth && y < PanelHeight && c < 3
    ensures Weight(FrameBits(bmp, x, y, c), BitDepth) == LevelAt(bmp, x, y, c)
  {
    var q := LevelAt(bmp, x, y, c);
    forall z: nat | z < BitDepth
      ensures FrameBits(bmp, x, y, c)(z) <==> Bit(q, z) == 1
    {
      FrameWordBits(bmp, x, y, c, z);
    }
    WeightAgrees(FrameBits(bmp, x, y, c), (z: nat) => Bit(q, z) == 1, BitDepth);
    WeightOfBits(q, BitDepth);
    ConvertDecomposes(bmp[PixelIndex(x, y) + c]);
  }
}
