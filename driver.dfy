/** The MatrixDriver object: a display buffer and a write buffer of bit
    planes, the port the panel hangs off, and the operations that fill,
    swap and refresh them. */
module Driver {
  import opened Bits
  import opened Words
  import opened Quantizer
  import opened Pins
  import opened Port
  import opened RowShifter
  import opened Schedule
  import opened Bitmap

  /** Colour c of an (r, g, b) triple. */
  function Channel<T>(r: T, g: T, b: T, c: nat): T {
    if c == 0 then r else if c == 1 then g else b
  }

  /** A plane buffer of the source's shape [plane][row][colour][half]. */
  predicate Shaped(a: array4<Word>) {
    a.Length0 == BitDepth && a.Length1 == PanelHeight && a.Length2 == 3 && a.Length3 == 2
  }

  predicate IsZero(a: array4<Word>)
    requires Shaped(a)
    reads a
  {
    forall z, y, c, h :: 0 <= z < BitDepth && 0 <= y < PanelHeight && 0 <= c < 3 && 0 <= h < 2 ==>
      a[z, y, c, h] == {}
  }

  /** A buffer's contents as a value: the six words of each (plane, row),
      [plane][row]. */
  type Image = seq<seq<RowWords>>

  /** The six words of row y of plane z, as clock_row reads them through a
      row reference. */
  function RowAt(a: array4<Word>, z: nat, y: nat): RowWords
    requires Shaped(a) && z < BitDepth && y < PanelHeight
    reads a
  {
    RowWords(Halves(a[z, y, 0, 0], a[z, y, 0, 1]), Halves(a[z, y, 1, 0], a[z, y, 1, 1]),
             Halves(a[z, y, 2, 0], a[z, y, 2, 1]))
  }

  /** The contents of buffer a. */
  function Contents(a: array4<Word>): (img: Image)
    requires Shaped(a)
    reads a
    ensures |img| == BitDepth && forall z :: 0 <= z < BitDepth ==> |img[z]| == PanelHeight
    ensures forall z, y :: 0 <= z < BitDepth && 0 <= y < PanelHeight ==> img[z][y] == RowAt(a, z, y)
  {
    seq(BitDepth, (z: int) requires 0 <= z < BitDepth reads a =>
      seq(PanelHeight, (y: int) requires 0 <= y < PanelHeight reads a => RowAt(a, z, y)))
  }

  /** Row y of plane z of an image (all zero outside it). */
  function ImageRow(img: Image, z: nat, y: nat): RowWords {
    if z < |img| && y < |img[z]| then img[z][y] else RowWords(Halves({}, {}), Halves({}, {}), Halves({}, {}))
  }

  /** The port writes of one strobe over img: clock_row(address, rows top
      and bottom of the strobe's plane). */
  function StrobeRow(p: PinConfig, img: Image, s: Strobe): seq<PortWrite> {
    RowWrites(p, s.address, ImageRow(img, s.plane, s.top), ImageRow(img, s.plane, s.bottom))
  }

  function RowsOf(p: PinConfig, img: Image): Strobe -> seq<PortWrite> {
    s => StrobeRow(p, img, s)
  }

  /** The port writes of a run of strobes over img. */
  function StrobeWrites(p: PinConfig, img: Image, sched: seq<Strobe>): seq<PortWrite> {
    Concat(RowsOf(p, img), sched)
  }

  /** The strobe of row j of plane z writes clock_row's output for rows j
      and j + 16 of that plane. */
  lemma StrobeRowAt(p: PinConfig, a: array4<Word>, img: Image, z: nat, j: nat)
    requires Shaped(a) && img == Contents(a) && z < BitDepth && j < Rows
    ensures RowsOf(p, img)(Strobe(z, j, j, j + Rows)) == RowWrites(p, j, RowAt(a, z, j), RowAt(a, z, j + Rows))
  {
    assert ImageRow(img, z, j) == RowAt(a, z, j);
    assert ImageRow(img, z, j + Rows) == RowAt(a, z, j + Rows);
  }

  /** How many of the columns 0..j-1 refresh the display (j % 4 == 0). */
  function Refreshes(j: nat): nat {
    (j + 3) / 4
  }

  /** Column j extends the refreshes of columns 0..j-1 by one frame exactly
      when j is a multiple of 4. */
  lemma RefreshStep<T>(start: seq<T>, before: seq<T>, after: seq<T>, frame: seq<T>, j: nat)
    requires before == start + Repeat(frame, Refreshes(j))
    requires after == before + if j % 4 == 0 then frame else []
    ensures after == start + Repeat(frame, Refreshes(j + 1))
  {
    if j % 4 == 0 {
      assert Refreshes(j + 1) == Refreshes(j) + 1;
      RepeatSnoc(frame, Refreshes(j));
      AppendAssoc(start, Repeat(frame, Refreshes(j)), frame);
    } else {
      assert Refreshes(j + 1) == Refreshes(j);
      assert after == before;
    }
  }

  /** Row i adds its 16 frames to the 16 * i of the rows before it. */
  lemma RowsStep<T>(start: seq<T>, mid: seq<T>, end: seq<T>, frame: seq<T>, i: nat)
    requires mid == start + Repeat(frame, 16 * i)
    requires end == mid + Repeat(frame, 16)
    ensures end == start + Repeat(frame, 16 * (i + 1))
  {
    RepeatGrow(start, mid, end, frame, 16 * i, 16);
    assert 16 * i + 16 == 16 * (i + 1);
  }

  /** Buffer a holds, word by word, a cleared buffer with rows 0..i-1 and
      columns 0..j-1 of row i of bmp drawn. */
  predicate DrawnUpTo(a: array4<Word>, bmp: seq<int>, i: nat, j: nat)
    reads a
  {
    Shaped(a) && IsBitmap(bmp) &&
    forall z, y, c, h :: 0 <= z < BitDepth && 0 <= y < PanelHeight && 0 <= c < 3 && 0 <= h < 2 ==>
      a[z, y, c, h] == Drawn(bmp, i, j, z, y, c, h)
  }

  lemma DrawnStart(a: array4<Word>, bmp: seq<int>)
    requires Shaped(a) && IsZero(a) && IsBitmap(bmp)
    ensures DrawnUpTo(a, bmp, 0, 0)
  {
    forall z, y, c, h | 0 <= z < BitDepth && 0 <= y < PanelHeight && 0 <= c < 3 && 0 <= h < 2
      ensures a[z, y, c, h] == Drawn(bmp, 0, 0, z, y, c, h)
    {
      NothingDrawn(bmp, z, y, c, h);
    }
  }

  lemma DrawnRowDone(a: array4<Word>, bmp: seq<int>, i: nat)
    requires DrawnUpTo(a, bmp, i, PanelWidth)
    ensures DrawnUpTo(a, bmp, i + 1, 0)
  {
    forall z, y, c, h | 0 <= z < BitDepth && 0 <= y < PanelHeight && 0 <= c < 3 && 0 <= h < 2
      ensures a[z, y, c, h] == Drawn(bmp, i + 1, 0, z, y, c, h)
    {
      RowFinished(bmp, i, z, y, c, h);
    }
  }

  lemma DrawnAll(a: array4<Word>, bmp: seq<int>)
    requires DrawnUpTo(a, bmp, PanelHeight, 0)
    ensures forall z, y, c, h :: 0 <= z < BitDepth && 0 <= y < PanelHeight && 0 <= c < 3 && 0 <= h < 2 ==>
      a[z, y, c, h] == FrameWord(bmp, z, y, c, h)
  {
    forall z, y, c, h | 0 <= z < BitDepth && 0 <= y < PanelHeight && 0 <= c < 3 && 0 <= h < 2
      ensures a[z, y, c, h] == FrameWord(bmp, z, y, c, h)
    {
      AllRowsFinished(bmp, z, y, c, h);
    }
  }

  /** Setting pixel (j, i) from its three bytes into a buffer drawn up to
      (i, j) gives the buffer drawn up to (i, j + 1). */
  lemma DrawnPixel(a: array4<Word>, bmp: seq<int>, i: nat, j: nat, index: nat)
    requires Shaped(a) && IsBitmap(bmp) && i < PanelHeight && j < PanelWidth && index == PixelIndex(j, i)
    requires forall z, y, c, h :: 0 <= z < BitDepth && 0 <= y < PanelHeight && 0 <= c < 3 && 0 <= h < 2 ==>
      a[z, y, c, h] ==
        if y == i && h == j / 32 then
          Drawn(bmp, i, j, z, y, c, h) +
            PlaneMask(ConvertBitdepth(Channel(bmp[index], bmp[index + 1], bmp[index + 2], c)), z, j % 32)
        else Drawn(bmp, i, j, z, y, c, h)
    ensures DrawnUpTo(a, bmp, i, j + 1)
  {
    forall z, y, c, h | 0 <= z < BitDepth && 0 <= y < PanelHeight && 0 <= c < 3 && 0 <= h < 2
      ensures a[z, y, c, h] == Drawn(bmp, i, j + 1, z, y, c, h)
    {
      DrawnWord(bmp, i, j, index, z, y, c, h, a[z, y, c, h]);
    }
  }

  /** One word of DrawnPixel. */
  lemma DrawnWord(bmp: seq<int>, i: nat, j: nat, index: nat, z: nat, y: nat, c: nat, h: nat, w: Word)
    requires IsBitmap(bmp) && i < PanelHeight && j < PanelWidth && index == PixelIndex(j, i)
    requires y < PanelHeight && c < 3 && h < 2
    requires w ==
      if y == i && h == j / 32 then
        Drawn(bmp, i, j, z, y, c, h) +
          PlaneMask(ConvertBitdepth(Channel(bmp[index], bmp[index + 1], bmp[index + 2], c)), z, j % 32)
      else Drawn(bmp, i, j, z, y, c, h)
    ensures w == Drawn(bmp, i, j + 1, z, y, c, h)
  {
    DrawnStep(bmp, i, j, z, y, c, h);
    assert Channel(bmp[index], bmp[index + 1], bmp[index + 2], c) == bmp[index + c];
  }

  /** A buffer as clear_buffer then one set_pixel(x, y, r, g, b) leave it:
      bit x % 32 of word [z][y][c][x / 32] is bit z of the quantized
      channel c, every other bit of that word is 0, and every other word is
      0. */
  lemma ClearThenSetPixel(a: array4<Word>, x: nat, y: nat, r: int, g: int, b: int)
    requires Shaped(a) && x < PanelWidth && y < PanelHeight
    requires IsChannel(r) && IsChannel(g) && IsChannel(b)
    requires forall z, y', c, h :: 0 <= z < BitDepth && 0 <= y' < PanelHeight && 0 <= c < 3 && 0 <= h < 2 ==>
      a[z, y', c, h] ==
        if y' == y && h == x / 32 then {} + PlaneMask(ConvertBitdepth(Channel(r, g, b, c)), z, x % 32) else {}
    ensures forall z, c, k: Offset :: 0 <= z < BitDepth && 0 <= c < 3 ==>
      (k in a[z, y, c, x / 32] <==> k == x % 32 && Bit(ConvertBitdepth(Channel(r, g, b, c)), z) == 1)
    ensures forall z, y', c, h ::
      0 <= z < BitDepth && 0 <= y' < PanelHeight && 0 <= c < 3 && 0 <= h < 2 && (y' != y || h != x / 32) ==>
        a[z, y', c, h] == {}
  {
  }

  /** Over one refresh, subpixel (x, y, c) of a drawn frame is lit in as
      many strobes as its 5-bit level: the frame shows the bitmap at the
      quantized brightness. */
  lemma FrameBrightness(bmp: seq<int>, x: nat, y: nat, c: nat)
    requires IsBitmap(bmp) && x < PanelWidth && y < PanelHeight && c < 3
    ensures LitCount(Sweep(), y, FrameBits(bmp, x, y, c)) == LevelAt(bmp, x, y, c)
  {
    PlanesLitCount(BitDepth, y, FrameBits(bmp, x, y, c));
    FrameDecomposes(bmp, x, y, c);
  }

  class MatrixDriver {
    /** The board's pin assignment. */
    const pins: PinConfig
    /** The GPIO port group all HUB75 signals are on. */
    const port: GpioPort
    /** The planes being displayed. */
    var matrix: array4<Word>
    /** The planes being written. */
    var buffer: array4<Word>

    ghost predicate Valid()
      reads this`matrix, this`buffer
    {
      pins == MatrixPortalM4 && Shaped(matrix) && Shaped(buffer) && matrix != buffer
    }

    /** Both buffers start zeroed, and nothing has been sent to the port. */
    constructor ()
      ensures Valid() && fresh(matrix) && fresh(buffer) && fresh(port)
      ensures IsZero(matrix) && IsZero(buffer)
      ensures port.writes == []
    {
      pins := MatrixPortalM4;
      port := new GpioPort();
      matrix := new Word[BitDepth, PanelHeight, 3, 2]((_, _, _, _) => {});
      buffer := new Word[BitDepth, PanelHeight, 3, 2]((_, _, _, _) => {});
    }

    /** Writes pixel (x, y) into the write buffer: for each plane z, bit z of
        each quantized channel is ORed into bit x % 32 of word
        [z][y][c][x / 32]. Nothing else changes. */
    method SetPixel(x: int, y: int, r: int, g: int, b: int)
      requires Valid()
      requires 0 <= x < PanelWidth && 0 <= y < PanelHeight
      requires IsChannel(r) && IsChannel(g) && IsChannel(b)
      modifies buffer
      ensures forall z, y', c, h :: 0 <= z < BitDepth && 0 <= y' < PanelHeight && 0 <= c < 3 && 0 <= h < 2 ==>
        buffer[z, y', c, h] ==
          if y' == y && h == x / 32 then
            old(buffer[z, y', c, h]) + PlaneMask(ConvertBitdepth(Channel(r, g, b, c)), z, x % 32)
          else old(buffer[z, y', c, h])
    {
      var rq, gq, bq := ConvertBitdepth(r), ConvertBitdepth(g), ConvertBitdepth(b);
      var rs, gs, bs := rq, gq, bq;
      var slot := ColumnSlot(x);
      var section, col := slot.half, slot.offset;
      ColumnSlotDivMod(x);
      var z := 0;
      while z < BitDepth
        invariant 0 <= z <= BitDepth
        invariant rs == Shifted(rq, z) && gs == Shifted(gq, z) && bs == Shifted(bq, z)
        invariant forall z', y', c, h :: 0 <= z' < BitDepth && 0 <= y' < PanelHeight && 0 <= c < 3 && 0 <= h < 2 ==>
          buffer[z', y', c, h] ==
            if y' == y && h == section && z' < z then
              old(buffer[z', y', c, h]) + PlaneMask(Channel(rq, gq, bq, c), z', col)
            else old(buffer[z', y', c, h])
      {
        ShiftedBit(rq, z);
        ShiftedBit(gq, z);
        ShiftedBit(bq, z);
        OrPlaneBits(z, y, section, BitAt(rs % 2, col), BitAt(gs % 2, col), BitAt(bs % 2, col));
        rs, gs, bs := rs / 2, gs / 2, bs / 2;
        z := z + 1;
      }
      assert forall c :: 0 <= c < 3 ==> ConvertBitdepth(Channel(r, g, b, c)) == Channel(rq, gq, bq, c);
    }

    /** One round of set_pixel's loop: ORs one word into each colour's word
        of plane z, row y, half h. Nothing else changes. */
    method OrPlaneBits(z: nat, y: nat, h: nat, red: Word, green: Word, blue: Word)
      requires Valid() && z < BitDepth && y < PanelHeight && h < 2
      modifies buffer
      ensures forall z', y', c, h' :: 0 <= z' < BitDepth && 0 <= y' < PanelHeight && 0 <= c < 3 && 0 <= h' < 2 ==>
        buffer[z', y', c, h'] ==
          if z' == z && y' == y && h' == h then old(buffer[z', y', c, h']) + Channel(red, green, blue, c)
          else old(buffer[z', y', c, h'])
    {
      buffer[z, y, 0, h] := buffer[z, y, 0, h] + red;
      buffer[z, y, 1, h] := buffer[z, y, 1, h] + green;
      buffer[z, y, 2, h] := buffer[z, y, 2, h] + blue;
    }

    /** Zeroes every word of the write buffer. */
    method ClearBuffer()
      requires Valid()
      modifies buffer
      ensures IsZero(buffer)
    {
      for i := 0 to BitDepth
        invariant forall z, y, c, h :: 0 <= z < BitDepth && 0 <= y < PanelHeight && 0 <= c < 3 && 0 <= h < 2 ==>
          buffer[z, y, c, h] == if z < i then {} else old(buffer[z, y, c, h])
      {
        for j := 0 to PanelHeight
          invariant forall z, y, c, h :: 0 <= z < BitDepth && 0 <= y < PanelHeight && 0 <= c < 3 && 0 <= h < 2 ==>
            buffer[z, y, c, h] == if z < i || (z == i && y < j) then {} else old(buffer[z, y, c, h])
        {
          for c := 0 to 3
            invariant forall z, y, c', h :: 0 <= z < BitDepth && 0 <= y < PanelHeight && 0 <= c' < 3 && 0 <= h < 2 ==>
              buffer[z, y, c', h] == if z < i || (z == i && (y < j || (y == j && c' < c))) then {} else old(buffer[z, y, c', h])
          {
            buffer[i, j, c, 0] := {};
            buffer[i, j, c, 1] := {};
          }
        }
      }
    }

    /** Exchanges the roles of the two buffers; the contents stay where they
        are, so swapping twice restores the original pair. */
    method SwapBuffer()
      requires Valid()
      modifies this`matrix, this`buffer
      ensures Valid()
      ensures matrix == old(buffer) && buffer == old(matrix)
    {
      var temp := buffer;
      buffer := matrix;
      matrix := temp;
    }

    /** Shifts one row pair into the panel and latches it at the address:
        the 195 port writes of RowWrites. */
    method ClockRow(address: nat, rowOne: RowWords, rowTwo: RowWords)
      requires address < 16
      modifies port
      ensures port.writes == old(port.writes) + RowWrites(pins, address, rowOne, rowTwo)
    {
      for i := 0 to 32
        invariant port.writes == old(port.writes) + HalfWrites(pins, rowOne, rowTwo, 0, i)
      {
        ghost var before := port.writes;
        port.Clear(RgbMask(pins));
        port.Set(ColumnSet(pins, rowOne, rowTwo, 0, i));
        port.Clear(Mask(pins.clk));
        ColumnAppended(old(port.writes), before, port.writes, pins, rowOne, rowTwo, 0, i);
      }
      ghost var first := port.writes;
      for i := 0 to 32
        invariant port.writes == first + HalfWrites(pins, rowOne, rowTwo, 1, i)
      {
        ghost var before := port.writes;
        port.Clear(RgbMask(pins));
        port.Set(ColumnSet(pins, rowOne, rowTwo, 1, i));
        port.Clear(Mask(pins.clk));
        ColumnAppended(first, before, port.writes, pins, rowOne, rowTwo, 1, i);
      }
      ghost var second := port.writes;
      port.Clear(AdrMask(pins));
      port.Set(AddressSet(pins, address));
      port.Clear(Mask(pins.lat) + Mask(pins.oe));
      LatchAppended(old(port.writes), first, second, port.writes, pins, address, rowOne, rowTwo);
    }

    /** One pass over plane i: addresses 0..15, strobing rows j and j + 16. */
    method ShowPlane(i: nat, ghost img: Image)
      requires Valid() && i < BitDepth && img == Contents(matrix)
      modifies port
      ensures port.writes == old(port.writes) + Concat(RowsOf(pins, img), Pass(i, Rows))
    {
      ghost var f := RowsOf(pins, img);
      assert Pass(i, 0) == [];
      for j := 0 to Rows
        invariant port.writes == old(port.writes) + Concat(f, Pass(i, j))
      {
        ghost var s := Strobe(i, j, j, j + Rows);
        StrobeRowAt(pins, matrix, img, i, j);
        ConcatSnoc(f, Pass(i, j), s);
        PassSnoc(i, j);
        AppendAssoc(old(port.writes), Concat(f, Pass(i, j)), f(s));
        ClockRow(j, RowAt(matrix, i, j), RowAt(matrix, i, j + Rows));
      }
    }

    /** Plane i held for its weight: 1 << i passes over it. */
    method ShowPlaneWeighted(i: nat, ghost img: Image)
      requires Valid() && i < BitDepth && img == Contents(matrix)
      modifies port
      ensures port.writes == old(port.writes) + Concat(RowsOf(pins, img), Repeat(Pass(i, Rows), Pow2(i)))
    {
      ghost var f := RowsOf(pins, img);
      for x := 0 to Pow2(i)
        invariant img == Contents(matrix)
        invariant port.writes == old(port.writes) + Concat(f, Repeat(Pass(i, Rows), x))
      {
        ghost var done := Repeat(Pass(i, Rows), x);
        RepeatSnoc(Pass(i, Rows), x);
        ConcatAppend(f, done, Pass(i, Rows));
        AppendAssoc(old(port.writes), Concat(f, done), Concat(f, Pass(i, Rows)));
        ShowPlane(i, img);
      }
    }

    /** One refresh: planes 0..BitDepth-1 in order, each for its weight. */
    method DisplayMatrix()
      requires Valid()
      modifies port
      ensures port.writes == old(port.writes) + StrobeWrites(pins, Contents(matrix), Sweep())
    {
      ghost var img := Contents(matrix);
      ghost var f := RowsOf(pins, img);
      for i := 0 to BitDepth
        invariant img == Contents(matrix)
        invariant port.writes == old(port.writes) + Concat(f, Planes(i))
      {
        ghost var weighted := Repeat(Pass(i, Rows), Pow2(i));
        ConcatAppend(f, Planes(i), weighted);
        AppendAssoc(old(port.writes), Concat(f, Planes(i)), Concat(f, weighted));
        PlanesSnoc(i);
        ShowPlaneWeighted(i, img);
      }
    }

    /** Pixel (j, i) of draw_bitmap: refresh the display first when j is a
        multiple of 4, then write the pixel's three bytes. */
    method DrawPixel(bmp: seq<int>, i: nat, j: nat, ghost img: Image)
      requires Valid() && i < PanelHeight && j < PanelWidth && img == Contents(matrix)
      requires DrawnUpTo(buffer, bmp, i, j)
      modifies buffer, port
      ensures DrawnUpTo(buffer, bmp, i, j + 1)
      ensures port.writes == old(port.writes) + if j % 4 == 0 then StrobeWrites(pins, img, Sweep()) else []
    {
      if j % 4 == 0 {
        DisplayMatrix();
      }
      var index := (i * 64 + j) * 3;
      assert index == PixelIndex(j, i);
      SetPixel(j, i, bmp[index], bmp[index + 1], bmp[index + 2]);
      DrawnPixel(buffer, bmp, i, j, index);
    }

    /** Row i of draw_bitmap: columns 0..63 in order, refreshing the display
        before every fourth pixel. */
    method DrawRow(bmp: seq<int>, i: nat, ghost img: Image)
      requires Valid() && i < PanelHeight && img == Contents(matrix)
      requires DrawnUpTo(buffer, bmp, i, 0)
      modifies buffer, port
      ensures DrawnUpTo(buffer, bmp, i + 1, 0)
      ensures port.writes == old(port.writes) + Repeat(StrobeWrites(pins, img, Sweep()), 16)
    {
      ghost var frame := StrobeWrites(pins, img, Sweep());
      for j := 0 to PanelWidth
        invariant img == Contents(matrix)
        invariant DrawnUpTo(buffer, bmp, i, j)
        invariant port.writes == old(port.writes) + Repeat(frame, Refreshes(j))
      {
        ghost var before := port.writes;
        DrawPixel(bmp, i, j, img);
        RefreshStep(old(port.writes), before, port.writes, frame, j);
      }
      assert Refreshes(PanelWidth) == 16;
      DrawnRowDone(buffer, bmp, i);
    }

    /** The rows loop of draw_bitmap: rows 0..31 drawn into the cleared
        write buffer, 16 refreshes per row. */
    method DrawRows(bmp: seq<int>, ghost img: Image)
      requires Valid() && img == Contents(matrix)
      requires DrawnUpTo(buffer, bmp, 0, 0)
      modifies buffer, port
      ensures forall z, y, c, h :: 0 <= z < BitDepth && 0 <= y < PanelHeight && 0 <= c < 3 && 0 <= h < 2 ==>
        buffer[z, y, c, h] == FrameWord(bmp, z, y, c, h)
      ensures port.writes == old(port.writes) + Repeat(StrobeWrites(pins, img, Sweep()), 512)
    {
      ghost var frame := StrobeWrites(pins, img, Sweep());
      for i := 0 to PanelHeight
        invariant img == Contents(matrix)
        invariant DrawnUpTo(buffer, bmp, i, 0)
        invariant port.writes == old(port.writes) + Repeat(frame, 16 * i)
      {
        ghost var mid := port.writes;
        DrawRow(bmp, i, img);
        RowsStep(old(port.writes), mid, port.writes, frame, i);
      }
      DrawnAll(buffer, bmp);
    }

    /** draw_bitmap: clear the write buffer, draw the 64 x 32 bitmap into it
        pixel by pixel (refreshing the display 512 times on the way), then
        swap, so the drawn frame is displayed and the old display buffer
        becomes the write buffer. */
    method DrawBitmap(bmp: seq<int>)
      requires Valid() && IsBitmap(bmp)
      modifies this`matrix, this`buffer, buffer, port
      ensures Valid()
      ensures matrix == old(buffer) && buffer == old(matrix)
      ensures forall z, y, c, h :: 0 <= z < BitDepth && 0 <= y < PanelHeight && 0 <= c < 3 && 0 <= h < 2 ==>
        matrix[z, y, c, h] == FrameWord(bmp, z, y, c, h)
      ensures Contents(buffer) == old(Contents(matrix))
      ensures port.writes == old(port.writes) + Repeat(StrobeWrites(pins, old(Contents(matrix)), Sweep()), 512)
    {
      ghost var img := Contents(matrix);
      ClearBuffer();
      DrawnStart(buffer, bmp);
      DrawRows(bmp, img);
      SwapBuffer();
    }
  }
}
