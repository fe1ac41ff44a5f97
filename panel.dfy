/** What a HUB75 panel does with the port's levels: the meaning against
    which the row shifter's write sequence is checked.

    On a rising CLK edge the panel shifts the six colour inputs into a
    64-column shift register (the oldest sample leaves at the far end). On a
    rising LAT edge it copies the shift register into the output latch and
    selects the row pair addressed by A..E. With OE low the latched pair is
    displayed. */
module Panel {
  import opened Bits
  import opened Words
  import opened Pins
  import opened Port
  import opened RowShifter

  /** Columns per shift register. */
  const Width: nat := 64

  /** The six colour inputs as seen at one clock edge. */
  datatype Sample = Sample(r1: bool, g1: bool, b1: bool, r2: bool, g2: bool, b2: bool)

  /** The port's output levels (the pins driven high), the shift register,
      the output latch and the selected row address. */
  datatype PanelState = PanelState(out: Word, register: seq<Sample>, latched: seq<Sample>, row: nat)

  /** Between transfers: CLK and LAT low, and a full-width shift register. */
  predicate Idle(p: PinConfig, st: PanelState) {
    p.clk !in st.out && p.lat !in st.out && |st.register| == Width
  }

  /** Effect of one register write on the output levels. */
  function Apply(out: Word, w: PortWrite): Word {
    match w
    case OutSet(m) => out + m
    case OutClr(m) => out - m
  }

  /** A set write drives its pins high and a clear write drives its pins
      low; every other pin keeps its level. */
  lemma ApplyPin(out: Word, w: PortWrite, k: Offset)
    ensures k in w.mask ==> (k in Apply(out, w) <==> w.OutSet?)
    ensures k !in w.mask ==> (k in Apply(out, w) <==> k in out)
  {
  }

  function SampleOf(p: PinConfig, out: Word): Sample {
    Sample(p.r1 in out, p.g1 in out, p.b1 in out, p.r2 in out, p.g2 in out, p.b2 in out)
  }

  /** The row address read from A (bit 0) .. E (bit 4). */
  function AddressOf(p: PinConfig, out: Word): (r: nat)
    ensures r < 32
  {
    (if p.a in out then 1 else 0) + (if p.b in out then 2 else 0) + (if p.c in out then 4 else 0) +
    (if p.d in out then 8 else 0) + (if p.e in out then 16 else 0)
  }

  /** The panel's reaction to one write: clock edges shift, latch edges latch. */
  function Step(p: PinConfig, st: PanelState, w: PortWrite): (r: PanelState)
    requires |st.register| == Width
    ensures |r.register| == Width
  {
    var out := Apply(st.out, w);
    var register := if p.clk !in st.out && p.clk in out then st.register[1..] + [SampleOf(p, out)] else st.register;
    if p.lat !in st.out && p.lat in out then PanelState(out, register, register, AddressOf(p, out))
    else PanelState(out, register, st.latched, st.row)
  }

  /** The panel's state after a sequence of writes, oldest first. */
  function Run(p: PinConfig, st: PanelState, ws: seq<PortWrite>): (r: PanelState)
    requires |st.register| == Width
    ensures |r.register| == Width
    decreases |ws|
  {
    if ws == [] then st else Run(p, Step(p, st, ws[0]), ws[1..])
  }

  lemma {:induction false} RunAppend(p: PinConfig, st: PanelState, a: seq<PortWrite>, b: seq<PortWrite>)
    requires |st.register| == Width
    ensures Run(p, st, a + b) == Run(p, Run(p, st, a), b)
    decreases |a|
  {
    if a == [] {
      assert a + b == b;
    } else {
      assert (a + b)[0] == a[0];
      assert (a + b)[1..] == a[1..] + b;
      RunAppend(p, Step(p, st, a[0]), a[1..], b);
    }
  }

  /** The six bits column i of half h contributes: bit i of each colour's
      half-h word, top row on R1..B1, bottom row on R2..B2. */
  function ColumnSample(top: RowWords, bottom: RowWords, h: nat, i: Offset): Sample
    requires h < 2
  {
    Sample(i in top.At(0, h), i in top.At(1, h), i in top.At(2, h),
           i in bottom.At(0, h), i in bottom.At(1, h), i in bottom.At(2, h))
  }

  /** Samples of columns 0..n-1 of half h, in column order. */
  function HalfSamples(top: RowWords, bottom: RowWords, h: nat, n: nat): (r: seq<Sample>)
    requires h < 2 && n <= 32
    ensures |r| == n
  {
    if n == 0 then [] else HalfSamples(top, bottom, h, n - 1) + [ColumnSample(top, bottom, h, n - 1)]
  }

  /** The 64 samples of a row pair, column 0 first. */
  function RowSamples(top: RowWords, bottom: RowWords): seq<Sample> {
    HalfSamples(top, bottom, 0, 32) + HalfSamples(top, bottom, 1, 32)
  }

  lemma {:induction false} HalfSamplesAt(top: RowWords, bottom: RowWords, h: nat, n: nat, i: nat)
    requires h < 2 && i < n <= 32
    ensures HalfSamples(top, bottom, h, n)[i] == ColumnSample(top, bottom, h, i)
  {
    if i < n - 1 {
      HalfSamplesAt(top, bottom, h, n - 1, i);
    }
  }

  /** Column x of the latched row shows bit x % 32 of the half-x/32 words. */
  lemma RowSamplesAt(top: RowWords, bottom: RowWords, x: nat)
    requires x < Width
    ensures |RowSamples(top, bottom)| == Width
    ensures RowSamples(top, bottom)[x] == ColumnSample(top, bottom, x / 32, x % 32)
  {
    var lo, hi := HalfSamples(top, bottom, 0, 32), HalfSamples(top, bottom, 1, 32);
    if x < 32 {
      assert x / 32 == 0 && x % 32 == x;
      assert RowSamples(top, bottom)[x] == lo[x];
      HalfSamplesAt(top, bottom, 0, 32, x);
    } else {
      assert x / 32 == 1 && x % 32 == x - 32;
      assert RowSamples(top, bottom)[x] == hi[x - 32];
      HalfSamplesAt(top, bottom, 1, 32, x - 32);
    }
  }

  /** After clearing RGB and setting column i's value, the colour inputs
      carry exactly that column's sample. */
  lemma ColumnSampled(p: PinConfig, out: Word, top: RowWords, bottom: RowWords, h: nat, i: Offset)
    requires WellFormed(p) && h < 2
    ensures SampleOf(p, (out - RgbMask(p)) + ColumnSet(p, top, bottom, h, i)) == ColumnSample(top, bottom, h, i)
  {
    DataPinsDistinct(p);
    ColumnSetPins(p, top, bottom, h, i, p.r1);
    ColumnSetPins(p, top, bottom, h, i, p.g1);
    ColumnSetPins(p, top, bottom, h, i, p.b1);
    ColumnSetPins(p, top, bottom, h, i, p.r2);
    ColumnSetPins(p, top, bottom, h, i, p.g2);
    ColumnSetPins(p, top, bottom, h, i, p.b2);
  }

  /** Three writes run one at a time. */
  lemma RunThree(p: PinConfig, st: PanelState, ws: seq<PortWrite>)
    requires |st.register| == Width && |ws| == 3
    ensures Run(p, st, ws) == Step(p, Step(p, Step(p, st, ws[0]), ws[1]), ws[2])
  {
    var s1 := Step(p, st, ws[0]);
    var s2 := Step(p, s1, ws[1]);
    assert Run(p, st, ws) == Run(p, s1, ws[1..]);
    assert Run(p, s1, ws[1..]) == Run(p, s2, ws[2..]);
    assert Run(p, s2, ws[2..]) == Run(p, Step(p, s2, ws[2]), ws[3..]);
  }

  /** One column's three writes clock exactly that column's sample into the
      shift register and leave the panel idle with the latch untouched. */
  lemma ColumnStep(p: PinConfig, st: PanelState, top: RowWords, bottom: RowWords, h: nat, i: Offset)
    requires WellFormed(p) && Idle(p, st) && h < 2
    ensures Idle(p, Run(p, st, ColumnWrites(p, top, bottom, h, i)))
    ensures Run(p, st, ColumnWrites(p, top, bottom, h, i)).register ==
      st.register[1..] + [ColumnSample(top, bottom, h, i)]
    ensures Run(p, st, ColumnWrites(p, top, bottom, h, i)).latched == st.latched
    ensures Run(p, st, ColumnWrites(p, top, bottom, h, i)).row == st.row
  {
    DataPinsDistinct(p);
    var ws := ColumnWrites(p, top, bottom, h, i);
    var set1 := ColumnSet(p, top, bottom, h, i);
    var o1 := st.out - RgbMask(p);
    var o2 := o1 + set1;
    var reg := st.register[1..] + [ColumnSample(top, bottom, h, i)];
    ColumnSetPins(p, top, bottom, h, i, p.lat);
    ColumnSetPins(p, top, bottom, h, i, p.clk);
    ColumnSampled(p, st.out, top, bottom, h, i);
    var s1 := PanelState(o1, st.register, st.latched, st.row);
    var s2 := PanelState(o2, reg, st.latched, st.row);
    var s3 := PanelState(o2 - {p.clk}, reg, st.latched, st.row);
    assert Step(p, st, ws[0]) == s1;
    assert Step(p, s1, ws[1]) == s2;
    assert Step(p, s2, ws[2]) == s3;
    RunThree(p, st, ws);
  }

  /** Columns 0..n-1 of half h shift those columns' samples in behind what
      the register held, and leave the panel idle with the latch untouched. */
  lemma {:induction false} HalfStep(p: PinConfig, st: PanelState, top: RowWords, bottom: RowWords, h: nat, n: nat)
    requires WellFormed(p) && Idle(p, st) && h < 2 && n <= 32
    ensures Idle(p, Run(p, st, HalfWrites(p, top, bottom, h, n)))
    ensures Run(p, st, HalfWrites(p, top, bottom, h, n)).register ==
      st.register[n..] + HalfSamples(top, bottom, h, n)
    ensures Run(p, st, HalfWrites(p, top, bottom, h, n)).latched == st.latched
    ensures Run(p, st, HalfWrites(p, top, bottom, h, n)).row == st.row
  {
    if n == 0 {
      assert st.register[0..] == st.register;
    } else {
      var prev := HalfWrites(p, top, bottom, h, n - 1);
      var col := ColumnWrites(p, top, bottom, h, n - 1);
      assert HalfWrites(p, top, bottom, h, n) == prev + col;
      RunAppend(p, st, prev, col);
      HalfStep(p, st, top, bottom, h, n - 1);
      var mid := Run(p, st, prev);
      ColumnStep(p, mid, top, bottom, h, n - 1);
      var before := HalfSamples(top, bottom, h, n - 1);
      var cs := ColumnSample(top, bottom, h, n - 1);
      assert HalfSamples(top, bottom, h, n) == before + [cs];
      assert mid.register == st.register[n - 1..] + before;
      assert (st.register[n - 1..] + before)[1..] == st.register[n..] + before;
      assert Run(p, mid, col).register == st.register[n..] + before + [cs];
    }
  }

  /** A..E carrying the five bits of an address read back that address. */
  lemma AddressOfBits(p: PinConfig, out: Word, address: nat)
    requires address < 32
    requires (p.a in out <==> Bit(address, 0) == 1) && (p.b in out <==> Bit(address, 1) == 1)
    requires (p.c in out <==> Bit(address, 2) == 1) && (p.d in out <==> Bit(address, 3) == 1)
    requires p.e in out <==> Bit(address, 4) == 1
    ensures AddressOf(p, out) == address
  {
    FiveBits(address);
  }

  /** With the address pins cleared and the latching value set, A..E read
      back the address. */
  lemma AddressRead(p: PinConfig, out: Word, address: nat)
    requires WellFormed(p) && address < 32
    ensures AddressOf(p, (out - AdrMask(p)) + AddressSet(p, address)) == address
    ensures AddressOf(p, (out - AdrMask(p)) + AddressSet(p, address) - (Mask(p.lat) + Mask(p.oe))) == address
  {
    ControlPinsDistinct(p);
    var o2 := (out - AdrMask(p)) + AddressSet(p, address);
    var o3 := o2 - (Mask(p.lat) + Mask(p.oe));
    AddressSetPins(p, address, p.a);
    AddressSetPins(p, address, p.b);
    AddressSetPins(p, address, p.c);
    AddressSetPins(p, address, p.d);
    AddressSetPins(p, address, p.e);
    AdrMaskPins(p, p.a);
    AdrMaskPins(p, p.b);
    AdrMaskPins(p, p.c);
    AdrMaskPins(p, p.d);
    AdrMaskPins(p, p.e);
    AddressOfBits(p, o2, address);
    assert p.a in o3 <==> p.a in o2;
    assert p.b in o3 <==> p.b in o2;
    assert p.c in o3 <==> p.c in o2;
    assert p.d in o3 <==> p.d in o2;
    assert p.e in o3 <==> p.e in o2;
    AddressOfBits(p, o3, address);
  }

  /** The latch writes copy the shift register into the output latch, select
      the row address, and end with LAT low and OE low (output enabled). */
  lemma LatchStep(p: PinConfig, st: PanelState, address: nat)
    requires WellFormed(p) && Idle(p, st) && address < 32
    ensures Idle(p, Run(p, st, LatchWrites(p, address)))
    ensures Run(p, st, LatchWrites(p, address)).register == st.register
    ensures Run(p, st, LatchWrites(p, address)).latched == st.register
    ensures Run(p, st, LatchWrites(p, address)).row == address
    ensures p.oe !in Run(p, st, LatchWrites(p, address)).out
    ensures AddressOf(p, Run(p, st, LatchWrites(p, address)).out) == address
  {
    ControlPinsDistinct(p);
    var ws := LatchWrites(p, address);
    var o1 := st.out - AdrMask(p);
    var o2 := o1 + AddressSet(p, address);
    var o3 := o2 - (Mask(p.lat) + Mask(p.oe));
    AddressRead(p, st.out, address);
    AddressSetPins(p, address, p.clk);
    AddressSetPins(p, address, p.lat);
    AddressSetPins(p, address, p.oe);
    AdrMaskPins(p, p.clk);
    AdrMaskPins(p, p.lat);
    var s1 := PanelState(o1, st.register, st.latched, st.row);
    var s2 := PanelState(o2, st.register, st.register, address);
    var s3 := PanelState(o3, st.register, st.register, address);
    assert Step(p, st, ws[0]) == s1;
    assert Step(p, s1, ws[1]) == s2;
    assert Step(p, s2, ws[2]) == s3;
    RunThree(p, st, ws);
  }

  /** clock_row's writes, from any idle panel, latch exactly the row pair's
      64 column samples, select the given address, and leave the panel idle
      with its output enabled: whatever the shift register held before is
      pushed out. */
  lemma RowLatches(p: PinConfig, st: PanelState, address: nat, top: RowWords, bottom: RowWords)
    requires WellFormed(p) && Idle(p, st) && address < 16
    ensures Idle(p, Run(p, st, RowWrites(p, address, top, bottom)))
    ensures Run(p, st, RowWrites(p, address, top, bottom)).latched == RowSamples(top, bottom)
    ensures Run(p, st, RowWrites(p, address, top, bottom)).row == address
    ensures p.oe !in Run(p, st, RowWrites(p, address, top, bottom)).out
  {
    RowWritesInOrder(p, address, top, bottom);
    var lo, hi := HalfWrites(p, top, bottom, 0, 32), HalfWrites(p, top, bottom, 1, 32);
    RunAppend(p, st, lo + hi, LatchWrites(p, address));
    RunAppend(p, st, lo, hi);
    HalfStep(p, st, top, bottom, 0, 32);
    var mid := Run(p, st, lo);
    HalfStep(p, mid, top, bottom, 1, 32);
    var full := Run(p, mid, hi);
    assert full.register == RowSamples(top, bottom) by {
      assert |st.register[32..]| == 32;
      assert mid.register[32..] == HalfSamples(top, bottom, 0, 32);
    }
    LatchStep(p, full, address);
  }
}
