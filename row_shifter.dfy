/** The row shifter's port protocol (clock_row) as the sequence of register
    writes it issues. */
module RowShifter {
  import opened Bits
  import opened Words
  import opened Pins
  import opened Port

  /** The two 32-column words of one (plane, row, colour) cell; half 0 holds
      columns 0..31, half 1 columns 32..63. */
  datatype Halves = Halves(lo: Word, hi: Word) {
    function At(h: nat): Word
      requires h < 2
    {
      if h == 0 then lo else hi
    }
  }

  /** The words clock_row reads from one buffer row, indexed [colour][half]. */
  datatype RowWords = RowWords(red: Halves, green: Halves, blue: Halves) {
    function At(c: nat, h: nat): Word
      requires c < 3 && h < 2
    {
      if c == 0 then red.At(h) else if c == 1 then green.At(h) else blue.At(h)
    }
  }

  /** ((w >> s) & 1) << pin: the pin when bit s of w is set, no pin otherwise. */
  function Carry(w: Word, s: Offset, pin: Offset): Word {
    if s in w then Mask(pin) else {}
  }

  /** The OUTSET value for column i of half h: bit i of the three top-row
      words on R1, G1, B1, of the three bottom-row words on R2, G2, B2, and CLK. */
  function ColumnSet(p: PinConfig, top: RowWords, bottom: RowWords, h: nat, i: Offset): Word
    requires h < 2
  {
    Carry(top.At(0, h), i, p.r1) + Carry(top.At(1, h), i, p.g1) + Carry(top.At(2, h), i, p.b1) +
    Carry(bottom.At(0, h), i, p.r2) + Carry(bottom.At(1, h), i, p.g2) + Carry(bottom.At(2, h), i, p.b2) +
    Mask(p.clk)
  }

  /** Write r of one column: clear RGB, set data and CLK, clear CLK. */
  function ColumnWrite(p: PinConfig, top: RowWords, bottom: RowWords, h: nat, i: Offset, r: nat): PortWrite
    requires h < 2
  {
    if r == 0 then OutClr(RgbMask(p))
    else if r == 1 then OutSet(ColumnSet(p, top, bottom, h, i))
    else OutClr(Mask(p.clk))
  }

  /** The three writes of one column. */
  function ColumnWrites(p: PinConfig, top: RowWords, bottom: RowWords, h: nat, i: Offset): seq<PortWrite>
    requires h < 2
  {
    [ColumnWrite(p, top, bottom, h, i, 0), ColumnWrite(p, top, bottom, h, i, 1), ColumnWrite(p, top, bottom, h, i, 2)]
  }

  /** The writes for columns 0..n-1 of half h. */
  function HalfWrites(p: PinConfig, top: RowWords, bottom: RowWords, h: nat, n: nat): seq<PortWrite>
    requires h < 2 && n <= 32
  {
    if n == 0 then [] else HalfWrites(p, top, bottom, h, n - 1) + ColumnWrites(p, top, bottom, h, n - 1)
  }

  /** One more column of the loop over half h extends its writes by that
      column's three writes. */
  lemma ColumnAppended(start: seq<PortWrite>, before: seq<PortWrite>, after: seq<PortWrite>,
                       p: PinConfig, top: RowWords, bottom: RowWords, h: nat, i: Offset)
    requires h < 2
    requires before == start + HalfWrites(p, top, bottom, h, i)
    requires after == before + [OutClr(RgbMask(p))] + [OutSet(ColumnSet(p, top, bottom, h, i))] + [OutClr(Mask(p.clk))]
    ensures after == start + HalfWrites(p, top, bottom, h, i + 1)
  {
    assert after == before + ColumnWrites(p, top, bottom, h, i);
  }

  /** ((address >> n) & 1) << pin. */
  function AddressCarry(address: nat, n: nat, pin: Offset): Word {
    if Bit(address, n) == 1 then Mask(pin) else {}
  }

  /** The OUTSET value that latches: LAT, OE, and address bits 0..4 on A..E. */
  function AddressSet(p: PinConfig, address: nat): Word {
    Mask(p.lat) + Mask(p.oe) +
    AddressCarry(address, 0, p.a) + AddressCarry(address, 1, p.b) + AddressCarry(address, 2, p.c) +
    AddressCarry(address, 3, p.d) + AddressCarry(address, 4, p.e)
  }

  /** Clear the address, set LAT | OE | address, clear LAT | OE. */
  function LatchWrites(p: PinConfig, address: nat): seq<PortWrite> {
    [OutClr(AdrMask(p)), OutSet(AddressSet(p, address)), OutClr(Mask(p.lat) + Mask(p.oe))]
  }

  /** Write k of clock_row(address, top, bottom): writes 0..191 come three per
      column, column x = k / 3 taking bit x % 32 of the half-(x / 32) words;
      writes 192..194 latch the address. */
  function RowWrite(p: PinConfig, address: nat, top: RowWords, bottom: RowWords, k: nat): PortWrite
    requires k < 195
  {
    if k < 192 then ColumnWrite(p, top, bottom, k / 96, k / 3 % 32, k % 3)
    else LatchWrites(p, address)[k - 192]
  }

  /** All writes of clock_row(address, top, bottom). */
  function RowWrites(p: PinConfig, address: nat, top: RowWords, bottom: RowWords): (r: seq<PortWrite>)
    ensures |r| == 195
  {
    seq(195, (k: nat) requires k < 195 => RowWrite(p, address, top, bottom, k))
  }

  /** Write 3 * i + r of the loop over half h is write r of column i. */
  lemma {:induction false} HalfWritesAt(p: PinConfig, top: RowWords, bottom: RowWords, h: nat, n: nat)
    requires h < 2 && n <= 32
    ensures |HalfWrites(p, top, bottom, h, n)| == 3 * n
    ensures forall i: Offset, r :: i < n && 0 <= r < 3 ==>
      HalfWrites(p, top, bottom, h, n)[3 * i + r] == ColumnWrite(p, top, bottom, h, i, r)
  {
    if n > 0 {
      HalfWritesAt(p, top, bottom, h, n - 1);
      var prev := HalfWrites(p, top, bottom, h, n - 1);
      var all := HalfWrites(p, top, bottom, h, n);
      assert all == prev + ColumnWrites(p, top, bottom, h, n - 1);
      forall i: Offset, r | i < n && 0 <= r < 3
        ensures all[3 * i + r] == ColumnWrite(p, top, bottom, h, i, r)
      {
        if i < n - 1 {
          assert all[3 * i + r] == prev[3 * i + r];
        }
      }
    }
  }

  lemma HalfLength(p: PinConfig, top: RowWords, bottom: RowWords, h: nat)
    requires h < 2
    ensures |HalfWrites(p, top, bottom, h, 32)| == 96
  {
    HalfWritesAt(p, top, bottom, h, 32);
  }

  lemma HalfWrite(p: PinConfig, top: RowWords, bottom: RowWords, h: nat, k: nat, i: Offset, r: nat)
    requires h < 2 && r < 3 && k == 3 * i + r
    ensures |HalfWrites(p, top, bottom, h, 32)| == 96
    ensures HalfWrites(p, top, bottom, h, 32)[k] == ColumnWrite(p, top, bottom, h, i, r)
  {
    HalfWritesAt(p, top, bottom, h, 32);
  }

  /** Write 96 * h + 3 * i + r of a row is write r of column i of half h. */
  lemma RowWriteColumn(p: PinConfig, address: nat, top: RowWords, bottom: RowWords, k: nat, h: nat, i: Offset, r: nat)
    requires h < 2 && r < 3 && k == 96 * h + 3 * i + r
    ensures k < 195 && RowWrite(p, address, top, bottom, k) == ColumnWrite(p, top, bottom, h, i, r)
  {
    assert k / 3 == 32 * h + i && k % 3 == r;
    assert (32 * h + i) % 32 == i;
    assert k / 96 == h;
    assert k < 192;
  }

  /** Writes 96 * h .. 96 * h + 95 of a row are the loop over half h. */
  lemma RowWriteHalf(p: PinConfig, address: nat, top: RowWords, bottom: RowWords, h: nat, k: nat)
    requires h < 2 && 96 * h <= k < 96 * h + 96
    ensures |HalfWrites(p, top, bottom, h, 32)| == 96
    ensures RowWrite(p, address, top, bottom, k) == HalfWrites(p, top, bottom, h, 32)[k - 96 * h]
  {
    var j := k - 96 * h;
    var i: Offset, r := j / 3, j % 3;
    RowWriteColumn(p, address, top, bottom, k, h, i, r);
    HalfWrite(p, top, bottom, h, j, i, r);
  }

  /** Write k of a row, read off the loops in program order. */
  lemma RowWriteInOrder(p: PinConfig, address: nat, top: RowWords, bottom: RowWords, k: nat)
    requires k < 195
    ensures |HalfWrites(p, top, bottom, 0, 32) + HalfWrites(p, top, bottom, 1, 32) + LatchWrites(p, address)| == 195
    ensures RowWrite(p, address, top, bottom, k) ==
      (HalfWrites(p, top, bottom, 0, 32) + HalfWrites(p, top, bottom, 1, 32) + LatchWrites(p, address))[k]
  {
    var lo, hi := HalfWrites(p, top, bottom, 0, 32), HalfWrites(p, top, bottom, 1, 32);
    HalfLength(p, top, bottom, 0);
    HalfLength(p, top, bottom, 1);
    var v := lo + hi + LatchWrites(p, address);
    if k < 96 {
      RowWriteHalf(p, address, top, bottom, 0, k);
      assert v[k] == lo[k];
    } else if k < 192 {
      RowWriteHalf(p, address, top, bottom, 1, k);
      assert v[k] == hi[k - 96];
    } else {
      assert v[k] == LatchWrites(p, address)[k - 192];
    }
  }

  /** The writes in program order: the loop over half 0, the loop over half 1,
      then the latch. */
  lemma RowWritesInOrder(p: PinConfig, address: nat, top: RowWords, bottom: RowWords)
    ensures RowWrites(p, address, top, bottom) ==
      HalfWrites(p, top, bottom, 0, 32) + HalfWrites(p, top, bottom, 1, 32) + LatchWrites(p, address)
  {
    var w := RowWrites(p, address, top, bottom);
    var v := HalfWrites(p, top, bottom, 0, 32) + HalfWrites(p, top, bottom, 1, 32) + LatchWrites(p, address);
    RowWriteInOrder(p, address, top, bottom, 0);
    forall k | 0 <= k < 195
      ensures w[k] == v[k]
    {
      RowWriteInOrder(p, address, top, bottom, k);
    }
  }

  /** The two column loops followed by the three latch writes make up the
      whole row. */
  lemma LatchAppended(start: seq<PortWrite>, first: seq<PortWrite>, before: seq<PortWrite>, after: seq<PortWrite>,
                      p: PinConfig, address: nat, top: RowWords, bottom: RowWords)
    requires first == start + HalfWrites(p, top, bottom, 0, 32)
    requires before == first + HalfWrites(p, top, bottom, 1, 32)
    requires after == before + [OutClr(AdrMask(p))] + [OutSet(AddressSet(p, address))] + [OutClr(Mask(p.lat) + Mask(p.oe))]
    ensures after == start + RowWrites(p, address, top, bottom)
  {
    RowWritesInOrder(p, address, top, bottom);
    assert after == before + LatchWrites(p, address);
  }

  /** Writes 3 * x .. 3 * x + 2 of a row are column x's. */
  lemma RowColumn(p: PinConfig, address: nat, top: RowWords, bottom: RowWords, x: nat)
    requires x < 64
    ensures RowWrites(p, address, top, bottom)[3 * x .. 3 * x + 3] == ColumnWrites(p, top, bottom, x / 32, x % 32)
  {
    var w := RowWrites(p, address, top, bottom);
    var h, i: Offset := x / 32, x % 32;
    RowWriteColumn(p, address, top, bottom, 3 * x, h, i, 0);
    RowWriteColumn(p, address, top, bottom, 3 * x + 1, h, i, 1);
    RowWriteColumn(p, address, top, bottom, 3 * x + 2, h, i, 2);
    var cw := ColumnWrites(p, top, bottom, h, i);
    assert w[3 * x] == cw[0] && w[3 * x + 1] == cw[1] && w[3 * x + 2] == cw[2];
  }

  /** clock_row issues 64 * 3 + 3 = 195 writes: for column x, clear RGB,
      set column x's data with CLK, clear CLK (bit x % 32 of the half-x/32
      words); then clear the address, set LAT | OE | address, and last clear
      LAT | OE. */
  lemma RowWritesLayout(p: PinConfig, address: nat, top: RowWords, bottom: RowWords)
    ensures |RowWrites(p, address, top, bottom)| == 195
    ensures forall x :: 0 <= x < 64 ==>
      RowWrites(p, address, top, bottom)[3 * x .. 3 * x + 3] == ColumnWrites(p, top, bottom, x / 32, x % 32)
    ensures RowWrites(p, address, top, bottom)[192..] == LatchWrites(p, address)
  {
    var w := RowWrites(p, address, top, bottom);
    forall x | 0 <= x < 64
      ensures w[3 * x .. 3 * x + 3] == ColumnWrites(p, top, bottom, x / 32, x % 32)
    {
      RowColumn(p, address, top, bottom, x);
    }
  }

  /** The SET write of column i of half h carries CLK and, on each colour
      pin, bit i of that colour's half-h word, and nothing else. */
  lemma ColumnSetPins(p: PinConfig, top: RowWords, bottom: RowWords, h: nat, i: Offset, k: Offset)
    requires h < 2
    ensures k in ColumnSet(p, top, bottom, h, i) <==>
      k == p.clk ||
      (k == p.r1 && i in top.At(0, h)) ||
      (k == p.g1 && i in top.At(1, h)) ||
      (k == p.b1 && i in top.At(2, h)) ||
      (k == p.r2 && i in bottom.At(0, h)) ||
      (k == p.g2 && i in bottom.At(1, h)) ||
      (k == p.b2 && i in bottom.At(2, h))
  {
  }

  /** The latching SET write drives LAT and OE high and puts bit n of the
      address on the n-th address line, and nothing else. */
  lemma AddressSetPins(p: PinConfig, address: nat, k: Offset)
    ensures k in AddressSet(p, address) <==>
      k == p.lat || k == p.oe ||
      (k == p.a && Bit(address, 0) == 1) || (k == p.b && Bit(address, 1) == 1) ||
      (k == p.c && Bit(address, 2) == 1) || (k == p.d && Bit(address, 3) == 1) ||
      (k == p.e && Bit(address, 4) == 1)
  {
  }

  /** Addresses are below 16, so the E line is never driven high. */
  lemma AddressNeverSetsE(p: PinConfig, address: nat)
    requires WellFormed(p) && address < 16
    ensures p.e !in AddressSet(p, address)
  {
    ControlPinsDistinct(p);
    assert Pow2(4) == 16;
    HighBitsZero(address, 4, 4);
  }
}
