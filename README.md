# MatrixDriver in Dafny

A verified model of the rendering core of MatrixDriver, a driver for 64 x 32
RGB LED panels that speak the HUB75 protocol, as built for the Adafruit
MatrixPortal M4. The driver keeps two bit-plane buffers of shape
[5 planes][32 rows][3 colours][2 halves] of 32-bit words. It has four parts:

- The quantizer reduces 8-bit channels to 5-bit gamma-corrected levels.
- `set_pixel` ORs each level's bits into the write buffer, plane by plane.
- `display_matrix` refreshes the panel by binary code modulation: plane z is
  shown 2^z times, and each pass strobes the 16 row pairs (j, j + 16).
- `clock_row` shifts one row pair into the panel and latches it, through the
  OUTSET/OUTCLR registers of one GPIO port.

`draw_bitmap` ties them together. It clears the write buffer, then draws the
2048 pixels, refreshing the display before every fourth column, and finally
swaps the two buffers.

How the model is built:

- **Words** (`words.dfy`). A 32-bit word is the set of its 1-bit positions.
  The driver only builds words from single bits with `|`, clears bits under
  a mask and tests single bits. Under this reading, `MASK(k)` is `{k}`, `|`
  is union, a clear is set difference, and `(w >> i) & 1` is membership.
- **Quantizer** (`quantizer.dfy`). `convert_bitdepth` becomes the integer
  expression `(v * v / 255) * 31 / 255`. A lemma proves it equal to the
  source's formula evaluated in exact real arithmetic.
- **Port** (`port.dfy`). The GPIO port is a class whose ghost field
  `writes` records every register write in order.
- **Row shifter** (`row_shifter.dfy`). The function `RowWrites` gives the
  195 writes of one `clock_row` call.
- **Panel** (`panel.dfy`). This is a pin-level meaning of those writes: a
  rising CLK edge shifts the six colour inputs into a 64-column shift
  register, and a rising LAT edge copies the register into the output latch
  and selects the row addressed by A..E. The first column shifted in ends at
  position 0. Against this meaning, one `clock_row` call latches exactly the
  row pair's 64 columns at the given address.
- **Schedule** (`schedule.dfy`). This is the order of strobes in one
  `display_matrix` call: `Sweep()`, one `Strobe(plane, address, top,
  bottom)` per `clock_row` call. Counting lemmas prove the brightness each
  pixel gets.
- **Bitmap** (`bitmap.dfy`). This says which buffer word and bit each
  bitmap byte lands in, and which words a fully drawn bitmap produces
  (`FrameWord`).
- **Driver** (`driver.dfy`). The class `MatrixDriver` has the two buffers as
  `array4<Word>` fields. Its methods follow the source's loops, each proved
  against the functions above. `DrawBitmap` ends with two facts:
  - the display buffer holds the bit-plane decomposition of the quantized
    bitmap;
  - the port has received exactly 512 full refreshes of the previous frame.

## Model

| member | source | states |
|---|---|---|
| Quantizer.ConvertBitdepth | src/MatrixDriver.cpp:165-170 | The level is in 0..31; 0 maps to 0 and 255 maps to exactly 31. |
| Quantizer.ConvertMatchesRealFormula | src/MatrixDriver.cpp:165-170 | For every channel in 0..255, the integer form equals the source's formula evaluated in exact real arithmetic, truncated at both stages. |
| Quantizer.ConvertMonotone | src/MatrixDriver.cpp:165-170 | A brighter channel never gives a lower level. |
| Quantizer.ConvertDecomposes | src/compatibility/Defines.h:30-31 | Every level is the weighted sum of its 5 low bits, and its bits at planes 5 and above are 0, so 5 planes hold it without loss. |
| Quantizer.EndpointPlanes | src/MatrixDriver.cpp:165-170 | Channel 255 has a 1 in each of the 5 planes; channel 0 has a 1 in no plane. |
| Bits.ShiftedBit | src/MatrixDriver.cpp:66-73 | After z rounds of `>>= 1`, the running value's low bit is bit z of the level. |
| Pins.MatrixPortalM4WellFormed | src/compatibility/MatrixPortalM4.h:9-22 | The MatrixPortal M4 assignment puts the 14 HUB75 signals on 14 different pins. |
| Pins.RgbMaskPins | src/MatrixDriver.cpp:4 | `_MD_RGB_MASK` holds exactly the six colour pins. |
| Pins.AdrMaskPins | src/MatrixDriver.cpp:5 | `_MD_ADR_MASK` holds exactly the five address pins. |
| Port.GpioPort.Set | src/compatibility/MatrixPortalM4.h:7 | A write to OUTSET appends one set write with its mask to the trace. |
| Port.GpioPort.Clear | src/compatibility/MatrixPortalM4.h:8 | A write to OUTCLR appends one clear write with its mask to the trace. |
| RowShifter.ColumnSetPins | src/MatrixDriver.cpp:95-101 | The SET value for column i of half h drives CLK high. On R1, G1, B1 it carries bit i of the top row's half-h words, and on R2, G2, B2 those of the bottom row. It drives no other pin. |
| RowShifter.AddressSetPins | src/MatrixDriver.cpp:139-144 | The latching SET value drives LAT and OE high, puts bit n of the address on the n-th line of A..E, and drives no other pin. |
| RowShifter.AddressNeverSetsE | src/MatrixDriver.cpp:139-144 | For any address below 16 (the only addresses the caller passes, line 76), the E line is not driven high. |
| RowShifter.ColumnAppended | src/MatrixDriver.cpp:91-108 | Each round of a column loop extends the half's writes by: clear RGB, set data with CLK, clear CLK. |
| RowShifter.LatchAppended | src/MatrixDriver.cpp:137-150 | The two column loops, then clear address, set LAT, OE and address, then clear LAT and OE, make up exactly `RowWrites`. |
| RowShifter.RowWritesInOrder | src/MatrixDriver.cpp:91-150 | The writes are the loop over half 0, then the loop over half 1, then the three latch writes, in program order. |
| RowShifter.RowWritesLayout | src/MatrixDriver.cpp:81-151 | Writes 3x .. 3x+2 are column x's three writes, taking bit x % 32 of the half x / 32 words. Writes 192..194 are the latch writes. |
| RowShifter.HalfWritesAt | src/MatrixDriver.cpp:91-108 | The loop over half h issues 3 writes per column, and write 3i + r is write r of column i. |
| Panel.ApplyPin | src/compatibility/MatrixPortalM4.h:7-8 | A set write drives its mask's pins high and a clear write drives them low; every other pin keeps its level. |
| Panel.ColumnStep | src/MatrixDriver.cpp:93-107 | One column's three writes shift exactly that column's six bits into the register. The panel is left idle, and the latch and the row are untouched. |
| Panel.HalfStep | src/MatrixDriver.cpp:91-134 | The 32 rounds of a column loop shift in those 32 columns in order, behind what the register held. The latch is untouched. |
| Panel.AddressRead | src/MatrixDriver.cpp:137-150 | After the address is cleared and the latching value set, A..E read back the address, and they still do after LAT and OE are cleared. |
| Panel.LatchStep | src/MatrixDriver.cpp:136-150 | The latch writes copy the register into the latch and select the address. They end with LAT and OE low. |
| Panel.RowLatches | src/MatrixDriver.cpp:81-151 | From any idle panel, `clock_row` latches exactly the row pair's 64 columns, column 0 first. It selects the address and leaves output enabled, whatever the register held before. |
| Panel.RowSamplesAt | src/MatrixDriver.cpp:83-127 | Latched column x carries bit x % 32 of the half x / 32 words of the two rows. |
| Schedule.PassStrobes | src/MatrixDriver.cpp:157-159 | Every strobe of a pass is on that plane, has an address below 16, and reads rows (address, address + 16). |
| Schedule.HeldRepeats | src/MatrixDriver.cpp:156-160 | Plane z is held for exactly `1 << z` passes in a row. |
| Schedule.PlanesStrobes | src/MatrixDriver.cpp:155-160 | Every strobe of planes 0..n-1 is on one of those planes, with an address below 16 and row pair (address, address + 16). |
| Schedule.SweepLength | src/MatrixDriver.cpp:153-162 | One `display_matrix` call makes 16 x (2^5 - 1) = 496 `clock_row` calls. |
| Schedule.SweepPlaneCount | src/MatrixDriver.cpp:155-160 | Plane z is strobed 16 x 2^z times per sweep (z < 5), and any other plane never. |
| Schedule.PlanesOrdered | src/MatrixDriver.cpp:155-160 | Strobes come in non-decreasing plane order. |
| Schedule.CountPass | src/MatrixDriver.cpp:157-159 | A pass strobes only its own plane and shows each of the 32 rows exactly once. |
| Schedule.PlanesLitCount | src/MatrixDriver.cpp:155-160 | Over planes 0..n-1, a pixel is lit in as many strobes as the weighted sum of its lit planes. |
| Schedule.SweepShowsLevel | src/MatrixDriver.cpp:153-162 | A pixel whose plane bits are the bits of level q is lit in exactly q of the 496 strobes. |
| Bitmap.ColumnSlot | src/MatrixDriver.cpp:60-64 | Column x sits in half 0 or 1 at offset 0..31, with 32 x half + offset = x. |
| Bitmap.ColumnSlotInverse | src/MatrixDriver.cpp:60-64 | The slot of column 32h + o is (h, o), so the mapping is a bijection. |
| Bitmap.ColumnSlotDivMod | src/MatrixDriver.cpp:60-64 | The slot is (x / 32, x % 32). Column 31 is in half 0 at offset 31 and column 32 in half 1 at offset 0. |
| Bitmap.PixelIndex | src/MatrixDriver.cpp:40 | The red byte of any pixel and the two bytes after it lie within the 6144-byte bitmap. |
| Bitmap.PixelIndexInjective | src/MatrixDriver.cpp:40-41 | Two (pixel, colour) pairs read the same byte only when they are the same pair. |
| Bitmap.PartialWordBits | src/MatrixDriver.cpp:35-44 | Once columns 0..n-1 of a half are drawn, bit k of a word is bit z of column 32h + k's level if k < n, and 0 otherwise. |
| Bitmap.FrameWordBits | src/MatrixDriver.cpp:32-47 | In a drawn frame, bit x % 32 of word [z][y][c][x / 32] is bit z of the level of colour c at (x, y). |
| Bitmap.DrawnStep | src/MatrixDriver.cpp:40-41 | Drawing pixel (j, i) ORs plane z's mask into word [z][i][c][j / 32] and changes no other word. |
| Bitmap.BlackFrame | src/MatrixDriver.cpp:32-47 | An all-zero bitmap draws an all-zero frame. |
| Bitmap.FrameDecomposes | src/MatrixDriver.cpp:32-47 | Summing a drawn frame's 5 planes with weights 2^z gives back every pixel's quantized level. |
| Driver.ClearThenSetPixel | src/MatrixDriver.cpp:56-73 | In a buffer left by `clear_buffer` and then one `set_pixel(x, y, r, g, b)`, bit x % 32 of word [z][y][c][x / 32] is bit z of the quantized channel c. Every other bit of that word is 0, and every other word is 0. |
| Driver.DrawnPixel | src/MatrixDriver.cpp:40-41 | Setting pixel (j, i) from bytes (64i + j) x 3 .. + 2 into a buffer drawn up to (i, j) gives the buffer drawn up to (i, j + 1). |
| Driver.FrameBrightness | src/MatrixDriver.cpp:153-162 | Over one refresh, each subpixel of a drawn frame is lit in exactly as many strobes as its quantized level. |
| Driver.StrobeRowAt | src/MatrixDriver.cpp:158 | The strobe of address j of plane z writes `clock_row`'s output for rows j and j + 16 of that plane. |
| Driver.RefreshStep | src/MatrixDriver.cpp:36-39 | Column j adds one refresh exactly when j % 4 == 0, so a 64-column row refreshes 16 times. |
| Driver.RowsStep | src/MatrixDriver.cpp:35-44 | Each row adds its 16 refreshes to those of the rows before it. |
| Driver.DrawnStart | src/MatrixDriver.cpp:33 | A cleared buffer is the state with nothing drawn. |
| Driver.DrawnRowDone | src/MatrixDriver.cpp:36-43 | A row with all 64 columns drawn is the start of the next row. |
| Driver.DrawnAll | src/MatrixDriver.cpp:35-44 | With all 32 rows drawn, every word is the frame's word. |
| Driver.MatrixDriver.constructor | src/MatrixDriver.cpp:7-26 | Both buffers are fresh, distinct and zeroed, and nothing has been written to the port. |
| Driver.MatrixDriver.SetPixel | src/MatrixDriver.cpp:51-74 | Only the write buffer changes. Each word [z][y][c][x / 32] gains bit z of the quantized channel c at offset x % 32, and every other word is unchanged. |
| Driver.MatrixDriver.OrPlaneBits | src/MatrixDriver.cpp:67-69 | One round ORs a word into each colour's word of one plane, row and half, and changes nothing else. |
| Driver.MatrixDriver.ClearBuffer | src/MatrixDriver.cpp:173-182 | Every word of the write buffer is 0. The display buffer is outside its frame. |
| Driver.MatrixDriver.SwapBuffer | src/MatrixDriver.cpp:185-189 | The two buffer references are exchanged and no word is copied, so two swaps restore the original pair; the class invariant is kept. |
| Driver.MatrixDriver.ClockRow | src/MatrixDriver.cpp:81-151 | The port receives exactly `RowWrites(address, row one, row two)` appended to its trace. |
| Driver.MatrixDriver.ShowPlane | src/MatrixDriver.cpp:157-159 | One pass over plane i appends the writes of 16 strobes, addresses 0..15, rows (j, j + 16) of the display buffer. |
| Driver.MatrixDriver.ShowPlaneWeighted | src/MatrixDriver.cpp:156-160 | Plane i is passed over `1 << i` times. |
| Driver.MatrixDriver.DisplayMatrix | src/MatrixDriver.cpp:153-162 | The port receives the writes of the whole `Sweep()` over the display buffer. |
| Driver.MatrixDriver.DrawPixel | src/MatrixDriver.cpp:37-41 | Pixel (j, i) is read from bytes (64i + j) x 3 .. + 2 and drawn into the write buffer. A full refresh comes first exactly when j % 4 == 0. |
| Driver.MatrixDriver.DrawRow | src/MatrixDriver.cpp:36-43 | Row i is drawn column by column, and the display is refreshed 16 times. |
| Driver.MatrixDriver.DrawRows | src/MatrixDriver.cpp:35-44 | After all rows, every word of the write buffer is the frame's word, and the display was refreshed 512 times. |
| Driver.MatrixDriver.DrawBitmap | src/MatrixDriver.cpp:32-47 | The buffers are swapped, so the display buffer holds exactly the frame of the bitmap and the old display contents become the write buffer. The port received 512 refreshes of the previous display contents. |

## Left out

- The direction-register write `_MD_PORT_OUTPUT` in the constructor (src/MatrixDriver.cpp:9) is not modelled: it configures hardware and has no effect on any modelled value.
- The `nop` settle delays (src/MatrixDriver.cpp:104, 130, 146-147) are timing only and are not modelled. Real-time behaviour, refresh rate and flicker are not modelled either: the model counts strobes, not time.
- The `Panel` model selects the row address only on a rising LAT edge. A HUB75 row decoder follows A..E continuously, and the address is cleared at src/MatrixDriver.cpp:137 while OE is still low from line 150 of the previous call. So rows 0 and 16 may briefly show the previously latched data, and the model cannot see that.
- The memory-mapped registers are not modelled. The port is a trace of OUTSET/OUTCLR writes, and what a panel does with them is the `Panel` model above, not hardware.
- The nested `calloc` allocation (src/MatrixDriver.cpp:12-25) becomes two fresh zero-filled `array4` values; allocation failure is not modelled.
- Quantizer.ConvertMatchesRealFormula: compares with the formula in exact real arithmetic, not with IEEE double rounding of `pow` and `/`. Gamma 2 and 5 bits are fixed constants, and other gamma values or bit depths are not modelled.
- Driver.MatrixDriver.SetPixel: requires x in 0..63, y in 0..31 and channels in 0..255, the range the comment at src/MatrixDriver.cpp:49 documents. Bad coordinates are undefined behaviour in C++: a negative shift or one of 32 or more at lines 67-69, or a row y outside the buffer. Channels outside 0..255 are defined and are not covered by the model. A channel of 263 quantizes to level 32, whose low 5 bits are all that the 5-round loop stores, so that pixel is drawn black. A negative channel quantizes like its absolute value.
- Driver.MatrixDriver.DrawBitmap: requires a bitmap of exactly 6144 channel values in 0..255, which the source assumes and does not check.
- Driver.MatrixDriver.ClockRow: receives the six words of each row by value instead of by reference into the display buffer. The display buffer does not change during a refresh, so the two agree.
- The loops of `display_matrix`, `draw_bitmap` and `set_pixel` are split into helper methods, each with its own contract: `ShowPlane`, `ShowPlaneWeighted`, `DrawPixel`, `DrawRow`, `DrawRows` and `OrPlaneBits`.
- Concurrency between a refresh and a swap is not modelled. The driver is single-threaded and sequences them itself.
- bmp/converter.py is not part of this model: it is an image-loading script built on a foreign library.
