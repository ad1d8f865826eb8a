# GDEY075T7 e-paper driver in Dafny

A model of the small C driver for the 800 x 480 GDEY075T7 e-paper panel (UC8179 controller), together with the framebuffer drawing helpers of its two ESP-IDF example applications. The model has three layers.

- **Framebuffer and drawing** (`framebuffer.dfy`, `line.dfy`, `cint.dfy`). The framebuffer is a packed, row-major, 1-bit-per-pixel `seq<bv8>`, with the most significant bit leftmost and a set bit meaning black. The model covers `draw_pixel`, `draw_line` (integer Bresenham), `map_value` (C truncating division into `int16_t`) and `fill_color`.
  - The geometry is a parameter (`width % 8 == 0`), and the 800 x 480 panel is one instance of it.
  - The two example applications hold verbatim copies of these four functions. They are modelled once, and the table below cites whichever copy each member's lines come from.
- **Transport** (`transport.dfy`). This layer models `spi_write`, `write_command` and `write_data` in the four compile-time modes: software or hardware SPI, 3-wire or 4-wire.
  - The driver reaches hardware only through function pointers, so a write is the trace of calls it makes: GPIO writes, SPI transmits, GPIO reads and delays.
  - The panel's side of the wire is a receiver state machine. It samples MOSI on each rising clock edge while chip select is low, and it takes hardware transfers as the buffer handed over. The round-trip lemmas show that it recovers every byte with its command/data marking.
- **Command channel and protocol** (`channel.dfy`, `protocol.dfy`). `wait_display`, `send_init`, `send_refresh`, `send_sleep` and `gd_epaper_update_screen` produce sequences of command-level ops, which `Lower` maps to device calls.
  - The busy pin is an input: the levels that successive reads return.
  - The controller's view of the byte stream is `Decode`, which groups commands with their parameter bytes.
  - `UpdateOnTheWire` states the whole screen update as the panel receives it in any mode. It receives the fixed configuration, then one zero byte per buffer byte after command 0x10, then the buffer itself, in order, after command 0x13, then refresh and sleep, with exactly as many status polls as the busy readings dictate.

Where the design description and the code differ, the model follows the code:

- `draw_line` is not symmetric in its endpoints (`Line.LineNotSymmetric` exhibits the two pixel sets).
- `wait_display` leaves its loop on the first busy read that returns HIGH, not LOW.
- The hardware 3-wire transfer is handed a two-byte buffer with a length argument of 9. The model records exactly that and does not claim the same bits on the wire as the software path.

## Model

| member | source | states |
|---|---|---|
| Defs.ConfiguredMode | gd_epaper_defs.h:6-12 | the bus is hardware exactly when the hardware macro is defined, and the wiring is 3-wire exactly when the 3-wire macro is defined |
| Defs.DefaultModeIsSoftwareFourWire | gd_epaper_defs.h:6-12 | with neither macro defined the driver uses software 4-wire SPI |
| Defs.BufferSizeByRows | gd_epaper_defs.h:23 | with whole-byte rows the buffer size `W*H/8` is exactly `H` rows of `W/8` bytes |
| Defs.PanelGeometry | gd_epaper_defs.h:20-23 | the 800 x 480 panel has whole-byte rows, 100 bytes per row and 48000 bytes in all |
| Defs.BigEndian16 | gd_epaper_defs.h:25-28 | two bytes read high byte first give a 16-bit number whose quotient and remainder by 256 are the two bytes |
| Defs.ResolutionBytesEncodePanel | gd_epaper_defs.h:25-28 | the resolution bytes 03 20 / 01 E0 spell out 800 and 480 |
| Defs.ColorsArePixelPatterns | gd_epaper_defs.h:56-60 | BLACK (0xFF) has every pixel bit set and WHITE (0x00) has none |
| Defs.LevelValue | gd_epaper_defs.h:64-68 | LOW is 0 and HIGH is 1 |
| Defs.LevelValueRoundTrip | gd_epaper_defs.h:64-68 | reading a level back as `value & 0x01` recovers it |
| CInt.CDiv | examples/esp-idf-hardware/main.c:139 | C division: the magnitude is the floor of \|a\|/\|b\|, and the sign is negative exactly when the operand signs differ |
| CInt.CDivTruncatesTowardZero | examples/esp-idf-hardware/main.c:139 | C's `-7 / 2` is -3 where Euclidean division gives -4 |
| CInt.WrapInt16 | examples/esp-idf-hardware/main.c:137 | conversion to `int16_t` is congruent modulo 2^16 and leaves in-range values alone |
| Framebuffer.ByteIndex | examples/esp-idf-hardware/main.c:92 | for an in-panel pixel, `y*W/8 + x/8` lies inside the buffer |
| Framebuffer.IndexParts | examples/esp-idf-software/main.c:82 | the byte index is row `y`'s start plus `x/8`, and `x/8` is less than the row length |
| Framebuffer.PixelsDistinct | examples/esp-idf-hardware/main.c:92-96 | two different in-panel pixels never share both byte and bit |
| Framebuffer.WriteBit | examples/esp-idf-hardware/main.c:90-97 | the pixel's bit ends up set exactly when the colour is BLACK |
| Framebuffer.WriteBitKeeps | examples/esp-idf-software/main.c:80-87 | the or/and-not mask leaves every other bit of the byte as it was |
| Framebuffer.DrawPixel | examples/esp-idf-hardware/main.c:81-98 | the corrected `draw_pixel`: off-panel coordinates leave the buffer unchanged; an in-panel write changes only bit `7 - x%8` of byte `y*W/8 + x/8`, setting it for BLACK and clearing it for any other colour |
| Framebuffer.DrawPixelReadBack | examples/esp-idf-software/main.c:79-87 | after a write, the pixel reads back as the colour written and every other pixel reads as before |
| Framebuffer.DrawPixelAsWritten | examples/esp-idf-hardware/main.c:83-87 | the `>` guard as written: past-the-edge coordinates (`x > W` or `y > H`) leave the buffer alone, in-panel ones behave as the corrected write, and a write it lets through past the end of the buffer is reported with its index |
| Framebuffer.AsWrittenRightEdgeSpills | examples/esp-idf-software/main.c:73-77 | `x == W` passes the guard and blackens pixel (0, y+1) of the next row |
| Framebuffer.AsWrittenBottomEdgeOverruns | examples/esp-idf-hardware/main.c:83 | `y == H` passes the guard and indexes at or past the end of the buffer |
| Framebuffer.PanelGuardCounterexamples | examples/esp-idf-software/main.c:73 | on the 800 x 480 panel, (0, 480) writes byte 48000 of a 48000-byte buffer, and (800, 0) paints pixel (0, 1) |
| Framebuffer.PaintPointsEffect | examples/esp-idf-hardware/main.c:109-112 | after painting a list of points in one colour, an in-panel pixel has that colour exactly when it is one of the points, and is unchanged otherwise |
| Framebuffer.PaintPointsAsWritten | examples/esp-idf-hardware/main.c:109-112 | painting points with `draw_pixel` as written gives exactly the corrected painting whenever every point is inside the panel; a write past the end of the buffer ends the run |
| Framebuffer.PaintPointsAppend | examples/esp-idf-software/main.c:99-102 | painting `a + b` is painting `a` and then `b` |
| Framebuffer.ByteOfUniformBits | examples/esp-idf-software/main.c:136-138 | a byte whose eight bits all agree is 0xFF or 0x00 |
| Framebuffer.PixelOfBit | examples/esp-idf-software/main.c:134-140 | every bit of the buffer is the bit of some in-panel pixel, so the fill loops reach all of it |
| Framebuffer.FillColor | examples/esp-idf-hardware/main.c:142-151 | after the fill loops every byte is 0xFF for BLACK and 0x00 for any other colour |
| Framebuffer.MapValue | examples/esp-idf-hardware/main.c:137-140 | the truncating formula: an input between the input bounds maps between the output bounds |
| Framebuffer.MapValueExact | examples/esp-idf-hardware/main.c:137-140 | for an input inside its range the C `int` result already lies in `int16_t`: no overflow, and the conversion on return changes nothing |
| Framebuffer.ScaledOffsetBetween | examples/esp-idf-software/main.c:129 | a truncated ratio times an offset within the input range stays within the output range |
| Framebuffer.DemoCoordinates | examples/esp-idf-software/main.c:197-201 | at the demo's call sites `map_value` yields `3*v` for x (at most 765) and `v` for y, always inside the panel |
| Line.StartOnTrack | examples/esp-idf-hardware/main.c:102-106 | the initial error `deltaX - deltaY` satisfies the Bresenham invariant |
| Line.ErrorStep | examples/esp-idf-hardware/main.c:113-128 | one update of `error` keeps the invariant and moves at least one coordinate |
| Line.StepProgress | examples/esp-idf-software/main.c:103-122 | each iteration keeps the invariant (which includes staying inside the endpoint box), moves each coordinate by at most one, and strictly shortens the remaining distance |
| Line.Advance | examples/esp-idf-hardware/main.c:113-133 | from a cursor on track and short of the target, the two error updates of the loop body keep the invariant, strictly shorten the remaining distance, and leave exactly the rest of the walk to draw |
| Line.DrawLine | examples/esp-idf-hardware/main.c:100-135 | `draw_line`, drawing with the corrected `draw_pixel`, terminates and paints exactly the reference point list (the end point first, then the walk from the start), so both endpoints are coloured and a degenerate line is a single pixel write |
| Line.LinePixels | examples/esp-idf-software/main.c:90-125 | pixel by pixel: a pixel is coloured iff it is on the line, and all other pixels are unchanged |
| Line.DrawLineAsWritten | examples/esp-idf-software/main.c:90-125 | `draw_line` over the `>`-guarded `draw_pixel` paints exactly what the corrected drawing paints whenever both endpoints are inside the panel |
| Line.LineGuardCounterexamples | examples/esp-idf-hardware/main.c:100-112 | on the panel, `draw_line(800, 0, 800, 0, BLACK)` blackens pixel (0, 1), which the corrected drawing leaves alone, and `draw_line(0, 480, 0, 480, BLACK)` writes byte 48000 |
| Line.DemoLinesAgree | examples/esp-idf-hardware/main.c:235-239 | the demo's lines, with endpoints mapped from random bytes, are drawn the same by the code as written and by the corrected drawing |
| Line.LineEndpoints | examples/esp-idf-software/main.c:99-102 | both endpoints are among the points drawn |
| Line.DegenerateLine | examples/esp-idf-hardware/main.c:109-110 | a line from a point to itself draws just that point |
| Line.WalkInBox | examples/esp-idf-hardware/main.c:110-133 | the moving point never leaves the box spanned by the endpoints, so `+= sign` never overshoots or wraps |
| Line.LineInBox | examples/esp-idf-software/main.c:100-123 | no point drawn lies outside the box spanned by the endpoints |
| Line.WalkLength | examples/esp-idf-hardware/main.c:110 | the remaining iterations are at least the larger remaining delta and at most their sum |
| Line.LineIterations | examples/esp-idf-software/main.c:100 | the loop body runs at least max(deltaX, deltaY) and at most deltaX + deltaY times |
| Line.WalkAlongRow | examples/esp-idf-hardware/main.c:114-118 | with `deltaY == 0` the walk covers each column from the cursor up to, but excluding, the end |
| Line.WalkAlongColumn | examples/esp-idf-hardware/main.c:124-128 | with `deltaX == 0` the walk covers each row from the cursor up to, but excluding, the end |
| Line.HorizontalLine | examples/esp-idf-software/main.c:104-108 | a horizontal line draws exactly the inclusive run of its row between the endpoints |
| Line.VerticalLine | examples/esp-idf-software/main.c:114-118 | a vertical line draws exactly the inclusive run of its column between the endpoints |
| Line.LineDownRight | examples/esp-idf-software/main.c:103-118 | from (x, y) to (x+2, y+1) the points are the end, the start and (x+1, y) |
| Line.LineUpLeft | examples/esp-idf-hardware/main.c:113-128 | from (x+2, y+1) to (x, y) the points are the end, the start and (x+1, y+1) |
| Line.LineNotSymmetric | examples/esp-idf-hardware/main.c:100-135 | swapping the endpoints changes the pixel set |
| Transport.FromBitLevels | gd_epaper.c:41-57 | shifting in the eight levels sent MSB first rebuilds the byte |
| Transport.TopLevel | gd_epaper.c:46 | after `i` shifts, `value & 0x80` is bit `7 - i` of the original value |
| Transport.ClockOut | gd_epaper.c:41-57 | the bit loop emits one CLK low / MOSI / CLK high cycle per bit, MSB first |
| Transport.SpiWrite | gd_epaper.c:17-72 | `spi_write` emits exactly the frame of its mode: a chip-select frame with an optional discriminator in software, or one transfer in hardware |
| Transport.WriteCommand | gd_epaper.c:76-83 | `write_command` is DC low (in 4-wire modes) followed by `spi_write(value, true)` |
| Transport.WriteData | gd_epaper.c:87-94 | `write_data` is DC high (in 4-wire modes) followed by `spi_write(value, false)` |
| Transport.SelectedShape | gd_epaper.c:20-58 | CS low first and high last and nowhere else; one rising clock edge per level; and the level on MOSI before the i-th rising edge is the i-th level |
| Transport.SoftwareFrameShape | gd_epaper.c:24-57 | a software byte write has 8 rising edges (9 in 3-wire, the first carrying LOW for a command and HIGH for data), and MOSI before the i-th data edge is bit `7 - i` |
| Transport.HardwareFrameShape | gd_epaper.c:60-71 | hardware writes are one transfer and touch no GPIO: `[value]` with 8, or `[flag, value]` with 9, where the flag is 0 exactly for a command |
| Transport.DcDiscipline | gd_epaper.c:76-94 | in 4-wire modes DC is written once, first, LOW for a command and HIGH for data; in 3-wire modes DC is never written |
| Transport.ReceiveSelected | gd_epaper.c:22-58 | a chip-select frame seen from between frames latches what its levels spell and ends between frames |
| Transport.ByteRoundTrip | gd_epaper.c:17-94 | in all four modes the receiver latches exactly the byte written, with its command/data marking |
| CommandChannel.OpRoundTrip | gd_epaper.c:76-94 | one op latches its byte if it has one, and nothing otherwise |
| CommandChannel.ChannelRoundTrip | gd_epaper.c:76-94 | any op sequence, lowered to device calls, latches exactly its command and data bytes in order |
| Protocol.DecodeEncode | gd_epaper.c:128-153 | grouping latched words at command words recovers every command with its parameter bytes |
| Protocol.FirstHigh | gd_epaper.c:104-111 | the position of the first HIGH reading, with only LOW before it |
| Protocol.WaitDisplay | gd_epaper.c:101-112 | the do-while polls through the first HIGH reading, then pauses 200, and consumes exactly those readings |
| Protocol.WaitPolls | gd_epaper.c:104-111 | with the first HIGH at index k there are exactly k+1 polls, each `71`, a read and a 100 pause; the first k reads are LOW and the last is HIGH |
| Protocol.WaitedHighCount | gd_epaper.c:101-112 | a wait consumes exactly one HIGH reading |
| Protocol.WaitWords | gd_epaper.c:106 | a wait sends one parameterless status command per poll |
| Protocol.SendInit | gd_epaper.c:119-154 | `send_init` is the reset pulse (LOW, 15, HIGH, 15), `01[07 07 3F 3F]`, `04`, a wait, then `00[1F] 61[03 20 01 E0] 15[00] 50[10 07] 60[22]` |
| Protocol.InitWords | gd_epaper.c:128-153 | `send_init` latches power up, one status command per poll, then the configuration |
| Protocol.SendRefresh | gd_epaper.c:160-165 | `send_refresh` is `12`, a 20 pause, then a wait |
| Protocol.RefreshWords | gd_epaper.c:162-164 | `send_refresh` latches `12` and then the status polls |
| Protocol.SendSleep | gd_epaper.c:171-180 | `send_sleep` is `50[F7] 02`, a wait, then `07[A5]` |
| Protocol.SleepWords | gd_epaper.c:173-179 | `send_sleep` latches power down, the status polls and deep sleep |
| Protocol.SendZeros | gd_epaper.c:189-192 | the first transfer loop writes one zero data byte per iteration |
| Protocol.SendBuffer | gd_epaper.c:195-198 | the second transfer loop writes the buffer's bytes in order |
| Protocol.UpdateScreen | gd_epaper.c:183-202 | the update is init, `10` and N zeros, `13` and the buffer, refresh, sleep; its three waits consume exactly three HIGH readings |
| Protocol.UpdateWords | gd_epaper.c:185-201 | the update latches exactly the encoding of its frame list |
| Protocol.UpdateOnTheWire | gd_epaper.c:183-202 | in any mode the panel groups what it receives into exactly the update's frames: configuration, N zeros after `10`, the buffer in order after `13`, refresh, sleep, and the status polls of each wait |
| Protocol.UpdateTransfers | gd_epaper.c:188-198 | in the frame list the old-data frame is BufferSize zero bytes, and the frame after it carries the buffer unchanged |
| Protocol.PanelTransfers | gd_epaper.c:189 | for the 800 x 480 panel both transfers are 48000 bytes long |
| Protocol.UpdateStartsWithReset | gd_epaper.c:122-125 | the update opens with the reset pulse, before any byte reaches the controller |

## Left out

- ESP-IDF platform glue is left out: the `gpio_read`/`gpio_write`/`delay_us`/`spi_write` wrappers, `init_spi`, `init_gpio`, `init_display`, `app_main`, `getrandom` and `vTaskDelay`. The function pointers they install appear only as trace events.
- Timing is left out. The `delay_ns` spin loop and the `delay_us(2)` call in the 3-wire software path (gd_epaper.c:38, a function the file does not define) emit nothing. The delays through the device's delay pointer are `Delay(n)` events with their literal argument, and elapsed time is not modelled.
- Non-termination of `wait_display` is excluded by the requires. The loop spins for ever if the busy pin never reads HIGH, so `Protocol.WaitDisplay` requires a HIGH among the readings and `Protocol.UpdateScreen` requires three.
- The `spi_write_fptr` return code is ignored by the driver, and the model does not invent error propagation.
- `gd_epaper.h` declares `gd_epaper_clean_screen`, `gd_epaper_draw_pixel`, `gd_epaper_move_cursor` and `gd_epaper_write_string`. Their bodies are not part of this model.
- The hardware 3-wire bit order on the wire depends on the platform SPI driver. Only the buffer and length handed over are modelled.
- The length argument of `spi_write_fptr` is documented as a byte count, but the driver passes 8 and 9. The model records the literal values.
- The device declares `delay_ms_fptr` while the driver calls `delay_us_fptr`, and the hardware example assigns `&buff` to a `uint8_t *`. The model follows the evident intent: one delay pointer, and one buffer.
- The `int32_t` index arithmetic of `draw_pixel` is exact in the model. With the panel's geometry the index stays below 2^31; larger generic geometries, where it could overflow, are not modelled.
- Line.DrawLine paints through the corrected `draw_pixel`. In the C, `draw_line(800, 0, 800, 0, BLACK)` blackens pixel (0, 1), and a line on row 480 writes past the buffer; `Line.DrawLineAsWritten` models that, and `Line.DemoLinesAgree` shows the two agree at the demo's call sites.
- Line.LinePixels states the pixel effect of the corrected drawing. At column 800 and row 480 it differs from the C, as `Line.LineGuardCounterexamples` shows.
- Framebuffer.PaintPointsEffect paints with the corrected `draw_pixel`. A point at x == width leaves pixel (0, y + 1) unchanged here, but the C blackens it (`Framebuffer.AsWrittenRightEdgeSpills`).
- Framebuffer.MapValue computes in unbounded integers and then converts to `int16_t`. The C computes in 32-bit `int`, and an input outside its range can overflow there: `map_value(32767, -32768, -32767, -32768, 32767)` multiplies 65535 by 65535. That is undefined behaviour in C, and the model gives it a defined value. `Framebuffer.MapValueExact` shows that no input inside its range overflows.
- The per-bit masks `1 << (7 - x % 8)` are computed in `int` and then narrowed to the byte. Only the low eight bits matter, and the model works on bytes directly.

## Findings

| source | as written | input that shows it | evidently intended | confidence | as-written member | corrected member |
|---|---|---|---|---|---|---|
| examples/esp-idf-hardware/main.c:83 | `if (x > GD_EPAPER_WIDTH \|\| y > GD_EPAPER_HEIGHT) return;` admits `x == 800` and `y == 480` | `draw_pixel(0, 480, BLACK)` writes byte 48000 of the 48000-byte buffer; `draw_pixel(800, 0, BLACK)` blackens pixel (0, 1) | `x >= GD_EPAPER_WIDTH \|\| y >= GD_EPAPER_HEIGHT` | not executed | Framebuffer.DrawPixelAsWritten | Framebuffer.DrawPixel |
| examples/esp-idf-software/main.c:73 | the same `>` guard in the verbatim copy | the same two calls | the same `>=` guard | not executed | Framebuffer.PanelGuardCounterexamples | Framebuffer.DrawPixel |
| examples/esp-idf-hardware/main.c:109 | `draw_line` paints through the `>`-guarded `draw_pixel`, so a line reaching column 800 or row 480 inherits the off-by-one | `draw_line(800, 0, 800, 0, BLACK)` blackens pixel (0, 1); `draw_line(0, 480, 0, 480, BLACK)` writes byte 48000 | the `>=` guard in `draw_pixel` | not executed | Line.LineGuardCounterexamples | Line.DrawLine |
