# Packed 3-bit VGA framebuffer and its drawing primitives, in Dafny

The firmware drives a 640x480 VGA screen from an RP2040. Three PIO state
machines generate the horizontal sync, the vertical sync and the colour
pixels. A DMA channel streams a buffer of 30720 32-bit words to the colour
machine. Each word holds ten 3-bit pixels in bits 0-29, and bits 30-31 are
padding. Pixel (x, y) has bit number n = 1920*y + 3*x. It lives in word
n/30 - 1 at bit offset n%30, and the ten pixels with n/30 == 0 wrap to the
last word. The drawing routines are read-modify-write updates of that
buffer: draw_pix, fill_screen, draw_fastHline, draw_fastVline, fill_rect,
draw_rect, draw_circle and fill_disk.

The model has eight modules.

- `Packing` (packing.dfy): the bit layout of one word. Words are naturals,
  and AND, OR, XOR and shift are defined one octal digit (one pixel slot)
  at a time. It also holds the mask-building loops.
- `Addressing` (addressing.dfy): the word index and bit offset of a pixel,
  and the facts about them. Every on-screen pixel is in bounds, the mapping
  is one-to-one and onto the 307200 slots, and a row is 64 words.
- `Screen` (screen.dfy): the picture a buffer shows (`PixelAt`) and the
  specification of every drawing routine. `Repaints(before, after, region,
  col)` says the region shows `col` and every other pixel is unchanged.
  `RepaintsDeterminate` shows that such a contract fixes the whole new
  buffer.
- `Shapes` (shapes.dfy): the region each routine repaints, as a function of
  its arguments, with the geometric facts about it. These cover clamping,
  symmetry, the half-open ends, and circle and disk accuracy.
- `Midpoint` (midpoint.dfy): the integer midpoint loop shared by
  draw_circle and fill_disk, as the sequence of pen states it visits, with
  its invariant and termination.
- `Lines` (lines.dfy): the words the two line routines write, and the
  as-written vertical-line index of the finding below.
- `Graphics` (graphics.dfy): the `Framebuffer` class. Its `array<nat>`
  holds the words, and one method per routine updates the array in place.
  Each method is proved against `Repaints` and the region from `Shapes`.
- `Pio` (pio.dfy): an interpreter for the PIO instructions the three
  sequencer programs use. It proves the clock, line and pixel counts of one
  pass of each program's loop against the 640x480 at 60 Hz entry of the
  VESA Display Monitor Timing standard: 800 clocks per line with a 96-clock
  sync pulse, and 525 lines per frame with a 2-line sync pulse.

Behaviour of the code a reader might not expect:

- draw_fastHline fills [x1, x2) of the clamped row, so the right end point
  is never drawn and column 639 is never set (`Shapes.HlineMissesLastColumn`).
- draw_fastVline leaves out its lower end point.
- draw_rect misses its corner (x2, y2) (`Shapes.RectMissesCorner`).
- fill_disk's spans stop short of x + |x_pos|, so column x + r of the disk
  is never filled (`Shapes.DiskSkipsColumn`).
- draw_pix clamps nothing.
- fill_rect passes its rows to draw_fastHline, which clamps them. Rows above
  or below the screen therefore fold onto row 0 or row 479
  (`Shapes.FillAboveScreen`).
- In the vertical program `set(y, 9)` and `set(y, 31)` run their porch loops
  10 and 32 times. The front porch is therefore 10 lines, and the back porch
  is 32 lines plus one trailing wait. The VESA entry has a 10-line front
  porch and a 33-line back porch, and the frame totals its 525 lines.
- In the horizontal program the sync pulse starts after 657 clocks (one
  `mov` and 656 jumps), where the VESA entry has 656 (640 visible plus a
  16-clock front porch). The back porch is 47 clocks (32 + 14 + 1), where
  the VESA entry has 48. The line total of 800 and the pulse width of 96
  are the VESA ones.

## Model

| member | source | states |
|---|---|---|
| Addressing.BitOffset | main_code.py:177 | the bit offset of a pixel lies in [0, 30) and is a multiple of 3, so it is one of 0, 3, ..., 27 |
| Addressing.AddressOnScreen | main_code.py:175-177 | for an on-screen pixel, n/30 is its ten-pixel group, the word index is the group minus one (the last word for group 0) and lies in [0, 30719], the offset is 3*(x mod 10), and the index is the last word exactly when y == 0 and x < 10 |
| Addressing.OnScreenNoWrap | main_code.py:175 | for an on-screen pixel the bit number n fits in a signed 32-bit word (and lies in [0, 921600)), so viper's wrapping arithmetic computes the same n as the model |
| Addressing.OnScreenInBounds | main_code.py:176 | every write draw_pix makes for an on-screen pixel is inside the buffer |
| Addressing.InBoundsIff | main_code.py:176 | the write stays in the buffer exactly when n/30 <= 30720, and every bit number below 30 (the first ten pixels, and coordinates before them) writes the last word |
| Addressing.AliasOnScreen | main_code.py:175-179 | the slot an on-screen pixel's write lands in is read back as that same pixel |
| Addressing.SlotHome | main_code.py:175-177 | every slot of every word is the address of some on-screen pixel: the addressing covers the whole buffer |
| Addressing.AddressInjective | main_code.py:175-177 | two on-screen pixels never share a word and offset |
| Addressing.SameWord | main_code.py:175-177 | two on-screen pixels share a word exactly when they are on the same row and in the same ten-pixel group: no word straddles two rows |
| Addressing.AliasLeftOfScreen | main_code.py:175-177 | draw_pix at x = -1 is in bounds and changes the last pixel of the row above, or slot 9 of row 0 when y == 0 |
| Addressing.BufferLength | main_code.py:329 | the buffer length 30720 is 640*480*3/30, a row is len // V_res = 64 words of ten pixels, and 640 pixels of 3 bits are 64 words of 30 bits |
| Packing.PokeSlot | main_code.py:178-179 | the draw_pix update of slot s makes that slot read back col, keeps the other nine slots, and clears bits 30-31 |
| Packing.MergeSpan | main_code.py:228-229 | the partial write of draw_fastHline, with masks for slots [lo, hi), sets exactly those slots to col, keeps the rest, and leaves the padding clear |
| Packing.Replicate | main_code.py:184-186 | the mask loop builds the word holding col in all ten slots with clear padding |
| Packing.SpanMasks | main_code.py:216-227 | the two mask loops build the slot mask 0b111 and the colour mask col in exactly the slots [lo, hi), with clear padding |
| Screen.Poke | main_code.py:178-179 | the draw_pix word update repaints exactly the pixel its slot holds and keeps the buffer's padding clear |
| Screen.WriteSpan | main_code.py:228-229 | a partial end-word write repaints the pixels of slots [lo, hi) of that word and nothing else |
| Screen.FillWord | main_code.py:236 | storing the replicated colour word repaints every pixel of that word and nothing else |
| Screen.RepaintsDeterminate | main_code.py:179 | two well-formed buffers that repaint the same region of the same buffer in the same colour are equal, so every Repaints contract below fixes the whole new buffer |
| Midpoint.StartInv | main_code.py:279-281 | the start state (-r, 0, 2 - 2r) satisfies the loop invariant err == (x_pos+1)^2 + (y_pos+1)^2 - r^2 |
| Midpoint.StepMoves | main_code.py:287-295 | each pass increases x_pos or y_pos by one, or both, so the plotted path is 8-connected and the loop progresses |
| Midpoint.StepKeeps | main_code.py:287-295 | each pass keeps the error-term invariant and keeps y_pos within [0, abs(r)] |
| Midpoint.PensFrom | main_code.py:282-297 | the run of the loop from a state satisfying the invariant is finite, starts at that state and ends with a pen after which x_pos > 0 |
| Midpoint.PensNext | main_code.py:287-297 | consecutive pens are one pass of updates apart, and the loop breaks exactly after the last pen |
| Midpoint.PensNear | main_code.py:282-297 | for r >= 1 every pen lies within half a pixel of the circle: abs(x_pos^2 + y_pos^2 - r^2) < r |
| Midpoint.PensEnd | main_code.py:282-297 | for r >= 0 the last pen is (0, r): the quarter arc runs from (-r, 0) to (0, r) |
| Midpoint.PensNonPositive | main_code.py:279-297 | a radius of zero or less makes exactly one pass |
| Midpoint.PenBounds | main_code.py:282-297 | every pen offset is bounded by abs(r) |
| Midpoint.PensInt32 | main_code.py:279-295 | for -2^28 <= r <= 30000, x_pos, y_pos and err fit in signed 32-bit words in every pass and after the last one, so the viper loop does not wrap |
| Shapes.Clamp | main_code.py:195-196 | the clamped coordinate lies in [0, top], is the argument when that is in range, and is 0 or top when it is below or above |
| Shapes.Ordered | main_code.py:195-204 | the clamped ends, put in increasing order |
| Shapes.LineSymmetric | main_code.py:201-204 | a horizontal or vertical line is the same with its two ends exchanged |
| Shapes.LinesClamped | main_code.py:195-204 | clamping and ordering the arguments first does not change the line |
| Shapes.HlineExact | main_code.py:205-237 | for on-screen arguments a horizontal line is exactly the pixels [x1, x2) of row y, so the right end point is excluded |
| Shapes.HlineMissesLastColumn | main_code.py:196-198 | no horizontal line, whatever its arguments, sets column 639 |
| Shapes.FillSymmetric | main_code.py:262-263 | fill_rect gives the same region with y1 and y2, or x1 and x2, exchanged |
| Shapes.RowsAreLines | main_code.py:262-265 | the closed form of fill_rect's region is the union of draw_fastHline(x1, x2, j) for j in [min, max) |
| Shapes.FillAboveScreen | main_code.py:262-265 | a rectangle entirely above the screen still shows as its clamped line on row 0 |
| Shapes.RectMissesCorner | main_code.py:268-272 | draw_rect sets three corners of an on-screen rectangle and misses (x2, y2) |
| Shapes.PassOnScreen | main_code.py:283-286 | a pass whose four points are on screen sets exactly those four pixels |
| Shapes.FitsInBounds | main_code.py:283-286 | when the circle's bounding box is on screen, every draw_pix of draw_circle is in bounds and no mark is aliased |
| Shapes.CentreCheckNotEnough | main_code.py:276-277 | the centre check alone does not keep draw_circle in the buffer: centre (639, 479) with radius 11 writes out of bounds |
| Shapes.CircleRadius | main_code.py:275-297 | with an on-screen centre and every draw_pix in bounds, the radius lies in [-307209, 480] |
| Shapes.CircleInBoundsNoWrap | main_code.py:279-295 | on every input draw_circle admits, each pen's x_pos, y_pos and err, and the bit number of each of its draw_pix calls, fit in signed 32 bits |
| Shapes.CircleNear | main_code.py:282-297 | every pixel of a fitting circle lies within half a pixel of the true circle |
| Shapes.CircleExtremes | main_code.py:282-297 | a fitting circle sets its four extreme points (x -/+ r, y) and (x, y -/+ r) |
| Shapes.DiskSkipsColumn | main_code.py:308-309 | fill_disk never fills column x + r |
| Shapes.DiskInside | main_code.py:307-320 | every pixel of a fitting disk lies inside radius r + 1/2 |
| Shapes.RowPen | main_code.py:287-297 | every row offset 0..r is the y_pos of some pen, since y_pos starts at 0, grows by at most one per pass and ends at r |
| Shapes.DiskFilled | main_code.py:307-320 | a fitting disk is solid: every pixel (a, b) with (abs(a - x) + 1)^2 + (b - y)^2 <= r^2 - r is filled, so only pixels within a pixel of the rim can be missing |
| Shapes.DiskCentreRow | main_code.py:308 | the centre row of a fitting disk is filled from x - r up to but excluding x + r |
| Lines.NextWord | main_code.py:233-234 | the first middle word, wrapped to 0 past the end, is inside the buffer |
| Lines.HlineCover | main_code.py:214-237 | the first-word tail, the last-word head and the words strictly between them hold exactly the pixels [x1, x2) of the row |
| Lines.MiddleRun | main_code.py:233-235 | the middle loop runs over in-bounds words up to the last word, including the wrap to word 0 |
| Lines.VlineStride | main_code.py:255-258 | stepping 64 words from the first row's word, modulo the buffer length, reaches the word of the same column on each later row at the same offset |
| Lines.VlineOverrun | main_code.py:258 | as written, a vertical line starting at x < 10 on row 0 indexes past the end of the buffer from its second row on |
| Lines.VlineOverrunExample | main_code.py:258 | draw_fastVline(0, 0, 2, col) writes word 30783 of a 30720-word buffer |
| Lines.VlineAsWrittenElsewhere | main_code.py:252-258 | the as-written index is in bounds exactly outside that case, and there it is the right word |
| Graphics.Framebuffer.constructor | main_code.py:331-332 | the buffer starts with every word zero: every pixel shows colour 0 |
| Graphics.Framebuffer.DrawPix | main_code.py:173-179 | for an in-bounds (x, y), repaints the one pixel its slot holds (x, y itself when on screen, by Addressing.AliasOnScreen) and keeps every other pixel and the padding |
| Graphics.Framebuffer.FillScreen | main_code.py:182-190 | every pixel shows col afterwards, with the padding clear |
| Graphics.Framebuffer.DrawFastHline | main_code.py:194-237 | repaints exactly the clamped, ordered, half-open line, for all arguments, with every index inside the buffer |
| Graphics.Framebuffer.DrawPixels | main_code.py:210-213 | the draw_pix loop of a line inside one word repaints [a, b) of the row |
| Graphics.Framebuffer.FillWords | main_code.py:233-237 | the middle loop repaints exactly the words [lo, hi) |
| Graphics.Framebuffer.DrawFastVline | main_code.py:240-258 | repaints exactly the clamped, ordered, half-open column, for all arguments, with the word index reduced modulo the buffer length |
| Graphics.Framebuffer.DrawColumn | main_code.py:251-258 | the row loop, with the word index reduced modulo the buffer length, repaints exactly rows [a, b) of column cx |
| Graphics.Framebuffer.PokeWord | main_code.py:256-258 | one row's word update repaints exactly the pixel at that row |
| Graphics.Framebuffer.FillRect | main_code.py:261-265 | repaints exactly the union of draw_fastHline(x1, x2, j) for j from min(y1, y2) up to but excluding max(y1, y2) |
| Graphics.Framebuffer.DrawRect | main_code.py:268-272 | repaints exactly the two horizontal and two vertical lines |
| Graphics.Framebuffer.PlotPair | main_code.py:283-284 | two draw_pix calls of a pass repaint the pixels their slots hold |
| Graphics.Framebuffer.PlotPass | main_code.py:283-286 | the four draw_pix calls of a pass repaint the pixels their slots hold |
| Graphics.Framebuffer.DrawCircle | main_code.py:275-297 | leaves the buffer unchanged for an off-screen centre, and otherwise repaints exactly the pixels addressed by the four mirror points of every pen, given every draw_pix is in bounds |
| Graphics.Framebuffer.DrawSpans | main_code.py:308-309 | the two draw_fastHline calls of a pass repaint the two spans |
| Graphics.Framebuffer.FillDisk | main_code.py:300-320 | leaves the buffer unchanged for an off-screen centre, and otherwise repaints exactly the two spans of every pen, with every write in bounds for any radius (the spans are clamped lines) |
| Graphics.StepPen | main_code.py:287-295 | the update code computes one Step of the pen |
| Graphics.NextPen | main_code.py:296-297 | the loop goes on to the next pen while x_pos <= 0, and breaks after the last pen |
| Graphics.ClampArg | main_code.py:195-196 | the two ifs compute Clamp |
| Pio.Dec | main_code.py:60 | the `x--` / `y--` decrement is subtraction of one modulo 2^32: a 32-bit register value v becomes the 32-bit value r with r + 1 == v (mod 2^32) |
| Pio.RunMonotone | main_code.py:54-115 | any program whose jumps stay inside it keeps pc inside it; each instruction takes at least one clock and waits at most one line; the clocks and lines counted low never exceed those elapsed; no interrupt or shifted bit is taken back |
| Pio.ProgramsClosed | main_code.py:54-115 | every jump of paral_Hsync, paral_Vsync and paral_RGB lands inside its own program, so RunMonotone holds for all three |
| Pio.HsyncCountdown | main_code.py:58-60 | with x = n the countdown jump runs n + 1 times, one clock each, with the sync pin high |
| Pio.HsyncLine | main_code.py:54-69 | one pass with count c takes c + 145 clocks, holds the sync pin low for 96 of them, raises irq 0 once and returns to the wrap target with the pin high |
| Pio.HsyncTiming | main_code.py:158 | with 655 loaded a line is the standard 800 clocks with a 96-clock sync pulse |
| Pio.VsyncActive | main_code.py:79-83 | with x = n the active loop waits n + 1 lines and raises irq 1 on each |
| Pio.PorchLoop | main_code.py:86-88 | a wait/jump porch loop from y = n waits n + 1 lines at the level its wait drives |
| Pio.VsyncFront | main_code.py:84-88 | the front porch waits 10 lines with the side-set pin high |
| Pio.VsyncVisible | main_code.py:77-88 | from the wrap target to the sync pulse the program waits c + 11 lines and raises irq 1 c + 1 times |
| Pio.VsyncBlank | main_code.py:89-98 | the sync pulse holds the side-set pin low for 2 lines, and the back porch waits 33 lines with it high |
| Pio.VsyncFrame | main_code.py:75-98 | one pass with count c waits c + 46 lines, raises irq 1 c + 1 times, holds the side-set pin low for 2 lines and returns to the wrap target with it high and the set pins as they were, so frames chain |
| Pio.VsyncTiming | main_code.py:159 | with V_res - 1 loaded a frame is the standard 525 lines, 480 of them visible, with a 2-line sync pulse |
| Pio.RgbPixels | main_code.py:110-114 | with x = n the pixel loop shifts out n + 1 pixels of 3 bits, 3 clocks each, and falls through to the wrap |
| Pio.RgbLine | main_code.py:104-115 | one pass with count c waits for one visible line, resets the side-set pins to 0 and shifts out c + 1 three-bit pixels |
| Pio.RgbTiming | main_code.py:160 | with H_res - 1 loaded a line is 640 pixels, exactly the 64 thirty-bit words of one buffer row |

## Left out

- DMA configuration and the `startsync` and `stopsync` register writes: fixed-address hardware writes with no behaviour the model could state; the counts `startsync` loads are the parameters of the Pio timing lemmas.
- `set_freq`, the state machine frequencies and pin assignments: PLL register writes and real-valued frequencies.
- Concurrency: the DMA engine reads the buffer while the drawing routines write it; the buffer is modelled as owned by the drawing code alone.
- The allocation loop and memory diagnostics (main_code.py:324-343): the buffer is created zeroed by the constructor, with the length 30720.
- The demo drawing script at the end of the file: it only calls the API.
- Colour arguments outside 0..7: `Color` is the subset type of 3-bit values; the firmware never masks `col`, so a larger value would spill into neighbouring slots, which the model does not describe.
- Graphics.Framebuffer.DrawPix: requires the pixel's word index to be in the buffer, which the firmware leaves to its caller (an unchecked `ptr32` write); out-of-bounds writes are not modelled.
- Graphics.Framebuffer.DrawCircle: requires every draw_pix of the circle to be in bounds (`Shapes.CircleInBounds`), as the firmware only checks the centre; `Shapes.FitsInBounds` discharges it for a circle whose bounding box is on screen and `Shapes.CentreCheckNotEnough` shows it is needed. On every input this requirement admits, the model is exact: viper's 32-bit arithmetic does not wrap (`Shapes.CircleInBoundsNoWrap`).
- Graphics.Framebuffer.DrawPix: computes n = 1920*y + 3*x in unbounded integers, while viper's `int` is a 32-bit machine word. For coordinates far off screen the firmware's n wraps. For example, draw_pix(0, -2097152, col) gives n = 268435456 and a write far past the buffer, which the model reads as pixel (0, 0). For every on-screen pixel n fits (`Addressing.OnScreenNoWrap`) and the model is exact.
- Graphics.Framebuffer.FillDisk: the 32-bit wrap of the pen arithmetic for abs(r) from about 2^29 on is not captured; the model is exact for -2^28 <= r <= 30000 (`Midpoint.PensInt32`).
- Graphics.Framebuffer.DrawRect: its vertical edges are drawn with the corrected draw_fastVline index, so for an edge at x < 10 that starts on row 0 (e.g. draw_rect(0, 0, 100, 100, col)) the model repaints the edge, where the code as written writes past the end of the buffer (the finding below).
- Graphics.Framebuffer.DrawColumn: reduces the row loop's word index modulo the buffer length, where the code as written writes `Data[k1 + i*nword]` unreduced and, for a column x < 10 starting on row 0, writes past the end of the buffer from the second row on (the finding below).
- Graphics.Framebuffer.DrawFastVline: models the index reduced modulo the buffer length (the corrected index of the finding below), not the out-of-bounds write of the code as written.
- Pio: a `wait irq` is one line tick, and the irq handshake between the machines, the FIFOs, autopull and the pixel values on the colour pins are not modelled; the interpreter counts bits shifted out, not their content. Side-set is modelled as optional: an instruction without `.side()` leaves the pin as it was. Wait stalls count as one clock.
- Pio: the lemmas about paral_Vsync and paral_RGB start from set pins that are not low (`s.pins == 1` or `s.pins != 0`). Those programs never drive the set pins; the condition only keeps the low-clock counter, which counts clocks with the set pins low and matters for paral_Hsync alone, out of their state equations.
- Pio: the instruction lists are transcribed from the assembler source; the encoding of instructions into 16-bit PIO words is not modelled.

## Findings

| source | as written | input that shows it | evidently intended | confidence | as-written member | corrected member |
|---|---|---|---|---|---|---|
| main_code.py:258 | draw_fastVline writes `Data[k1 + i*nword]`, where k1 is the wrapped last word (30719) when the line starts at x < 10 on row 0 | draw_fastVline(0, 0, 2, col): the second row writes word 30783 of a 30720-word buffer, an unchecked `ptr32` write past the end; draw_rect(0, 0, 100, 100, col) does the same through its left edge (main_code.py:271) | the word of (x, y1 + i), which is (k1 + i*nword) modulo the buffer length | not executed | Lines.VlineOverrun | Graphics.Framebuffer.DrawFastVline |
