# 36c3 LED stuff: comet trail, HUB75 frame buffer, brightness wrapper

This project models the integer logic of three pieces of firmware for
LED strips and LED panels, and proves properties of the model.

- **The comet-trail buffer `Elements`.** It is a bounded FIFO of particles, each a colour and a head
  position on the strip. `add` puts a new particle at position 0, `step` moves every particle one LED
  further and then `cull`s, and `cull` drops particles from the oldest end once they and their trail have
  left the strip. `iter` reads the queue back newest-first as exactly `length` faded colours.
  - The same code exists three times: the library (`c3_led_tail/src/lib.rs`), an inlined copy in the
    LED-tail firmware (`c3_led_tail/src/main.rs`), and an older 8-bit, 16-slot version with a panic guard
    (`src/main.rs`).
  - One generic class (`CometTrail.Elements`, iterator `CometTrail.ElementIter`) covers all three. Its
    constants are the slot count, the largest position value and the optional panic guard.
  - Three small modules (`LedTailLib`, `LedTailApp`, `LegacyStrip`) fix those constants for each copy, as
    well as the strip configurations the firmwares create: `new(400, 15)` and `new(60, 15)`.
- **The HUB75 bit-plane frame buffer (`Hub75.Hub75Dma`).** The buffer is a 16 × 8 × 128 byte array, indexed
  by scan row, bit plane and port byte.
  - `clear` writes the clock pattern.
  - `draw` gamma-corrects each pixel through `GAMMA8` (module `Hub75Gamma`). It splits the corrected colour
    into eight 3-bit plane values and merges each into byte 2x of its plane, keeping the other half-panel's
    bits. Byte 2x+1 gets the same value with the clock bit set.
  - `output` is modelled as the sequence of pin, port and delay events it issues.
- **The brightness wrapper (`BrightnessAdjustment`).** A draw target that scales every channel by
  `brightness / 256` and forwards the pixel to the display it wraps.

All of the modules use `Graphics`, which holds the shared colour type and the channel scaling
`(c as u16 * m / 256) as u8`. That scaling is written out with its 16-bit wrap-around and truncating cast,
and proved to do neither for multipliers up to 256.

## Model

| member | source | states |
|---|---|---|
| Graphics.ScaleChannel | c3_led_tail/src/lib.rs:111-117 | with a multiplier of at most 256 the channel is exactly floor(c·m/256) and never exceeds c; multiplier 0 gives 0 |
| Graphics.ScaleBound | c3_display/src/brightness.rs:13-15 | for m ≤ 256 the product c·m neither wraps modulo 2^16 nor does the quotient lose bits in the `as u8` cast |
| Graphics.ScaleMonotone | c3_display/src/brightness.rs:13-15 | the scaled channel is monotone in both the channel value and the multiplier |
| Graphics.DivMonotone | c3_display/src/brightness.rs:13-15 | division by 256 is monotone (used for the above) |
| CometTrail.Reverse | c3_led_tail/src/lib.rs:69 | `queue.iter().rev()`: element i of the result is element \|q\|-1-i of the queue |
| CometTrail.ReverseIncreasing | c3_led_tail/src/lib.rs:69 | a queue decreasing front to back is increasing when walked newest first |
| CometTrail.Shifted | c3_led_tail/src/lib.rs:33-35 | the loop of `step` over the queue: as many particles as before |
| CometTrail.ShiftedMovesEach | c3_led_tail/src/lib.rs:33-35 | every particle keeps its colour and moves exactly one position on |
| CometTrail.CullCount | c3_led_tail/src/lib.rs:56-65 | the number of particles cull drops: all of them are past the bound, and the first one kept is not |
| CometTrail.CullCountUnique | c3_led_tail/src/lib.rs:56-65 | that count is the only one with this property, so cull stops at the first particle within the bound |
| CometTrail.Culled | c3_led_tail/src/lib.rs:56-65 | the queue `cull` leaves: the queue without the prefix CullCount measures, never longer than before |
| CometTrail.CullKeepsOrder | c3_led_tail/src/lib.rs:56-65 | from a strictly decreasing queue `cull` leaves a strictly decreasing one with every position at most length + trail_length |
| CometTrail.StepQueue | c3_led_tail/src/lib.rs:32-37 | the queue after one `step` (shift, then cull), never longer than before |
| CometTrail.Steps | c3_led_tail/src/lib.rs:32-37 | the queue after n calls of `step`, each one StepQueue of the previous queue |
| CometTrail.StepsNeverGrow | c3_led_tail/src/lib.rs:32-37 | after any number of steps the queue is at most as long as before |
| CometTrail.StepsKeepOrder | c3_led_tail/src/lib.rs:32-37 | any number of steps keeps a strictly decreasing queue so, and after at least one step every particle is within the cull bound |
| CometTrail.AddQueue | c3_led_tail/src/lib.rs:39-53 | `add` either leaves the queue or appends one particle of the colour at position 0; it fails exactly when the newest particle has moved on (or there is none) and the queue is full, and then changes nothing; it keeps the queue strictly decreasing |
| CometTrail.StepKeepsOrder | c3_led_tail/src/lib.rs:32-37 | one step keeps positions strictly decreasing, leaves every particle within length + trail_length, and never adds particles |
| CometTrail.CullWithinIsIdentity | c3_led_tail/src/lib.rs:56-65 | cull leaves a queue alone when every particle is within the bound |
| CometTrail.AddTwiceAddsOnce | c3_led_tail/src/lib.rs:39-53 | a second add right after an add changes nothing, so at most one particle enters per step |
| CometTrail.StepLone | c3_led_tail/src/lib.rs:32-37 | a lone particle moves one LED on, and is dropped once it passes the bound |
| CometTrail.Lifetime | c3_led_tail/src/lib.rs:32-37 | after one add and n ≤ length + trail_length steps the particle is the only one left, at position n |
| CometTrail.LifetimeEnd | c3_led_tail/src/lib.rs:56-65 | one more step empties the queue |
| CometTrail.Multiplier | c3_led_tail/src/lib.rs:102 | `trail_length.saturating_sub(distance) * step` is at most 255; it is 0 exactly when the LED is beyond the trail or the trail is longer than 255 |
| CometTrail.MultiplierBound | c3_led_tail/src/lib.rs:71 | a·(255 / t) ≤ 255 for a ≤ t |
| CometTrail.MultiplierFades | c3_led_tail/src/lib.rs:102 | each LED further behind the head lowers the multiplier by exactly 255 / trail_length |
| CometTrail.SaturatingSub | c3_led_tail/src/lib.rs:102 | `saturating_sub` on unsigned values: the least natural number r with r + b ≥ a (so a - b when a ≥ b, else 0) |
| CometTrail.Brightness | c3_led_tail/src/lib.rs:111-117 | for multipliers of at most 256 each channel is floor(c·m/256) and no brighter than the particle; multiplier 0 gives black (same function at c3_led_tail/src/main.rs:258-264 and src/main.rs:201-207) |
| CometTrail.Ahead | c3_led_tail/src/lib.rs:97-100 | the particle an LED takes its colour from: the first particle, newest first, whose head is at or ahead of the LED |
| CometTrail.Strip | c3_led_tail/src/lib.rs:88-108 | the colours of LEDs 0..n-1: n of them, LED p getting the colour that `ColorAt` defines for it |
| CometTrail.ColorAt | c3_led_tail/src/lib.rs:100-107 | the colour `next` returns for one LED: black when no particle is at or ahead of it, otherwise never brighter than that particle |
| CometTrail.ColorAtBounds | c3_led_tail/src/lib.rs:100-107 | an LED is never brighter than its particle; it is black when no particle is ahead of it or when it is beyond that particle's trail |
| CometTrail.HeadOwnsTrail | c3_led_tail/src/lib.rs:97-101 | in an ordered queue, the LEDs from just past the previous particle up to a particle's head take that particle's colour |
| CometTrail.AheadUnique | c3_led_tail/src/lib.rs:97-101 | the peeked particle is determined by its defining property |
| CometTrail.FifteenLedTrailExample | c3_led_tail/src/lib.rs:100-103 | a 15-LED trail: multiplier 255 on the head, 238 one LED behind, dark ahead of it |
| CometTrail.ElementIter.constructor | c3_led_tail/src/lib.rs:67-75 | the iterator starts at LED 0 on the newest particle, with step = 255 / trail_length |
| CometTrail.ElementIter.Next | c3_led_tail/src/lib.rs:88-108 | pos increases by one; past `length` the result is None; otherwise it is the colour `ColorAt` defines for LED pos, after advancing the peeked particle at most once; `x.position - pos` never underflows (same code at c3_led_tail/src/main.rs:235-255 and src/main.rs:178-198) |
| CometTrail.Elements.Bound | c3_led_tail/src/lib.rs:60 | the cull bound `length + trail_length` that `cull` compares positions with |
| CometTrail.Elements.constructor | c3_led_tail/src/lib.rs:22-30 | new: an empty queue satisfying the order and bound invariant |
| CometTrail.Elements.Step | c3_led_tail/src/lib.rs:32-37 | the new queue is every particle moved one on, then culled; the invariant is kept, no increment overflows the position type, and the panic guard of the old copy is unreachable (same code at c3_led_tail/src/main.rs:179-184 and src/main.rs:117-127) |
| CometTrail.Elements.Add | c3_led_tail/src/lib.rs:39-53 | a no-op returning Ok while the newest particle is at 0; otherwise a particle is appended at position 0, and Err (with the queue unchanged) is returned exactly when all slots are taken (same code at c3_led_tail/src/main.rs:186-200 and src/main.rs:129-143) |
| CometTrail.Elements.Cull | c3_led_tail/src/lib.rs:56-65 | the queue loses exactly its longest prefix of particles past length + trail_length; the survivors keep order and values (same code at c3_led_tail/src/main.rs:203-212 and src/main.rs:146-155) |
| CometTrail.Elements.Iter | c3_led_tail/src/lib.rs:67-75 | a fresh iterator over the queue newest first (same code at c3_led_tail/src/main.rs:214-222 and src/main.rs:157-165) |
| CometTrail.Render | c3_led_tail/src/lib.rs:86-108 | draining iter yields exactly `length` colours, LED p getting `ColorAt` of p, and then None |
| LedTailLib.New | c3_led_tail/src/lib.rs:22-30 | an empty 128-slot queue with 16-bit positions and no guard |
| LedTailApp.New | c3_led_tail/src/main.rs:169-177 | the inlined copy: an empty 128-slot queue with 16-bit positions |
| LedTailApp.NewStrip | c3_led_tail/src/main.rs:115 | `Elements::new(400, 15)`: an empty 128-slot buffer with 16-bit positions and no guard, whose cull bound 415 lies below the largest u16, so no position overflows |
| LedTailApp.FirstAdd | c3_led_tail/src/main.rs:115-129 | the first `add(..).unwrap()` on the fresh buffer does not panic: it returns Ok and leaves one particle of that colour at position 0 |
| LedTailApp.StripLifetime | c3_led_tail/src/main.rs:179-212 | on that strip a lone particle lives exactly 416 steps |
| LegacyStrip.New | src/main.rs:107-115 | an empty 16-slot queue with 8-bit positions and the panic guard at 100 |
| LegacyStrip.NewStrip | src/main.rs:72 | `Elements::new(60, 15)`: an empty 16-slot buffer with 8-bit positions and the panic guard at 100, whose cull bound 75 lies below the largest u8, so `position += 1` never overflows |
| LegacyStrip.StripLifetime | src/main.rs:117-155 | on that strip a lone particle lives exactly 76 steps |
| Hub75Gamma.ConcatAdjacent | c3_display/src/hub75dma.rs:99-112 | two non-decreasing runs joined without a drop form a non-decreasing run |
| Hub75Gamma.Rows0And1 | c3_display/src/hub75dma.rs:100-101 | the first two rows of the table are non-decreasing, 16 long, and no entry exceeds its index |
| Hub75Gamma.Rows2And3 | c3_display/src/hub75dma.rs:101-102 | the same for rows 2 and 3 |
| Hub75Gamma.Rows4And5 | c3_display/src/hub75dma.rs:102-103 | the same for rows 4 and 5 |
| Hub75Gamma.Rows6And7 | c3_display/src/hub75dma.rs:103-104 | the same for rows 6 and 7 |
| Hub75Gamma.Rows8And9 | c3_display/src/hub75dma.rs:104-106 | the same for rows 8 and 9 |
| Hub75Gamma.Rows10And11 | c3_display/src/hub75dma.rs:106-107 | the same for rows 10 and 11 |
| Hub75Gamma.Rows12And13 | c3_display/src/hub75dma.rs:108-109 | the same for rows 12 and 13 |
| Hub75Gamma.Rows14And15 | c3_display/src/hub75dma.rs:109-111 | the same for rows 14 and 15 |
| Hub75Gamma.ConcatDimming | c3_display/src/hub75dma.rs:99-112 | joining rows keeps every entry at most its table index |
| Hub75Gamma.GammaAdjacent | c3_display/src/hub75dma.rs:99-112 | GAMMA8 is non-decreasing |
| Hub75Gamma.GammaDimming | c3_display/src/hub75dma.rs:99-112 | no entry of GAMMA8 exceeds its index |
| Hub75Gamma.GammaShape | c3_display/src/hub75dma.rs:99-112 | GAMMA8 has 256 entries, GAMMA8[0] = 0, GAMMA8[255] = 255, non-decreasing, never above the identity |
| Hub75Gamma.AdjacentOrdered | c3_display/src/hub75dma.rs:99-112 | in a non-decreasing table, any later entry is at least any earlier one |
| Hub75Gamma.Gamma | c3_display/src/hub75dma.rs:117-119 | the lookup maps 0 to 0, 255 to 255, and never brightens |
| Hub75Gamma.GammaMonotone | c3_display/src/hub75dma.rs:117-119 | the lookup preserves the order of channel values |
| Hub75.Pow2 | c3_display/src/hub75dma.rs:60 | `1 << bit` is positive |
| Hub75.WeightLow2 | c3_display/src/hub75dma.rs:120-124 | bits 0-1 of a byte, weighted 1 and 2, sum to the byte's low two bits |
| Hub75.WeightLow4 | c3_display/src/hub75dma.rs:120-124 | bits 0-3 weighted by powers of two sum to the low four bits |
| Hub75.WeightLow6 | c3_display/src/hub75dma.rs:120-124 | bits 0-5 weighted by powers of two sum to the low six bits |
| Hub75.WeightAll | c3_display/src/hub75dma.rs:120-124 | the eight bits weighted by powers of two sum to the byte |
| Hub75.WeightMiddle2 | c3_display/src/hub75dma.rs:51-62 | bits 2-3 weighted 1 and 2 sum to bits 2-3 of the byte |
| Hub75.WeightMiddle4 | c3_display/src/hub75dma.rs:51-62 | bits 2-5 weighted 1..8 sum to bits 2-5 of the byte |
| Hub75.WeightAboveTwo | c3_display/src/hub75dma.rs:51-62 | bits 2-7 weighted by 2^(bit-2) sum to the byte shifted right by two |
| Hub75.PlaneValue | c3_display/src/hub75dma.rs:120-124 | the plane value is below 8 and its bits 0, 1, 2 are bit i of red, green, blue |
| Hub75.Planes | c3_display/src/hub75dma.rs:116-124 | the eight plane values of a colour, in plane order |
| Hub75.ChannelWeightIsWeight | c3_display/src/hub75dma.rs:120-124 | reading a channel back from the planes weighs the channel's own bits |
| Hub75.PlanesRoundTrip | c3_display/src/hub75dma.rs:117-124 | for each channel, the sum over planes i of its bit in plane i times 2^i is the corrected channel value |
| Hub75.ShownPlanesWeight | c3_display/src/hub75dma.rs:51-62 | summed over the shown planes 2..7, weighted 2^(plane-2), a channel's bits give the channel shifted right by two |
| Hub75.Packed | c3_display/src/hub75dma.rs:125-135 | the read-modify-write stores the value in the pixel's half, keeps the other half, and clears bits 6 and 7 |
| Hub75.PackedKeepsOtherHalf | c3_display/src/hub75dma.rs:125-135 | writing one half-panel leaves the other half's three bits as they were |
| Hub75.OnPanel | c3_display/src/hub75dma.rs:114-115 | the coordinates whose row and column indices `draw` can use |
| Hub75.TruncatedRem | c3_display/src/hub75dma.rs:114 | Rust's `y % 16`: it lies strictly between -16 and 16, agrees with the mathematical remainder for y ≥ 0, and is non-negative exactly when y ≥ 0 or 16 divides y |
| Hub75.OnPanelIsInRange | c3_display/src/hub75dma.rs:114-115 | a coordinate is on the panel exactly when byte 2x+1 exists in a row and `y % 16` is a valid row index |
| Hub75.RowOf | c3_display/src/hub75dma.rs:114 | the scan row of a pixel is below 16 and equals Rust's `y % 16` |
| Hub75.Upper | c3_display/src/hub75dma.rs:125 | the half-panel choice: y ≥ 16 goes to the bottom half |
| Hub75.PixelPlane | c3_display/src/hub75dma.rs:117-124 | a pixel's plane value, from its gamma-corrected channels, is below 8 |
| Hub75.Apply | c3_display/src/hub75dma.rs:130-135 | the even byte of a cell after one pixel: unchanged unless the pixel covers the cell, and bits 6 and 7 clear whenever it does |
| Hub75.EvenAfter | c3_display/src/hub75dma.rs:113-139 | the even byte of a cell after the first n pixels are drawn in order, one `Apply` each |
| Hub75.ApplyWritesHalf | c3_display/src/hub75dma.rs:130-135 | a pixel covering a cell leaves its plane value in its own half of the cell |
| Hub75.ApplyKeepsHalf | c3_display/src/hub75dma.rs:130-135 | a pixel leaves a half of a cell alone unless it covers the cell and lies in that half |
| Hub75.ApplyKeepsClockLow | c3_display/src/hub75dma.rs:134-135 | drawing keeps bits 6 and 7 of even bytes clear |
| Hub75.UncoveredUnchanged | c3_display/src/hub75dma.rs:113-139 | a cell no pixel covers keeps its byte |
| Hub75.EvenAfterKeepsClockLow | c3_display/src/hub75dma.rs:113-139 | after any sequence of pixels the even bytes still have bits 6 and 7 clear |
| Hub75.LastPixelWins | c3_display/src/hub75dma.rs:113-139 | the last pixel covering a cell in a half-panel decides what that half holds |
| Hub75.CellPlanes | c3_display/src/hub75dma.rs:130-135 | the eight plane values one half-panel cell holds |
| Hub75.CellHoldsPlanes | c3_display/src/hub75dma.rs:113-139 | after drawing, a half-panel cell holds exactly the planes of the last pixel covering it |
| Hub75.ShownColor | c3_display/src/hub75dma.rs:51-62 | with planes 2..7 lit 2^(plane-2) µs each, each channel of that pixel is lit for its gamma-corrected value shifted right by two |
| Hub75.AddressTrace | c3_display/src/hub75dma.rs:30-49 | lines A, B, C, D are set to bits 0, 1, 2, 3 of the row |
| Hub75.RowBits | c3_display/src/hub75dma.rs:30-49 | `row & 2^k != 0` is bit k of the row |
| Hub75.BlankByte | c3_display/src/hub75dma.rs:73-77 | the byte `clear` writes: no colour bits, bit 6 (the clock) clear on even indices and set on odd ones, bit 7 clear |
| Hub75.Delays | c3_display/src/hub75dma.rs:60-62 | n waits of one microsecond each |
| Hub75.PlaneStartClosed | c3_display/src/hub75dma.rs:51-64 | plane pl starts 132·(pl-2) + 2^(pl-2) - 1 events into the row's planes |
| Hub75.Hub75Dma.BlankIsValid | c3_display/src/hub75dma.rs:69-81 | the cleared buffer satisfies the frame invariant |
| Hub75.Hub75Dma.constructor | c3_display/src/hub75dma.rs:15-24 | new takes the caller's buffer and leaves it cleared and valid |
| Hub75.Hub75Dma.Clear | c3_display/src/hub75dma.rs:69-81 | every byte j of every plane of every row is 0x00 when j is even and 0x40 when j is odd |
| Hub75.Hub75Dma.DrawPixel | c3_display/src/hub75dma.rs:113-139 | one pixel: the invariant is kept, each even byte becomes its old value with the pixel applied, and only bytes 2x and 2x+1 of row y % 16 change |
| Hub75.Hub75Dma.SplitPlanes | c3_display/src/hub75dma.rs:116-124 | the local array holds the pixel's eight plane values |
| Hub75.Hub75Dma.MergePlanes | c3_display/src/hub75dma.rs:125-138 | for every plane, byte 2x gets the packed value and byte 2x+1 the same with the clock bit; nothing else changes |
| Hub75.Hub75Dma.MergePlane | c3_display/src/hub75dma.rs:131-137 | one read-modify-write of bytes 2x and 2x+1 of one plane |
| Hub75.Hub75Dma.Draw | c3_display/src/hub75dma.rs:90-140 | draw keeps the frame invariant, and every even byte is the fold of the pixels over its old value, in input order |
| Hub75.Hub75Dma.PortWrites | c3_display/src/hub75dma.rs:53-55 | the port receives the plane's bytes in index order |
| Hub75.Hub75Dma.PlaneTrace | c3_display/src/hub75dma.rs:51-64 | showing plane pl takes 132 + 2^(pl-2) events |
| Hub75.Hub75Dma.PlanesTrace | c3_display/src/hub75dma.rs:51-64 | planes 2 to n-1 take PlaneStart(n) events |
| Hub75.Hub75Dma.RowTrace | c3_display/src/hub75dma.rs:28-67 | a row takes 860 events |
| Hub75.Hub75Dma.RowsTrace | c3_display/src/hub75dma.rs:28-67 | rows 0..n-1 take 860·n events |
| Hub75.Hub75Dma.FrameTrace | c3_display/src/hub75dma.rs:26-68 | one frame takes 16·860 events |
| Hub75.Hub75Dma.Output | c3_display/src/hub75dma.rs:26-68 | output issues exactly the frame's event trace |
| Hub75.Hub75Dma.OutputRow | c3_display/src/hub75dma.rs:28-67 | one row's events: address, planes 2..7, ghosting wait |
| Hub75.Hub75Dma.OutputPlane | c3_display/src/hub75dma.rs:51-64 | one plane's events: bytes, latch pulse, enable window, enable high |
| Hub75.Hub75Dma.PlaneTraceAt | c3_display/src/hub75dma.rs:51-64 | event k of plane pl: byte k for k < 128, then latch high, latch low, enable low, 2^(pl-2) one-microsecond waits, enable high |
| Hub75.Hub75Dma.PlanesTraceAt | c3_display/src/hub75dma.rs:51 | planes 2..7 follow each other without gap or overlap; planes 0 and 1 are never shown |
| Hub75.Hub75Dma.RowTraceShape | c3_display/src/hub75dma.rs:28-67 | a row begins with its four address events and ends with the 100 µs ghosting wait |
| Hub75.Hub75Dma.RowTraceAt | c3_display/src/hub75dma.rs:51-64 | event k of plane pl sits at offset 4 + PlaneStart(pl) + k of the row |
| Hub75.Hub75Dma.RowsTraceAt | c3_display/src/hub75dma.rs:28 | rows follow each other in order, row r taking events 860·r up to 860·(r+1) |
| Hub75.Hub75Dma.ScanOrder | c3_display/src/hub75dma.rs:26-68 | the frame position of every address, plane and ghosting event of every row |
| BrightnessAdjustment.Dim | c3_display/src/brightness.rs:12-16 | each output channel is floor(c·brightness/256) and no brighter than the input |
| BrightnessAdjustment.DrawPixel | c3_display/src/brightness.rs:10-19 | exactly one pixel reaches the wrapped display: the item's coordinate with its colour scaled by the brightness, no brighter than before; the earlier pixels, the brightness and the size are unchanged |
| BrightnessAdjustment.GetSize | c3_display/src/brightness.rs:20-22 | `size` reports the size of the wrapped display |
| BrightnessAdjustment.DrawAllForwards | c3_display/src/brightness.rs:9-22 | drawing a sequence forwards every pixel once and in order, coordinate kept and colour scaled; `size` keeps returning the wrapped display's size |
| BrightnessAdjustment.ZeroIsBlack | c3_display/src/brightness.rs:13-15 | brightness 0 turns every colour black |
| BrightnessAdjustment.DimMonotone | c3_display/src/brightness.rs:13-15 | the output grows with the input colour and with the brightness |
| BrightnessAdjustment.FullBrightnessDarkens | c3_display/src/brightness.rs:13-15 | even at brightness 255, full white comes out as 254 on every channel |

## Left out

- Pins, the data port and `DelayUs` in `Hub75Dma::output` are replaced by a recorded event trace. Real timing and the raw pointers are not modelled.
- The interrupt- and DMA-paced scan-out variants, the board `init`/`idle` blocks, the serial command handling, the random
  colour choice and the host programs are not part of this model. They are I/O and peripheral set-up.
- The heapless queue is modelled as a bounded sequence. Its ring buffer and indices are not modelled.
- The WS2812/APA102 writers, `smart_leds::gamma` and the embedded-graphics traits are foreign crates and are not part of
  this model. The wrapped display of `BrightnessAdjustment` is reduced to its size and the pixels it receives.
- Hub75.Hub75Dma.Draw: the pixel channels are modelled as bytes. `Rgb565` limits red and blue to 0-31 and green
  to 0-63, and the model admits the wider range.
- Hub75.Hub75Dma.DrawPixel: requires 0 ≤ x < 64, and y ≥ 0 or y a multiple of 16. For other coordinates the source's
  `as usize` conversion or array index panics, and the model does not describe panics.
- Hub75.Hub75Dma.constructor: the table `draw` looks channels up in is the class constant `table`, set to
  GAMMA8 by the constructor. In the source it is a constant local to `draw`.
- CometTrail.Elements.constructor: requires length + trail_length below the largest position value. Otherwise the
  `length + trail_length` in `cull` or `position += 1` in `step` could overflow, and overflow is not modelled.
- CometTrail.ElementIter.Next: requires pos below the largest position value. The source's `pos += 1` would overflow
  only after that many calls past the end.

- CometTrail.Elements.Iter: requires a non-zero trail length. The source's `iter` divides 255 by `trail_length`
  (c3_led_tail/src/lib.rs:71, c3_led_tail/src/main.rs:218, src/main.rs:161) and panics when it is 0, which `new`
  admits; the model does not describe panics.
- CometTrail.ElementIter.constructor: requires a non-zero trail length, for the same division as `Iter`.

Two facts about the panel that the model keeps as the code has them:
- `draw` writes the low three bits of byte 2x for y < 16 (mask 0x38, shift 0) and the high three bits for y ≥ 16
  (mask 0x07, shift 3). The "Preserve upper bits" comment at c3_display/src/hub75dma.rs:133 describes only the first
  case: for y ≥ 16 the low bits are the ones kept.
- `output` shows only planes 2 to 7. Plane p is lit for 2^(p-2) µs, so planes 0 and 1 never appear in the trace.
