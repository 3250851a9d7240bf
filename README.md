# Water ripples: a verified model of the ripple engine

This project models the water-ripple engine of the portfolio site, the
`WaterRipples` React component. The engine keeps two `Int16Array` height
maps of a discrete 2-D wave. On every animation frame a single fused loop
does three things for each pixel:

- it steps the height field into the previous map;
- it derives a refraction offset from the new height;
- it copies the displaced texel of a captured RGBA texture into the output
  image.

The two maps then swap roles. A pointer move adds energy to a 12 by 12
square of the current map.

The model has five modules, one file each:

- `JsNumbers` (`js_numbers.dfy`) gives the integer meaning of the JavaScript
  operations the engine uses. These are the `Int16Array` store (ToInt16),
  ToInt32, `a >> k` (`Sar`) and `(p / 1024) << 0` (`TruncDiv` then `Int32`).
  It also defines the `byte` of a `Uint8ClampedArray`.
- `Arith` (`arith.dfy`) holds three small facts about multiplication and
  division that the proofs use.
- `HeightField` (`height_field.dfy`) describes the maps as values. `MapIndex`
  places pixel `(x, y)` at sample `width * (y + 1) + x`. `NewHeight` is the
  damped wave update and `StepMap` is the previous map after a frame's step.
  `DisturbMap` is the current map after `disturb`.
- `Refraction` (`refraction.dfy`) covers the rendering side. It has the
  offset and the clamp, the sampled texel (`SampleIndex`, `PixelSource`) and
  `RenderOut`, the output buffer after a frame.
- `WaterRipples` (`water_ripples.dfy`) has the class `Ripples`. Its fields
  are the component's refs: the sizes, `rippleMap` and `lastMap` as
  `array<int>`, the captured texture as an immutable `seq<byte>`, and the
  output buffer as an `array<byte>`. Its methods are `Init`, `Capture` (the
  image's `onload`), `Frame` (`render`) and `Disturb`.
  - The frame's nested loop is `StepAndRender`. Its per-pixel body is split
    into `StepSample`, `RefractedSource` and `RefractPixel`, and it is proved
    against `StepMap` and `RenderOut`.
  - The loop invariants are kept as prefix functions (`StepPrefix`,
    `RenderPrefix`, `DisturbPrefix`) with one-step lemmas.

Typed-array access follows JavaScript:

- A texture read past the end yields `undefined`, which a
  `Uint8ClampedArray` stores as 0 (`Texel`).
- A write past the end of the output buffer is dropped (`Store`).
- Every height store wraps to int16.

This matters because `init` does not clear the captured texture. After a
resize, frames run on the stale texture and output buffer until the image
loads again. The model allows any sizes there. The sampling lemmas state
what holds when the texture has the picture's size.

The model follows the code in these details, which are easy to misread:

- Each map has `width * (height + 2) * 2` samples, twice the padded grid.
  Only the first `width * (height + 2)` are ever read.
- The refraction uses the freshly computed, unwrapped new height, not the
  current field. The stored value is wrapped to int16.
- `disturb` writes `width * j + k`, without the one-row offset of the frame
  loop. The disturbance lands one row higher. Row 0 falls into the top
  padding row (`DisturbRowOffset`).
- There is no column padding. At column 0 the left neighbour is the last
  sample of the row above (`LeftNeighbourOfColumnZero`).
- A resize does not force the texture to be recaptured (see above).

## Model

| member | source | states |
|---|---|---|
| JsNumbers.Int16 | src/components/WaterRipples.tsx:117 | an `Int16Array` store gives a value in [-32768, 32767], congruent to the stored number modulo 2^16, and equal to it when it already fits |
| JsNumbers.Int32 | src/components/WaterRipples.tsx:121-122 | ToInt32 (applied by `<< 0` and `>>`) gives a value in the int32 range, congruent modulo 2^32, and the identity on int32 values |
| JsNumbers.Sar | src/components/WaterRipples.tsx:113-116 | on an int32 operand, `a >> k` is bracketed as `r * 2^k <= a < (r + 1) * 2^k`, i.e. it rounds toward negative infinity |
| JsNumbers.SarIsFloorDivision | src/components/WaterRipples.tsx:113-116 | `a >> k` equals Dafny's floor division `a / 2^k` for every int32 `a` |
| JsNumbers.TruncDiv | src/components/WaterRipples.tsx:121-122 | the integer part of `a / d` rounds toward zero: non-negative and at most the real quotient for `a >= 0`, non-positive and at least it for `a < 0` |
| HeightField.NeighboursInBounds | src/components/WaterRipples.tsx:103-115 | for every pixel, `m = width*(y+1)+x` lies in `[width, width*(height+1))`, and `m±width` and `m±1` lie in `[0, width*(height+2))`, within the allocated `width*(height+2)*2` |
| HeightField.LeftNeighbourOfColumnZero | src/components/WaterRipples.tsx:111 | at column 0 the `m - 1` neighbour is the last pixel of the previous row, or the top padding row's last sample on row 0 |
| HeightField.DampingShrinks | src/components/WaterRipples.tsx:116 | on an int32 height `v`, `v - (v >> 5)` keeps the sign of `v` and is no larger in size: the damping moves the height toward zero and never past it |
| HeightField.NewHeight | src/components/WaterRipples.tsx:108-116 | defines the unwrapped new height of a sample: the four neighbours in the current map summed and shifted right by 1, minus the previous map's sample, then damped by `>> 5`; its contract states that five zero samples give height 0 |
| HeightField.NewHeightInRange | src/components/WaterRipples.tsx:108-116 | on int16 samples the unwrapped new height lies in `[-98303, 98302]`, so the product with a coordinate difference in the refraction stays far below 2^53 |
| HeightField.NewHeightIsFloorDamping | src/components/WaterRipples.tsx:108-116 | on int16 maps the new height is `v - floor(v/32)` with `v = floor(neighbour sum / 2) - lastMap[m]` |
| HeightField.StepMap | src/components/WaterRipples.tsx:106-117 | defines the previous map after a frame's step: every sample in `[width, width*(height+1))` becomes the int16 wrap of its `NewHeight`, and every other sample keeps its value; its contract keeps the map's length |
| HeightField.StepCell | src/components/WaterRipples.tsx:108-117 | after a step, the sample of pixel `(x, y)` holds `wrap16(v - floor(v/32))` |
| HeightField.StepKeepsPadding | src/components/WaterRipples.tsx:103-107 | a step changes no sample outside `[width, width*(height+1))`: both padding rows and the unused half are kept |
| HeightField.StepKeepsInt16 | src/components/WaterRipples.tsx:117 | a step leaves only int16 values in the map it writes |
| HeightField.RestStepIsFlat | src/components/WaterRipples.tsx:108-117 | if both maps are all zero, the stepped map is all zero |
| HeightField.DisturbMap | src/components/WaterRipples.tsx:165-170 | defines the current map after `disturb(dx, dy)`: sample `i` with row `i / width` and column `i % width` inside the grid and inside the 12 by 12 square gains 600, int16-wrapped, and every other sample is kept; its contract keeps the map's length |
| HeightField.EnergyChangesSample | src/components/WaterRipples.tsx:169 | adding 600 with the int16 wrap always changes a sample, because 600 is not a multiple of 2^16 |
| HeightField.RowColumn | src/components/WaterRipples.tsx:165-169 | `width*j + k` with `0 <= k < width` determines its row `j` and column `k`, so no sample is disturbed twice |
| HeightField.DisturbRaisesSquare | src/components/WaterRipples.tsx:165-170 | every in-grid cell `(k, j)` of `[dx-6, dx+6) x [dy-6, dy+6)` has index `width*j + k` within the map and gains 600, int16-wrapped |
| HeightField.DisturbChangesExactlySquare | src/components/WaterRipples.tsx:165-172 | a sample changes if and only if it is `width*j + k` for an in-grid cell of the square |
| HeightField.DisturbOffGrid | src/components/WaterRipples.tsx:167 | a point whose square misses the grid changes nothing |
| HeightField.DisturbRowOffset | src/components/WaterRipples.tsx:169 | the disturbed index `width*j + k` is the frame's sample for pixel `(k, j-1)`, and lies in the top padding row when `j = 0` |
| Refraction.Offset | src/components/WaterRipples.tsx:120-122 | the offset `((c - half) * h / 1024) << 0` is an int32 and is 0 when the height is 0 |
| Refraction.ClampCoord | src/components/WaterRipples.tsx:127-130 | the clamped coordinate lies in `[0, n-1]` and is unchanged inside it; values at or past `n` become `n-1` and negative values become 0 |
| Refraction.SampleIndex | src/components/WaterRipples.tsx:121-132 | defines the texel index `(newY*width + newX)*4` of the clamped displaced position; at height 0 it is the pixel's own index `4*(y*width + x)`, so the `newHeight !== 0` branch only skips a lookup that would give the same texel |
| Refraction.SampleInBounds | src/components/WaterRipples.tsx:125-135 | for any height, `(newY*width + newX)*4 + c` for `c` in 0..3 lies in `[0, width*height*4)` and is 4-aligned |
| Refraction.Texel | src/components/WaterRipples.tsx:133-139 | a texture read gives the texture's byte inside its bounds, and 0 outside them, where `undefined` is stored into the `Uint8ClampedArray` |
| Refraction.RenderOut | src/components/WaterRipples.tsx:124-140 | defines the output buffer after a frame: channels 0 to 2 of every picture pixel take the texel at the clamped displaced position, or at the pixel's own position when the new height is 0, and alpha and bytes beyond the picture are kept; its contract keeps the buffer's length |
| Refraction.PixelInPicture | src/components/WaterRipples.tsx:103-104 | pixel number `p < width*height` is pixel `(p % width, p / width)` in the picture, and its sample is `width + p` |
| Refraction.PixelChannel | src/components/WaterRipples.tsx:141-142 | channel `c` of pixel `(x, y)` is byte `4*(y*width + x) + c` of the picture, and the byte determines the pixel and channel back |
| Refraction.PixelSample | src/components/WaterRipples.tsx:124-140 | after a frame, channel `c < 3` of pixel `(x, y)` holds channel `c` of the texel at `PixelSource`: the clamped displaced position if the new height is non-zero, else the pixel's own position |
| Refraction.FlatPixelCopiesTexel | src/components/WaterRipples.tsx:136-140 | a pixel whose new height is 0 copies the same-position texel into channels 0 to 2 |
| Refraction.RenderKeepsAlpha | src/components/WaterRipples.tsx:133-139 | a frame never writes channel 3 or any byte past the picture |
| Refraction.RestFrameShowsTexture | src/components/WaterRipples.tsx:108-140 | with both maps flat, a frame's output RGB equals the texture RGB at every pixel, and an output that held the texture still holds exactly it |
| WaterRipples.StepAndRender | src/components/WaterRipples.tsx:97-144 | the fused loop leaves `rippleMap` unwritten, turns `lastMap` into `StepMap(rippleMap, lastMap)` and the output into `RenderOut` of the old maps |
| WaterRipples.StepSample | src/components/WaterRipples.tsx:108-117 | one pixel's step returns the unwrapped new height and stores its int16 wrap at `mapIndex` only |
| WaterRipples.RefractedSource | src/components/WaterRipples.tsx:119-132 | with height 0 the source texel is the pixel's own; otherwise it is the clamped displaced texel, and always within `[0, width*height*4)` |
| WaterRipples.RefractPixel | src/components/WaterRipples.tsx:124-140 | one pixel's render writes its three colour channels with the source texel's and leaves everything else |
| WaterRipples.Store | src/components/WaterRipples.tsx:133-139 | defines a `Uint8ClampedArray` write as a value: the byte at `i` is replaced when `i` is in range, and the write is dropped otherwise; its contract keeps the buffer's length |
| WaterRipples.StoreChangesOneByte | src/components/WaterRipples.tsx:133-139 | a write in range sets exactly byte `i` and keeps every other byte; a write past the end leaves the buffer unchanged |
| WaterRipples.StoreByte | src/components/WaterRipples.tsx:133-135 | a `Uint8ClampedArray` store changes exactly that byte if it is in range and nothing otherwise |
| WaterRipples.Ripples.constructor | src/components/WaterRipples.tsx:15-25 | at mount the sizes and both halves are 0, both maps are empty, the texture and output are empty, and nothing is captured |
| WaterRipples.Ripples.Init | src/components/WaterRipples.tsx:39-53 | sets the sizes, `halfW = width >> 1` (`width / 2` below 2^31) and likewise `halfH`, and allocates two fresh all-zero maps of `width*(height+2)*2` samples; the capture is kept |
| WaterRipples.Ripples.Capture | src/components/WaterRipples.tsx:57-63 | the canvas snapshot becomes the texture and the content of a fresh output buffer; the maps are untouched |
| WaterRipples.Ripples.Frame | src/components/WaterRipples.tsx:88-152 | before capture nothing changes; afterwards the map refs are exchanged, the new current map is `StepMap` of the old maps, the new previous map is the old current map unchanged, and the output is `RenderOut` |
| WaterRipples.Ripples.Disturb | src/components/WaterRipples.tsx:161-173 | the current map becomes `DisturbMap(width, height, dx, dy)` and the previous map is unchanged |
| WaterRipples.Ripples.MapsHoldPaddedGrid | src/components/WaterRipples.tsx:50-53 | the allocated maps hold the `width*(height+2)` samples a frame reads |
| WaterRipples.StillSurfaceShowsImage | src/components/WaterRipples.tsx:39-152 | `init`, the image's `onload` and one `render` over a still surface show the captured picture exactly |

## Left out

- `drawImageCover` (src/components/WaterRipples.tsx:67-85) is left out. It
  does floating-point cover-fit arithmetic and feeds it to
  `CanvasRenderingContext2D.drawImage`. The captured texture is an
  arbitrary byte sequence passed to `Capture`.
- Canvas and DOM calls are not modelled: `getContext`, `getImageData`,
  `putImageData`, `new Image()` and its asynchronous `onload`,
  `requestAnimationFrame`, `cancelAnimationFrame`, and the window `resize`
  and `mousemove` listeners. `Init`, `Capture`, `Frame` and `Disturb` are
  ordinary sequential calls that the host makes in any order.
- The float-to-int pointer conversion in `handleMouseMove` is left out.
  `Disturb` takes integer coordinates.
- JavaScript numbers are modelled as exact integers. This is exact for the
  engine as long as the products `(x - halfW) * newHeight` stay below
  2^53. The quotient of such an integer by 1024 is then a double computed
  exactly.
- The energy-decay property (repeated steps after one disturbance dissipate
  the energy) is not stated or proved. Only the local fact is proved: one
  damping moves a height toward zero (`DampingShrinks`). Stores wrap to int16, so no bound on
  the heights is claimed beyond the int16 range of the stored samples.
- The rest of the site is not part of this model: the contact form and its
  e-mail call, the project modal, the preloader with its random particles,
  and the other UI components. They are declarative UI, network calls or
  randomness.
