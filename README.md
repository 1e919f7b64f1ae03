# Dither and frame-loop model of `js/main.js`

The page draws a black-hole ray-marcher with WebGL at a fifth of the display
resolution, reads the frame back into a byte buffer and post-processes it on
the CPU with `applyDitheringAndAberration`. That routine works in three steps:

1. it takes the mean of R, G and B of every pixel into a working array;
2. it runs a two-level Floyd–Steinberg error diffusion (kernel 7/16, 3/16,
   5/16, 1/16) over that array in place, in raster order;
3. it composes the RGBA output. Black pixels become opaque black; lit pixels
   copy RGB from the original buffer, with an optional horizontal red/blue
   shift clamped to the row.

Around it, the frame loop keeps per-page state of three kinds:

- closure variables of `init()`: the enable flag and its stored preference,
  the clamped radius target and the reveal progress;
- the canvas's drawing-buffer `width`/`height`;
- the module-level globals `framebuffer` and `pixelBuffer`, which the
  module-level `initFramebuffer` writes: whether the off-screen render
  targets exist, and the readback buffer.

Each `render` call advances the progress and recomputes the render size. It
recreates the targets on a resize, and then skips, stops or renders.

The project has four modules:

- `DitherSpec` (`dither_spec.dfy`) specifies the routine as pure functions on
  sequences: `Luminance`, `Quantize`, `Weight`, `DiffuseAt`, `Diffused`,
  `Levels`, `ComposedPixel` and `Composed`. It proves the properties of the
  diffusion and the composition about those functions.
- `Dither` (`dither.dfy`) is the routine as it runs. Class `DitherBuffers`
  holds the four module-level buffers (`ditherLum`, `ditherWork`, `ditherOut`,
  `ditherOutput`) as arrays, which `Apply` reallocates only when they are
  missing or too short. The luminance loop, the nested y/x diffusion loops and
  the composition loop are methods over those arrays. Each is proved against
  the `DitherSpec` function it implements.
- `DitherGolden` (`golden.dfy`) is a regression case worked out exactly: the
  4×4 all-white buffer with offset 0.
- `Frame` (`frame.dfy`) covers:
  - the stored-preference default;
  - the radius clamp;
  - the progress counter;
  - the render size;
  - the resize/skip/stop decision;
  - class `Orchestrator`, which gathers into one object the state that
    `toggleWebGL`, `adjustRadius`, `render` and `initFramebuffer` update:
    `init()`'s closure variables (`webglEnabled`, `progress`,
    `targetRadius`), the canvas's `width`/`height`, the module globals
    `framebuffer`/`pixelBuffer`, and the number of queued `render`
    callbacks;
  - a corrected toggle and render (`ToggleChecked`, `RenderChecked`) that keep
    a pending-frame flag, so at most one render loop ever runs (see
    "## Findings").

Float32 values, and the doubles of the frame loop, are modelled as exact
reals, so the divisions by 3 and by 16 are exact. JavaScript's `v | 0` is modelled as truncation toward zero followed
by wrap-around to a signed 32-bit integer (`DitherSpec.ToInt32`).

Running the kernel by hand on a 4×4 all-white image (luminance 255 everywhere)
gives the following (`DitherGolden.AllWhiteGolden`):

- pixel 0 is visited at exactly 255, which is below 256, so it quantises to 0
  and hands all 255 on;
- every later pixel has been pushed past 256 before it is visited, so it
  comes out white.

The output is therefore one black pixel followed by fifteen white ones.

## Model

| member | source | states |
|---|---|---|
| DitherSpec.LumOf | js/main.js:189-191 | The luminance of a pixel lies in [0, 255]. A grey pixel (R = G = B) has luminance equal to its channel value. |
| DitherSpec.Luminance | js/main.js:189-192 | One luminance value per pixel for the first n pixels, each in [0, 255]. |
| DitherSpec.Quantize | js/main.js:201 | Every quantised level is exactly 0 or 255. |
| DitherSpec.QuantizeIsThreshold | js/main.js:201 | The level is 0 exactly when the value is below 256, and 255 exactly when it is 256 or more. The explicit `=== 0` case adds nothing. |
| DitherSpec.Residual | js/main.js:201-202 | The error handed on is the whole value below the threshold, and the value minus 255 at or above it. |
| DitherSpec.Weight | js/main.js:195-209 | Every share is in [0, 7/16]. A nonzero share goes only to a later index inside the image: error never flows backwards or out of bounds. |
| DitherSpec.Spread | js/main.js:200-209 | The four `+=` updates of one visit, in source order; the length is unchanged. Their effect is stated by DiffuseAtShares. |
| DitherSpec.DiffuseAt | js/main.js:199-209 | One visit at index i, with its column and row-below test derived from i. The length is unchanged; the per-index effect is stated by DiffuseAtShares. |
| DitherSpec.DiffuseAtShares | js/main.js:204-209 | A visit adds to every index j exactly Weight(i, j) times the residual of pixel i. |
| DitherSpec.Diffused | js/main.js:196-211 | The working array after the first k raster-order visits has the input's length. |
| DitherSpec.DiffusedKeepsTail | js/main.js:204-209 | The pass never writes an index at or beyond w·h. |
| DitherSpec.DiffusedTail | js/main.js:195-211 | After the whole pass, everything past w·h is exactly the input's tail. |
| DitherSpec.DiffuseAtPrefix | js/main.js:199-209 | A visit neither reads nor writes past w·h: on the first w·h entries it equals the same visit on those entries alone. |
| DitherSpec.DiffusedPrefix | js/main.js:195-211 | Stale entries past w·h, left in a reused buffer by an earlier, larger frame, never reach the image: the pass over the longer array agrees on its first w·h entries with the pass over those entries alone. |
| DitherSpec.Levels | js/main.js:196-203 | One level per pixel, each 0 or 255, judged on the pixel's value when it is visited. |
| DitherSpec.LevelsPrefix | js/main.js:195-211 | The levels depend only on the first w·h working values. |
| DitherSpec.OnlyUnvisitedReceive | js/main.js:204-209 | A visit at i leaves every index j ≤ i, and every index outside the image, unchanged. |
| DitherSpec.InteriorConservesError | js/main.js:195-208 | For a pixel with all four neighbours, the neighbours' gains add up to exactly oldVal − newVal. |
| DitherSpec.LastColumnTargets | js/main.js:204-208 | A last-column pixel sends error only below-left and below, and only when a next row exists. |
| DitherSpec.FirstColumnTargets | js/main.js:204-208 | A first-column pixel sends nothing below-left, so none of its error wraps to the end of its own row; it reaches only right, below and below-right. |
| DitherSpec.LastRowTargets | js/main.js:204-205 | A last-row pixel sends error only to its right neighbour, and only when one exists. |
| DitherSpec.VisitedIsFrozen | js/main.js:196-209 | Once visited, a pixel's working value never changes again. |
| DitherSpec.LevelsOfFinal | js/main.js:196-211 | Every level is the quantised final working value of its pixel. |
| DitherSpec.ZeroStaysBlack | js/main.js:201 | A pixel whose value is exactly 0 when visited gets level 0. |
| DitherSpec.ClampX | js/main.js:187 | For a positive width the result is a column in [0, w) and equals max(0, min(w−1, x)). |
| DitherSpec.Trunc | js/main.js:186 | Truncation toward zero: within 1 of the value, on the side of zero. |
| DitherSpec.ToInt32 | js/main.js:186 | `v \| 0` is in the signed 32-bit range, congruent to the truncation mod 2^32, and equal to it when the truncation is in range. |
| DitherSpec.EffectiveOffset | js/main.js:186 | A negative offset (down to −2^31) counts as 0. A non-negative offset below 2^31 counts as its floor. |
| DitherSpec.ComposedPixel | js/main.js:213-230 | Alpha is 255. Level 0 gives RGB 0 whatever the offset. A lit pixel takes red from column min(w−1, x+off), green from column x and blue from column max(0, x−off), all on its own row of the original buffer. |
| DitherSpec.ZeroOffsetCopies | js/main.js:226-229 | With offset 0, a lit pixel is the original RGB, made opaque. |
| DitherSpec.Composed | js/main.js:213-231 | 4·w·h bytes. Every alpha byte is 255, and every colour byte of a level-0 pixel is 0. |
| DitherSpec.ComposedPrefix | js/main.js:213-231 | The composed output reads only the first w·h levels. |
| Dither.DitherBuffers.constructor | js/main.js:171 | No buffer is allocated before the first frame. |
| Dither.DitherBuffers.Apply | js/main.js:173-233 | Returns the output buffer and never writes the input. Buffers are reallocated only when missing or shorter than w·h, otherwise reused. With L = Luminance(input), the first w·h luminance entries are L. The first w·h working values are Diffused(L), and the rest of the working array is a copy of the luminance array's tail. The first w·h levels are Levels(L), and the first 4·w·h output bytes are Composed(input, Levels(L), EffectiveOffset(off)). So the result depends only on the input pixels, the size and the offset, whatever a reused buffer held before. Luminance and level entries past w·h, and output bytes past 4·w·h, keep their old values. |
| Dither.DitherBuffers.Reserve | js/main.js:178-183 | All four buffers are fresh and of length n exactly when they were missing or shorter than n; otherwise the same objects are kept. |
| Dither.Run | js/main.js:189-231 | The three steps in order, with L = Luminance(input). The first w·h luminance entries are L. The first w·h working values are Diffused(L), and the working tail is the luminance tail. The first w·h levels are Levels(L). The first 4·w·h output bytes are Composed(input, Levels(L), off). The luminance, level and output tails are unchanged. So the result on the image depends only on the input pixels, the size and the offset. |
| Dither.FillLuminance | js/main.js:189-192 | The first n luminance entries equal Luminance(input); the rest are unchanged. |
| Dither.CopyInto | js/main.js:193 | The working array becomes a copy of the luminance array. |
| Dither.VisitPixel | js/main.js:199-209 | One loop body: the working array becomes DiffuseAt of its old value, and only level i is written, with Quantize of the old working value. |
| Dither.Spread1 | js/main.js:200-209 | The in-place updates equal Spread of the old working array, and the level written is Quantize of the old value. |
| Dither.PassStep | js/main.js:196-209 | One visit advances the pass invariant by one pixel. |
| Dither.VisitRow | js/main.js:197-210 | One iteration of the y loop: the x loop over row y advances the pass from pixel y·w to pixel y·w + w. |
| Dither.PassPixel | js/main.js:198-210 | One iteration of the x loop advances the pass invariant (working values equal Diffused, levels equal Levels so far, untouched tail) by one pixel. |
| Dither.DiffuseInPlace | js/main.js:195-211 | The nested y/x loops leave the working array equal to Diffused(old, w·h) and the first w·h levels equal to Levels(old). Later levels are unchanged. |
| Dither.ComposeStep | js/main.js:213-231 | Writing pixel i's four bytes, and nothing else, extends the composed prefix by one pixel. |
| Dither.SamplePixel | js/main.js:214-229 | The three colour bytes read with the routine's own addressing (`y * w4 + clampX(...) * 4`) are those of ComposedPixel. |
| Dither.WritePixel | js/main.js:213-230 | Bytes 4i..4i+4 of the output become ComposedPixel(i), and no other output byte changes. |
| Dither.Compose | js/main.js:213-231 | The first 4·w·h output bytes equal Composed(input, levels, off); the rest are unchanged. |
| DitherGolden.WhiteVisit | js/main.js:196-209 | Each of the 16 visits over the all-white 4×4 image moves between exact intermediate states. |
| DitherGolden.WhiteDiffused | js/main.js:196-211 | The raster pass over the all-white luminance goes through exactly those states. |
| DitherGolden.WhiteQuantized | js/main.js:201 | Pixel 0 is visited at 255 and quantises to 0; every later pixel quantises to 255. |
| DitherGolden.WhiteLuminance | js/main.js:189-192 | Every pixel of the all-white buffer has luminance 255. |
| DitherGolden.WhiteLevels | js/main.js:195-211 | The levels of the all-white 4×4 image are one 0 followed by fifteen 255s. |
| DitherGolden.AllWhiteGolden | js/main.js:173-233 | The all-white 4×4 buffer with offset 0 comes out as opaque black for pixel 0 and all-255 bytes for the other 15 pixels. |
| Frame.StoredEnabled | js/main.js:311-312 | The effect is disabled exactly when the stored preference is the string "0"; a missing preference means enabled. |
| Frame.Persisted | js/main.js:318 | The toggle stores "1" or "0". |
| Frame.PersistRoundTrip | js/main.js:311-318 | Reading back what the toggle stored gives the flag that was stored. |
| Frame.ClampRadius | js/main.js:339 | The result is in [0.25, 1.2]. It is the identity inside that range and the nearer bound outside it. |
| Frame.ClampRadiusIdempotent | js/main.js:339 | Clamping an already clamped target changes nothing. |
| Frame.NextProgress | js/main.js:370 | Progress never exceeds 1, never decreases, and strictly grows while below 1. |
| Frame.ProgressClosedForm | js/main.js:370 | In exact arithmetic, progress after k frames from 0 is min(1, k·0.0025), so it saturates after 400 frames. With the program's doubles it reaches 1 one frame later. |
| Frame.ProgressMonotone | js/main.js:370 | Across frames, progress is non-decreasing and stays in [0, 1]. |
| Frame.RenderSize | js/main.js:376-377 | The render dimension is at least 1. It equals max(1, ⌊display/5⌋) for any display size in the 32-bit range, so 5·r ≤ display < 5·r + 5 once the display is at least 5. |
| Frame.FrameDecision | js/main.js:390-395 | Skip exactly when targets are missing or the canvas has zero area. Render exactly when targets exist, the area is positive and the effect is enabled. Stopping needs a canvas of positive area. |
| Frame.FrameDecisionChecked | js/main.js:390-395 | Corrected decision: disabled always stops; when enabled it agrees with FrameDecision. |
| Frame.HiddenCanvasNeverStops | js/main.js:319-395 | With the canvas hidden (client size 0 × 0) and the effect disabled, the frame is skipped and rescheduled, never stopped. The corrected decision stops. |
| Frame.Orchestrator.constructor | js/main.js:310-440 | Enabled is read from the stored preference. Progress starts at 0 and the radius target at 0.6 on mobile, 0.4 otherwise. There are no render targets yet. Exactly one `render` is queued, whatever the preference. |
| Frame.Orchestrator.Toggle | js/main.js:315-322 | Under reduced motion nothing changes and nothing is scheduled. Otherwise the flag flips and the new value is stored. A `render` is queued exactly when the effect was turned on, on top of any already queued. |
| Frame.Orchestrator.ToggleChecked | js/main.js:315-322 | Corrected toggle: the flag flips and is stored as before, but a `render` is queued only when the effect was turned on and none is pending. It keeps OneLoop: at most one queued `render`, and exactly one while enabled. |
| Frame.Orchestrator.AdjustRadius | js/main.js:338-340 | The target becomes ClampRadius(old target + delta), so it stays in [0.25, 1.2] after any delta. |
| Frame.Orchestrator.InitFramebuffer | js/main.js:237-264 | Fresh targets of the requested size, and a fresh readback buffer of exactly width·height·4 bytes. |
| Frame.Orchestrator.Prepare | js/main.js:370-388 | Progress advances by NextProgress and the render size is RenderSize of the display size. The canvas takes the display size. Targets are recreated exactly once when the size changed, or when none exist and the area is positive; otherwise the old buffer is kept. |
| Frame.Orchestrator.Render | js/main.js:363-437 | The effects of Prepare: progress, render size, canvas size, recreation count, and a readback buffer that is fresh after a recreation and otherwise the same object. Then the outcome FrameDecision(targets, canvas size, enabled). The callback that ran is used up, and a skipped or rendered frame queues `render` again. A rendered frame has a readback buffer of exactly 4·renderWidth·renderHeight bytes, which the dither call needs. |
| Frame.Orchestrator.RenderChecked | js/main.js:363-437 | As Render, but the enable test comes before the skip test, so the outcome is FrameDecisionChecked. The pending flag is cleared on entry and set on every reschedule. It keeps OneLoop: after the frame, exactly one `render` is queued when enabled and none when disabled. |
| Frame.ResizeScenario | js/main.js:379-388 | Resizing from 800×600 to 400×300 recreates the targets exactly once, at 80×60. |
| Frame.ToggleOffOnLoops | js/main.js:315-440 | Off, one frame on the hidden canvas, then on: two `render` callbacks are queued, so two loops run. |
| Frame.QuickToggleLoops | js/main.js:315-440 | Off and on again before the next frame: the frame queued earlier and the toggle's make two loops. |
| Frame.ToggleOffOnLoopsChecked | js/main.js:315-440 | The hidden-canvas sequence with the corrected toggle and render leaves exactly one loop. |
| Frame.QuickToggleChecked | js/main.js:315-440 | The quick off/on with the corrected toggle and render leaves exactly one loop: the pending frame is reused. |

## Left out

- The WebGL side is not modelled:
  - shader compilation and the GLSL ray marcher;
  - buffer setup;
  - texture and framebuffer creation and deletion;
  - `gl.viewport`, `readPixels`, `texSubImage2D` and the blit.

  These are foreign GPU calls and floating-point shading. `initFramebuffer` is
  only the event "targets recreated with a fresh readback buffer of the right
  size". After the skip/stop tests, `Render` stops at the outcome; the
  readback and the dither call on `pixelBuffer` are not chained into it. It
  states the buffer-size fact that the call's precondition needs.
- The DOM, `localStorage`, `matchMedia`, `navigator.userAgent` and the event
  wiring are host I/O. The stored preference is a field, reduced motion and
  mobile are constructor parameters, and `canvas.clientWidth`/`clientHeight`
  are `Render`'s parameters. A hidden canvas reporting 0 × 0 is host
  behaviour, so the model supplies it as that input.
- `requestAnimationFrame` timing is host-driven. The model keeps only the
  number of queued `render` callbacks (the ghost field `queued`): `init()` and
  every reschedule add one, and a call of `Render` uses one up. When the host
  runs them, and the `now` timestamp, are not modelled.
- `easeOutBack` and the exponential smoothing of the mouse and radius
  (including `timeScale`) are pure floating-point animation with no checkable
  promise. The smoothed radius is not claimed to stay in [0.25, 1.2].
- The invert toggle is outside this model: it only flips a CSS class and
  writes a stored preference.
- DitherSpec.LumOf: Float32 rounding is not modelled; values are exact reals.
  Threshold outcomes very close to 256 may differ from the hardware.
- DitherSpec.EffectiveOffset: NaN and ±Infinity offsets (which `| 0` maps to
  0) are not modelled, because offsets are reals. The only caller passes 0.
- Dither.DitherBuffers.Apply requires an input of at least 4·w·h bytes, which
  the only caller guarantees (`pixelBuffer` is sized from the same render
  dimensions). Out-of-range reads of a typed array (`undefined`, giving NaN)
  are not modelled.
- Frame.ProgressClosedForm: `progress`, `targetRadius` and `RENDER_SCALE` are
  JavaScript doubles, but the model uses exact reals. 0.0025 has no exact
  binary form, so in doubles progress is still just below 1 after 400 frames
  and first reaches 1 at frame 401. The clamp bounds of `ClampRadius` hold in
  doubles as well, because `Math.min`/`Math.max` round nothing.
- Frame.RenderSize: the model includes `| 0`'s 32-bit wrap. The
  ⌊display/5⌋ characterisation is stated only for display sizes below 5·2^31.

## Findings

| source | as written | input that shows it | evidently intended | confidence | as-written member | corrected member |
|---|---|---|---|---|---|---|
| js/main.js:319-395 | A disabled effect hides the canvas (`display: none`), so `clientWidth`/`clientHeight` read 0. `render` then takes the skip branch, which reschedules, on every frame. The `if (!webglEnabled) return;` stop is never reached, and turning the effect back on calls `requestAnimationFrame(render)` again. | Enabled page: one frame at 1600×900, toggle off, one frame at 0×0 (Skipped, rescheduled), toggle on (schedules again). Two render loops now run, and each further off/on cycle adds one. Toggling off and on before the next frame also gives two loops, because the frame queued earlier is still pending. | At most one loop is ever queued, and exactly one while the effect is enabled. A frame that runs while disabled stops, because the enable test comes before the zero-size skip. Turning the effect on queues `render` only when no frame is pending. | not executed; the first input relies on hidden elements reporting a client size of 0 | Frame.ToggleOffOnLoops, Frame.QuickToggleLoops, Frame.HiddenCanvasNeverStops | Frame.Orchestrator.RenderChecked, Frame.Orchestrator.ToggleChecked, Frame.ToggleOffOnLoopsChecked, Frame.QuickToggleChecked |
