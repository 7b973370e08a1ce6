# Double-buffered simulation loop of fractal.py

fractal.py keeps a per-pixel simulation state `(x, y, vx, vy)` in two 600×600
float textures. Each texture is attached to its own framebuffer. Every frame:

- An update fragment program advances the state from one texture into the other.
- A render fragment program draws the state onto the window.
- Every 1200 frames, one pixel of the state is read back to the host and printed.

This project models that loop and proves its properties in Dafny. It has three modules:

- **Pixels** (`pixels.dfy`) holds the pixel and image values and the sampling of one pixel.
  - The full-screen quad covers every pixel, so a draw call is modelled as `Rasterize`: the fragment program evaluated at every pixel.
  - The host-side nested loops that build the initial grid are the method `BuildInitialData`, a `for y`/`for x` loop over a host array. It is proved to produce `InitialImage`.
- **Loop** (`loop.dfy`) is the loop as a state machine on values. One tick is `Step`:
  - It polls events, runs the update pass, flips `current_buffer`, runs the render pass, runs the periodic diagnostic and increments `frame`.
  - `Steps` runs the loop over a sequence of per-tick quit flags.
  - The lemmas state what one tick and a whole run do to the textures, the screen, `current_buffer`, `frame`, `running` and the diagnostic log.
  - The module also holds the loop as evidently intended (`IntendedStep`); see Findings.
- **Simulation** (`simulation.dfy`) holds the class `Simulation`, whose fields are the program's mutable state: the two textures, the screen, `currentBuffer`, `frame` and `running`.
  - It also has a ghost trace of draw calls and a ghost log of diagnostic readbacks.
  - The constructor performs the start-up: it writes the initial grid into texture 0 and does one readback.
  - `Tick` performs one iteration of the `while running` body in place, and `Run` performs the loop. Both are proved to follow `Loop.Step` and `Loop.Steps`.
  - Their `Valid` invariant is `Loop.Valid`: two textures, and `current_buffer` is 0 or 1.

The update and render shaders are opaque: their GLSL text is not part of this model. They are function parameters:

- The update program maps the sampled texture, `dt`, `if_frame0` and a pixel `(x, y)` to that pixel's new state.
- The render program maps the sampled texture and a pixel to the colour drawn there.

The initial contents of texture 1 are a parameter (`slot1`), because the program allocates that texture and never writes it before the loop.

Where fractal.py's own comments or a first reading suggest otherwise, the model follows the code:

- The comments at fractal.py:62-63 say `x ∈ [-1, 1]`. In fact `nx = x/width*2-1` with `x < width` gives positions in [-1, 1), never reaching 1. On a 2×2 grid the positions are -1 and 0 (`InitialImageTwoByTwo`), not -1 and 1.
- The diagnostic is checked before `frame += 1` (fractal.py:103, 117). It therefore fires at frames 0, 1200, 2400, … counted before the increment.
- The comment at fractal.py:102 speaks of the top-left pixel. The readback takes pixel (300, 300), the centre of the 600×600 texture, and the model follows that.
- A quit event only sets `running = False`. The rest of that tick (update, flip, render, diagnostic, increment) still runs, and the loop ends at the next `while` test (fractal.py:77-80, 117).
- The render pass and the diagnostic do not observe this tick's update output. They observe the slot the update sampled. See Findings.

## Model

| member | source | states |
|---|---|---|
| Pixels.Sample | fractal.py:105-113 | a readback of pixel (x, y) of a texture is `img[y][x]` whenever (x, y) lies inside the image |
| Pixels.Rasterize | fractal.py:31-36 | a draw of the full-screen quad into a w×h target gives a w×h image whose pixel (x, y) is the fragment program's value at (x, y), for every pixel |
| Pixels.Cleared | fractal.py:84 | `ctx.clear()` leaves a full-size target in which every pixel is zero |
| Pixels.InitialPixel | fractal.py:62-64 | the initial state of pixel (x, y) has position in [-1, 1) × [-1, 1), velocity (0, 1), and `nx·w = 2x − w`, `ny·h = 2y − h` (the linear map x/w·2−1) |
| Pixels.UnitInterval | fractal.py:62-63 | helper of InitialPixel: for 0 ≤ n < d the quotient n/d lies in [0, 1) and n/d·d = n, so the mapped coordinate stays below 1 |
| Pixels.InitialImage | fractal.py:58-64 | the initial grid has h rows of w pixels |
| Pixels.Grid | fractal.py:66-67 | the host array uploaded by `write` is read as an image with the array's dimensions and the same pixel at every [y][x] |
| Pixels.BuildInitialData | fractal.py:58-66 | the nested `for y`/`for x` loops fill a fresh h×w array whose every pixel [y][x] is the initial state of (x, y) |
| Pixels.InitialImageAt | fractal.py:60-64 | pixel [y][x] of the initial grid is the mapping of (x, y), with vy = 1 |
| Pixels.InitialImageTwoByTwo | fractal.py:62-64 | on a 2×2 grid the initial pixels are (−1,−1), (0,−1), (−1,0), (0,0) with velocity (0,1), row-major |
| Pixels.InitialImageFourByFour | fractal.py:62-64 | on a 4×4 grid pixel (2, 1) starts at (0, −0.5) with velocity (0, 1) |
| Loop.Flip | fractal.py:92 | `1 - current_buffer` maps an index in {0, 1} to the other index in {0, 1} |
| Loop.FlipInvolution | fractal.py:92 | flipping the buffer index twice restores it |
| Loop.UpdateOutput | fractal.py:85-89 | the update pass produces a full-size image whose pixel (x, y) is the update program applied to the sampled texture, dt = 0.00001, if_frame0 = the raw frame counter, at (x, y) |
| Loop.RenderOutput | fractal.py:95-98 | the render pass produces a full-size screen whose pixel (x, y) is the render program applied to the sampled texture at (x, y) |
| Loop.Initial | fractal.py:67-75 | before the first tick: running, frame 0, current_buffer 0, no draw call and no readback logged yet, texture 0 holds the initial grid, texture 1 is untouched, and both are full size when texture 1 is |
| Loop.Step | fractal.py:77-117 | a tick keeps two textures and current_buffer in {0, 1} |
| Loop.PollEvents | fractal.py:78-80 | event polling clears running exactly when a quit is seen and changes nothing else |
| Loop.UpdatePassStep | fractal.py:83-89 | the update pass sets texture `current` to the update of texture `1 - current` with dt and the raw frame counter, leaves texture `1 - current`, records one update draw sampling `1 - current` into `current`, and changes no other field |
| Loop.FlipBuffers | fractal.py:92 | the flip moves current_buffer to the other index in {0, 1} and changes nothing else |
| Loop.RenderPassStep | fractal.py:95-98 | the render pass sets the screen to the render of texture `current`, records one render draw sampling `current`, and leaves both textures and the counters alone |
| Loop.DiagnosticStep | fractal.py:103-115 | when frame % 1200 == 0 the log gains exactly one entry (frame, 300, 300, pixel of texture `current`), which is `textures[current][300][300]` for full-size textures; otherwise the log is unchanged; nothing else changes |
| Loop.AdvanceFrame | fractal.py:117 | `frame += 1` increments frame by one and changes nothing else |
| Loop.UpdateWritesCurrentSamplesOther | fractal.py:83-89 | the update pass writes texture `current` with the program applied to texture `1 - current`, leaves texture `1 - current` as it was, and records that it sampled a slot other than the one it wrote |
| Loop.UpdateIgnoresTargetContents | fractal.py:83-89 | the outcome of a tick does not depend on what the written slot held before: it is cleared and then fully covered (that the update samples the other slot is UpdateWritesCurrentSamplesOther) |
| Loop.StepNeverSamplesTarget | fractal.py:83-85 | a tick preserves the invariant that no update pass so far sampled the slot it wrote |
| Loop.StepsNeverSampleTarget | fractal.py:77-85 | a whole run preserves the same invariant |
| Loop.StepKeepsFullSize | fractal.py:83-89 | a tick keeps both textures 600×600 |
| Loop.StepsKeepFullSize | fractal.py:77-89 | a whole run keeps both textures 600×600 |
| Loop.RenderSamplesUpdateInput | fractal.py:92-98 | after the flip the render pass samples the texture the update read (not the one it wrote), shows the render program applied to it, and leaves both textures as the update pass left them (the trace gains exactly the update then the render draw) |
| Loop.RenderShowsPreviousTick | fractal.py:83-98 | the screen of tick N+1 is the render of tick N's update output: the display lags one tick |
| Loop.DiagnosticReadsFrontSlot | fractal.py:103-113 | the log gains one entry (frame, 300, 300, pixel read) exactly when frame % 1200 == 0, read from the slot the render pass sampled; (300, 300) lies inside a full-size texture |
| Loop.QuitCompletesTick | fractal.py:77-117 | a tick that sees quit has the same outcome as one that does not, except that running is false |
| Loop.StepControl | fractal.py:77-117 | each tick increments frame by one, flips current_buffer, and leaves running true exactly when it was running and saw no quit |
| Loop.FirstTickIgnoresInitialGrid | fractal.py:67-105 | the first tick overwrites texture 0 (the initial grid), before the loop reads it, with the update of texture 1, keeps texture 1, shows texture 1 and logs frame 0's readback from texture 1 |
| Loop.TicksRun | fractal.py:77-80 | the number of ticks run is at most the number of quit flags given |
| Loop.TicksRunFirstQuit | fractal.py:77-80 | the loop runs every tick when no quit comes, and otherwise exactly up to and including the tick that saw the first quit |
| Loop.Steps | fractal.py:77 | a whole run keeps two textures and current_buffer in {0, 1} |
| Loop.DiagnosticFramesExactly | fractal.py:103 | among frames [lo, hi) the diagnostic fires at f if and only if f % 1200 == 0 |
| Loop.DiagnosticFramesIncreasing | fractal.py:103-117 | the diagnostic frames come in strictly increasing order |
| Loop.DiagnosticFramesSplit | fractal.py:103-117 | the diagnostic frames of [lo, hi) are those of frame lo followed by those of [lo+1, hi) |
| Loop.StepCounters | fractal.py:92-117 | a tick moves current_buffer, frame, running and the list of diagnosed frames as the counter abstraction says |
| Loop.TickCounters | fractal.py:92-117 | any successor state with the tick's control and log changes has the counters of one tick |
| Loop.LoggedFrames | fractal.py:103-115 | a log extended by one tick's diagnostic records exactly that tick's diagnostic frame, if any |
| Loop.StepsCounters | fractal.py:77-117 | a whole run moves the counters as the counter abstraction of the run says |
| Loop.CountFrames | fractal.py:77-117 | over a run from a running state, frame grows by the number of ticks run, and running is false exactly when some flag was a quit |
| Loop.ParityAfterFlip | fractal.py:92 | helper of Alternate: flipping and then adding m has the parity of adding m + 1 |
| Loop.Alternate | fractal.py:73-92 | after n ticks current_buffer is the starting index plus n, modulo 2 |
| Loop.DiagnosedAfterOneTick | fractal.py:103-117 | the frames diagnosed in one tick followed by those of the next n − 1 ticks are those of n ticks |
| Loop.DiagnosedFrames | fractal.py:103-117 | over a run, the diagnosed frames gain exactly the multiples of 1200 among the frames run, in order |
| Loop.RunCounters | fractal.py:73-117 | over a run of the full state: frame grows by the ticks run, current_buffer flips once per tick, running ends false exactly when a quit was seen |
| Loop.RunFields | fractal.py:73-117 | any state with the counters of a run from s has the frame, current_buffer and running RunCounters states |
| Loop.DiagnosticCadence | fractal.py:75-117 | from frame 0, frame f is diagnosed if and only if f was run and f % 1200 == 0 (frames 0, 1200, 2400, …) |
| Loop.RunDiagnosticCadence | fractal.py:73-117 | a run of the loop from the start-up state logs readbacks at exactly the frames run that are multiples of 1200, in increasing order |
| Loop.CadenceFields | fractal.py:103-117 | any state with the counters of a run from the start-up counters has logged exactly the cadence's frames |
| Loop.InitialCounters | fractal.py:73-75 | the start-up state is buffer 0, frame 0, running, nothing logged, the counters DiagnosticCadence starts from |
| Loop.IntendedUpdatePassStep | fractal.py:83-89 | the corrected update pass writes texture `1 - current` with the update of texture `current`, leaves texture `current`, records that draw, and changes no other field |
| Loop.IntendedStep | fractal.py:77-117 | the corrected tick keeps two textures and current_buffer in {0, 1} |
| Loop.IntendedRenderSeesThisTick | fractal.py:83-113 | with the corrected update (sample `current`, write `1 - current`) the render pass and the diagnostic observe exactly this tick's update output, and the update consumes the previous tick's front slot |
| Loop.IdentityOutput | fractal.py:83-89 | an update program that copies the sampled pixel reproduces any full-size texture |
| Loop.IntendedIdentityKeepsFront | fractal.py:83-96 | with the corrected update and the copying program, the front slot is unchanged by a tick |
| Loop.IntendedIdentityKeepsInitialGrid | fractal.py:67-96 | with the corrected update and the copying program, the front slot still holds the initial grid after one and after two ticks |
| Loop.AsWrittenIdentityLosesInitialGrid | fractal.py:67-85 | as written, with texture 1 zero, the copying program leaves pixel (2, 1) zero in both slots after the first tick, while its initial state has vy = 1 |
| Loop.AsWrittenRenderShowsStaleSlot | fractal.py:83-98 | as written, on the first tick an update that yields p ≠ 0 everywhere is not what the screen shows: the screen shows zero at (0, 0), unlike the render of the update output |
| Simulation.Simulation.constructor | fractal.py:44-75 | start-up leaves the object in the initial state: texture 0 holds the initial grid, texture 1 is untouched, both full size, buffer 0, frame 0, running; the startup readback changes nothing |
| Simulation.Simulation.Readback | fractal.py:105-113 | a readback returns pixel (x, y) of the chosen texture and changes nothing |
| Simulation.Simulation.DrawUpdate | fractal.py:83-89 | the update pass changes the object exactly as the update stage of a tick does |
| Simulation.Simulation.DrawScreen | fractal.py:95-98 | the render pass changes the object exactly as the render stage of a tick does |
| Simulation.Simulation.Diagnose | fractal.py:103-115 | the periodic readback changes the object exactly as the diagnostic stage of a tick does |
| Simulation.Simulation.Tick | fractal.py:78-117 | one iteration of the loop body in place keeps the invariant and takes the object's state to `Step` of its old state |
| Simulation.Simulation.Run | fractal.py:77-117 | the `while running` loop keeps the invariant and takes the object's state to `Steps` of its old state |

## Left out

- Window, context, shader-program, buffer and vertex-array creation (fractal.py:7-12, 27-41, 119) are calls into pygame and moderngl. They are not modelled.
- Shader loading (fractal.py:18-24) is file I/O. The shader texts are not part of this model: the update and render programs are opaque function parameters.
- Texture filter and repeat settings (fractal.py:48-51) have no logical content here: every fragment program takes the whole sampled image.
- `pygame.display.flip()` (fractal.py:100) and the asynchrony of the GPU command queue are not modelled. Draw calls are treated as taking effect in program order.
- Event polling is modelled as one quit flag per tick. `Run` covers a finite sequence of flags and also stops when the flags run out.
- Pixels.Pixel: the textures hold 32-bit floats and the initial mapping is computed in float. The model uses reals, so rounding is not modelled.
- The printed lines (fractal.py:71, 115) are not modelled. Each periodic readback is recorded as a ghost `Diagnostic(frame, x, y, pixel)` entry. The startup readback's value is discarded.
- Pixels.Sample: for a coordinate at or beyond the image size it returns a zero pixel where numpy raises `IndexError`, and for a negative coordinate it returns a zero pixel where numpy wraps around from the end. Every readback in the program reads (0, 0) or (300, 300), which lie inside a 600×600 texture.
- The initial contents of texture 1 are an arbitrary parameter, since fractal.py never writes it before the first tick.
- Simulation.Simulation.constructor: it requires texture 1's given contents to be 600×600, as an allocated texture is.
- The framebuffer-to-texture attachment (fractal.py:54-55) is implicit: drawing through framebuffer i writes `textures[i]`.

## Findings

| source | as written | input that shows it | evidently intended | confidence | as-written member | corrected member |
|---|---|---|---|---|---|---|
| fractal.py:83-105 | the update writes `textures[cur]` and samples `textures[1-cur]`; after `cur = 1-cur` the render pass and the diagnostic read `textures[cur]`, which is the update's input, not its output, so the screen and the printed state lag one tick | first tick, texture 1 all zero, an update yielding p ≠ 0 everywhere: the screen shows zero at (0, 0) | the update samples `textures[cur]` and writes `textures[1-cur]`, so after the flip the render pass and the diagnostic see this tick's output | medium; not executed | Loop.AsWrittenRenderShowsStaleSlot | Loop.IntendedRenderSeesThisTick |
| fractal.py:67-85 | on the first tick `cur == 0`, so the update overwrites texture 0 (the uploaded initial grid) before the loop reads it (only the start-up print at fractal.py:69-71 sees it) and samples texture 1, which the host never wrote | texture 1 all zero, an update program that copies its input: after one tick pixel (2, 1) is zero in both slots instead of (0, −0.5, 0, 1) or its successor | the first update consumes the initial grid, which the start-up print at fractal.py:69-71 checks is in texture 0: with a copying program the front slot still holds the initial grid after one and two ticks | medium; not executed | Loop.AsWrittenIdentityLosesInitialGrid | Loop.IntendedIdentityKeepsInitialGrid |
