# Falling sand: transition rule and double-buffer driver

A Dafny model of the falling-sand cellular automaton of `script.js`: the
simulation fragment shader (`simulateShader`), which computes every cell of
the next generation from the previous one, and the JavaScript `step` loop
that paints material into the grid, runs one shader pass between two
textures and swaps them.

- `cells.dfy` (module `Cells`): a cell is four bytes, a material tag `typ`
  and three auxiliary bytes; the tags VOID = 0, WALL = 1, SAND = 2,
  WATER = 3.
- `rule.dfy` (module `Rule`): a generation `g[y][x]` on a square N by N
  grid with row 0 at the bottom; `Get`, the neighbour read that yields a
  fresh wall outside the grid; `Jitter`/`RandDir`, the sign of a noise
  function of absolute position and time; `Next`, the rule for one cell,
  one branch per material exactly as the shader has them; `NextGrid`, one
  full pass; `Run`, several passes.
- `handoffs.dfy` (module `Handoffs`): a move between two cells is decided
  twice, by the cell that empties and by the cell that fills, from the same
  previous generation and the same jitter. The lemmas show that both ends
  agree for falls and for diagonal slides away from water. For sand sinking
  into water, they show that the sand and the water swap places. They also
  pin down three ways in which the two ends disagree: two that duplicate a
  grain and one that loses a grain. Further lemmas show that walls never
  move, appear or disappear, and that an empty grid is a fixed point.
- `driver.dfy` (module `Driver`): class `Sandbox` holds the two textures as
  `array2<Cell>` and `bufIndex`. `Paint` writes a 3 by 3 block, `Pass` writes
  every cell of `tex[bufIndex]` from `tex[1 - bufIndex]`, and `Tick` is one
  animation frame. `Frames` runs several frames with the mouse button up.
  `Current()` is the generation the next pass reads,
  `tex[1 - bufIndex]`. `Shown()` is the texture the render pass samples,
  `tex[bufIndex]`.

Behaviour of the code that the model keeps as written:

- A void cell that both diagonal grains want stays as it is. Neither side
  has priority (`Handoffs.DiagonalFill`).
- Sand that falls into a void takes the void cell it read, auxiliary bytes
  included. Water that falls leaves a cleared void.
- Painting writes `tex[1 - bufIndex]`. That is the generation the coming
  pass reads, not the one it writes. After the swap, the render samples
  `tex[bufIndex]`, which is the source of the pass just run. The screen
  therefore shows each generation one frame late. A painted block is not on
  screen before the next frame, and it is on screen right after it
  (`Driver.Sandbox.Paint`, `Driver.Sandbox.Tick`).
- The rule does not conserve sand. Three lemmas show how:
  - `PointedBackGrainDuplicates` shows a grain copied into a gap while it
    also stays in place.
  - `SinkingGrainAlsoCaught` shows a grain that sinks into the water under
    it and is also copied into the void diagonally below it. That void counts
    the water as a floor.
  - `SlideBesideWaterLosesGrain` shows a grain that empties its cell while
    the gap takes water instead.

## Model

| member | source | states |
|---|---|---|
| `Rule.Get` | script.js:144-160 | a read at a cell outside 0..N-1 in either axis, decided on the fragment centre, yields `cell(WALL,0,0,0)`; an in-bounds read yields the stored cell unchanged |
| `Cells.Cel` | script.js:140-142 | `cel(typ)` is the cell of material `typ` with all three auxiliary bytes zero |
| `Rule.Jitter` | script.js:162-170 | the jitter sign is always +1 or -1; it is a function of absolute position and time only, with no grid argument |
| `Rule.RandDir` | script.js:162-170 | `rand_dir(dx, dy)` is always +1 or -1 |
| `Rule.Slides` | script.js:199-207 | a grain that empties its cell by sliding has a diagonal cell inside the grid to slide into, since a read outside the grid is a wall and not a void |
| `Rule.Wants` | script.js:226-232 | a diagonal grain that wants a void cell lies inside the grid, since a read outside the grid is a wall and not sand |
| `Rule.Next` | script.js:189-244 | the next state is one of: the cell itself, the cell under it, the cell above it, one of the two diagonals above it (all copied whole), or `cell(VOID,0,0,0)`; a cell whose tag is not VOID, SAND or WATER is unchanged; a cell that changes takes VOID, SAND or WATER, so no cell becomes a wall |
| `Rule.NextGrid` | script.js:432-436 | one pass keeps the grid N by N and computes every cell from the same previous generation |
| `Rule.Run` | script.js:438-444 | repeated passes keep the grid N by N |
| `Handoffs.JitterIsPositional` | script.js:162-170 | `rand_dir` read at an offset equals the `rand_dir(0,0)` of the cell at that offset, e.g. a void's `rand_dir(-1,1)` is its upper-left grain's own direction, and it is +1 or -1 |
| `Handoffs.FallHandoff` | script.js:192-223 | sand or water over a void: the lower cell takes the upper cell whole and the upper cell becomes void (the read void for sand, a cleared void for water) |
| `Handoffs.SinkSwap` | script.js:192-223 | sand over water with a non-void cell two below: the two cells swap |
| `Handoffs.SandAtRest` | script.js:198-207 | sand that can neither fall nor sink becomes `cell(VOID,0,0,0)` exactly when its diagonal in direction `dir` is void, its side cell is not sand and the cell two across is not sand pointing back; otherwise it is unchanged |
| `Handoffs.DiagonalFill` | script.js:220-241 | a void whose upper cell is neither sand nor water takes the upper-left grain when only it wants the void, the upper-right grain when only it wants it, and stays unchanged when both or neither do |
| `Handoffs.SlideIsCaught` | script.js:199-240 | a sliding grain empties its cell and, unless its side cell is water, the void diagonally below it in its direction takes it: both ends agree |
| `Handoffs.LoneGrainLandsOnce` | script.js:199-240 | a lone grain on a solid floor with both lower diagonals empty lands in exactly the one its jitter picks; the other diagonal stays as it was |
| `Handoffs.SlideBesideWaterLosesGrain` | script.js:199-223 | a grain sliding past water empties its cell, the gap takes the water and the water's cell empties: the grain is lost |
| `Handoffs.CaughtGrainLeaves` | script.js:199-240 | when a void takes a diagonal grain, that grain empties its cell, provided it cannot sink into water and the grain two across does not point back |
| `Handoffs.PointedBackGrainDuplicates` | script.js:199-240 | a grain held back by a grain two across pointing back, while that one falls straight down, stays in place and is also copied into the gap |
| `Handoffs.SinkingGrainAlsoCaught` | script.js:192-240 | a grain over water that rests on a non-void cell sinks, so its cell takes the water and the water's cell takes the grain; a void diagonally below it that only this grain wants also takes the grain, so the grain is duplicated |
| `Handoffs.WaterRests` | script.js:209-219 | water that has a non-void cell under it and no sand above it is unchanged |
| `Handoffs.PassKeepsWalls` | script.js:189-244 | after one pass every wall is the same cell and no other cell has become a wall |
| `Handoffs.RunKeepsWalls` | script.js:189-244 | the same holds after any number of passes |
| `Handoffs.EmptyIsFixed` | script.js:220-241 | a grid of voids is unchanged by a pass |
| `Handoffs.EmptyStaysEmpty` | script.js:220-241 | a grid of voids is unchanged by any number of passes |
| `Driver.Scatter` | script.js:286-292 | every initial cell is `cell(SAND,0,0,0)` where its random roll exceeds 0.75 and `cell(VOID,0,0,0)` otherwise |
| `Driver.Fill` | script.js:286-292 | the initial buffer, filled cell by cell, is exactly the scatter |
| `Driver.Upload` | script.js:294-304 | a texture created from the buffer holds the same cells as the buffer |
| `Driver.Painted` | script.js:413-424 | painting sets exactly the 3 by 3 block centred on the mouse position to `cell(material,0,0,0)` and leaves every other cell unchanged; a block that does not fit in the texture writes nothing |
| `Driver.Sandbox.constructor` | script.js:286-348 | both textures start with the same scatter and `bufIndex` is 0 |
| `Driver.Sandbox.Paint` | script.js:406-428 | the paint lands in `tex[1 - bufIndex]`, the generation the next pass reads; the other texture and `bufIndex` are unchanged |
| `Driver.Sandbox.Pass` | script.js:430-436 | every cell of `tex[bufIndex]` becomes the rule applied to `tex[1 - bufIndex]`, which is left untouched |
| `Driver.Sandbox.Tick` | script.js:405-445 | one frame: paint while the mouse button is down, run the pass on the painted generation, flip `bufIndex` to `1 - bufIndex`; the new current generation is the pass's result and the texture the render samples is the painted source |
| `Driver.Sandbox.Frames` | script.js:405-447 | successive frames with the mouse button up take the current generation through `Run` over their times, so `EmptyStaysEmpty` and `RunKeepsWalls` hold for the textures too |

## Left out

- The simplex noise `snoise` and its helpers `mod289`, `permute` and `taylorInvSqrt` are floating-point code. They are replaced by a `Noise` parameter, an arbitrary total function of (x, y, time). `Jitter` keeps only the test that the noise is positive.
- The float packing of cells (`texture2D(...) * 255.0` on read, division by 255 on write) is not modelled. Each texel is taken to hold its four bytes exactly, so the encode/decode round trip is the identity by construction. Nearest filtering and edge clamping are modelled as exact indexing.
- WebGL setup is left out: shader compilation, programs, framebuffers, vertex buffers and uniforms. So is the render shader's colour lookup. `Shown()` records only which texture the render samples.
- The DOM `<select>` and the mouse and touch handlers are left out, along with their coordinate conversion. The paint centre, the material byte and the mouse button state are parameters of `Tick`.
- `Math.random()` and `performance.now()` are parameters: the rolls of the initial scatter and the time of each pass.
- GPU parallelism and `requestAnimationFrame` scheduling: a pass is a sequential loop that reads only the snapshot of the source texture.
- The pass is assumed to cover every texel of the N by N texture. The viewport is canvas-sized, and a canvas shorter than the resolution would leave the top rows unwritten.
- The Game-of-Life rule variants are not part of this model.
- The `dir` computed and never used in the water branch has no counterpart.
- Conservation of sand is not claimed, because the rule does not keep it. The duplication and loss lemmas above give three ways it fails. They are examples, not a complete list.
