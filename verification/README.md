# Hourglass stage: a Dafny model

Stage 1 of the NazoGr puzzle game is a falling-sand hourglass drawn on a canvas
(`assets/stage1.js`). A W×H grid of cells holds a containment mask shaped like an
hourglass and a buffer of sand grains. Sixty times a second of elapsed time, every grain
falls one cell if it can, otherwise slides diagonally, trying the two diagonals in an order
that alternates with the column and a parity bit. A fixed-step accumulator turns the
variable frame times of the browser into those 60 Hz steps, capped so that a stall never
triggers more than 250 ms of catch-up. As a decorative foreground, a spawner alternates a
radial burst of 28 bullets from the neck with a horizontal sweep line. The bullets move
every frame and are culled 40 px beyond the canvas. `layout` chooses the canvas, cell and
grid sizes from the host box and the device pixel ratio. A pointer moves a player marker,
clamped to the canvas.

The project models this code as follows:

- `grid.dfy` (`Grid`): row-major cell buffers, the index `y * W + x` and the grain count.
- `hourglass.dfy` (`Hourglass`): `makeHourglassMask` as a method filling an array row by
  row, specified by the predicate `InMask`. The lemmas prove the shape: each row is
  symmetric, the upper bulb narrows towards the neck and the lower bulb widens from it,
  and the centre column is always open.
- `sand.dfy` (`Sand`): `createSand`, and `stepSand` as array methods with the source's
  loops. `StepSand` is proved equal to `Step`, a function that threads the half-built
  buffer through the same bottom-up, left-to-right scan. About `Step`, the lemmas prove:
  grains are conserved, they stay on the mask, they move at most one cell down and one
  sideways, and the bottom row holds still. A grain above an empty mask cell leaves that
  cell filled, and a grain with all three cells below closed stays put. About the choice
  of one grain (`Target`), they prove that the grain falls straight down when it can, and
  that a parity flip mirrors the diagonal it prefers. `Run` is n steps with the parity
  flipped after each.
- `scheduler.dfy` (`Scheduler`): the accumulator arithmetic of `frame`, with the step count
  of the catch-up loop as a function of the residual.
- `bullets.dfy` (`Bullets`): bullets, the radial and sweep emissions, JavaScript's `%`, and
  move-and-cull as a function.
- `viewport.dfy` (`Viewport`): the clamps of `DPR`, `layout` and `setPlayerFromEvent`.
- `stage.dfy` (`Stage1`): the closure state of `init` as the class `Session`. Its fields
  are the grid size, the mask and sand arrays, the parity, the time accumulator, the
  clock, the bullets, the spawner and the player. Its methods are `layout`, `frame`, the
  catch-up loop, `updateBullets` with both spawners and the cull loop, and
  `setPlayerFromEvent`. Each method states its whole new state, in terms of the functions
  above.

Numbers are exact: grid arithmetic is on unbounded integers, and lengths, times and
positions are exact reals. `sand` and `mask` are `array<bool>` (the source's `Uint8Array`
holding 0 or 1).

## Model

| member | source | states |
|---|---|---|
| Grid.Idx | assets/stage1.js:45-47 | the flat index `y * W + x` of a cell lies inside its row, and the row lies inside the W·H buffer |
| Grid.IdxInjective | assets/stage1.js:45-47 | distinct cells have distinct flat indices |
| Grid.CountUpdate | assets/stage1.js:56-57 | writing one cell changes the grain count by exactly the difference of the old and new flag |
| Grid.MoveKeepsCount | assets/stage1.js:56-57 | clearing an occupied cell and filling a distinct empty one keeps the grain count |
| Grid.SetCell | assets/stage1.js:21 | setting cell (x, y) sets that cell and leaves every other cell as it was |
| Grid.RowAbove | assets/stage1.js:45-47 | every cell of a row above row r has a flat index below r · W |
| Hourglass.MakeHourglassMask | assets/stage1.js:5-25 | the fresh W·H mask holds exactly the cells with InMask under the neck max(4, min(neckCells, floor(W/10))), and the returned neck is that value, at least 2 |
| Hourglass.TopHalfWidth | assets/stage1.js:9 | the top half-width is at least 6, and both rims fit inside any grid at least 12 cells wide |
| Hourglass.NeckWidth | assets/stage1.js:10 | the neck is at least 4 cells, at most floor(W/10) once W ≥ 40, and exactly the requested width when that lies in 4 .. floor(W/10) |
| Hourglass.HalfWidth | assets/stage1.js:12-16 | the interpolated half-width of row y; its properties are HalfWidthBounds, UpperBulbNarrows and LowerBulbWidens |
| Hourglass.InSpan | assets/stage1.js:17-21 | the columns ceil(W/2 − h) .. floor(W/2 + h) the row loop fills; characterised exactly by InSpanExact |
| Hourglass.InMask | assets/stage1.js:17-21 | a cell is in the mask when it is in the grid and in its row's span; the shape lemmas below are about it |
| Hourglass.FillRow | assets/stage1.js:20-22 | row y gains the columns minX .. maxX that lie in the grid; no other cell changes |
| Hourglass.InSpanExact | assets/stage1.js:17-21 | column x is filled on a row of half-width h exactly when its distance from W/2 is at most h, in both directions |
| Hourglass.MaskSymmetric | assets/stage1.js:8-21 | each row is mirror-symmetric about the centre: column x is inside exactly when column W − x is |
| Hourglass.NeckBelowTop | assets/stage1.js:9-10 | half the neck never exceeds the top half-width |
| Hourglass.HalfWidthBounds | assets/stage1.js:12-16 | every row's half-width lies between half the neck and the top half-width |
| Hourglass.UpperBulbNarrows | assets/stage1.js:12-16 | above the middle row, a lower row is never wider than a higher one |
| Hourglass.LowerBulbWidens | assets/stage1.js:12-16 | from the middle row down, a lower row is never narrower than a higher one |
| Hourglass.SpanGrows | assets/stage1.js:17-21 | a row with a larger half-width contains every column of a row with a smaller one |
| Hourglass.MaskIsHourglass | assets/stage1.js:11-22 | in the upper bulb every cell of a row is also inside every row above it; in the lower bulb every cell of a row is also inside every row below it |
| Hourglass.CentreAlwaysOpen | assets/stage1.js:8-22 | the centre column W/2 is inside the mask on every row, so the neck never closes |
| Sand.Target | assets/stage1.js:50-78 | a grain moves straight down when that cell is open, else to the first open diagonal in the parity order; a move always goes to an open cell one row down and at most one column sideways; the grain stays exactly when all three cells below are closed |
| Sand.Open | assets/stage1.js:55 | a cell a grain may enter: in the grid and the mask, empty before the step and still empty in the buffer (the tests of lines 55 and 69-71); Target's contract is stated with it |
| Sand.FirstSide | assets/stage1.js:63-64 | the diagonal tried first is one column right or left, right exactly when x + parity is odd |
| Sand.Visit | assets/stage1.js:47-78 | one visit of the scan: a grain of the old grid moves to its Target in the buffer; the buffer keeps W·H cells; VisitCounts and VisitLocal state what it keeps |
| Sand.ScanRow | assets/stage1.js:46-79 | the visits of columns x .. W − 1 of one row, left to right; the buffer keeps W·H cells |
| Sand.ScanRows | assets/stage1.js:44-80 | the row scans from row rows − 1 up to row 0; the buffer keeps W·H cells |
| Sand.Step | assets/stage1.js:40-82 | the step as a function of the old grid (rows H−2 up to 0, columns left to right, threading the buffer); its own contract gives only the buffer size, and its properties are the Step lemmas below |
| Sand.Run | assets/stage1.js:246-251 | n steps with the parity flipped after each; its own contract gives only the buffer size, and its properties are RunConserves and RunOneMore |
| Sand.Flip | assets/stage1.js:249 | `parity ^= 1` changes the low bit and keeps the others |
| Sand.VisitCounts | assets/stage1.js:47-78 | a visit on an untouched cell keeps the grain count, keeps grains on the old grid or the mask, and leaves the rest of the scan untouched |
| Sand.MoveKeepsArrivalsFed | assets/stage1.js:55-57 | after a move one row down and at most one column sideways, every newly filled cell still has a vacated cell among the three above it |
| Sand.MoveKeepsDeparturesLanded | assets/stage1.js:70-74 | after such a move, every vacated cell still has a newly filled cell among the three below it |
| Sand.VisitLocal | assets/stage1.js:47-78 | a visit keeps every arrival fed from the three cells above it and every departure landed in the three cells below it |
| Sand.ScanRowKeeps | assets/stage1.js:46-79 | scanning the rest of a row keeps count, mask and locality, and leaves the rows above untouched |
| Sand.ScanRowsKeeps | assets/stage1.js:44-80 | scanning the remaining rows bottom-up keeps count, mask and locality |
| Sand.StepKept | assets/stage1.js:40-82 | a whole step keeps count, mask and locality between the old grid and the new one |
| Sand.StepConservesGrains | assets/stage1.js:40-82 | a step neither creates nor destroys grains |
| Sand.StepStaysInMask | assets/stage1.js:53-71 | every grain after a step was there before or sits on the mask, so grains that start on the mask stay on it |
| Sand.StepMovesLocally | assets/stage1.js:50-78 | every newly filled cell was fed from one of the three cells above it, and every vacated cell fed one of the three cells below it |
| Sand.StepKeepsBottomRow | assets/stage1.js:44 | grains on the bottom row never move |
| Sand.VisitKeepsFilled | assets/stage1.js:47-78 | a visit empties no filled cell except the visited grain's own |
| Sand.ScanRowKeepsFilled | assets/stage1.js:46-79 | scanning the rest of a row keeps every filled cell filled, except grains of the old grid still to be visited on that row |
| Sand.ScanRowsKeepsFilled | assets/stage1.js:44-80 | scanning rows rows − 1 down to 0 keeps every filled cell filled, except grains of the old grid on those rows |
| Sand.VisitSettles | assets/stage1.js:50-78 | visiting a grain still in place fills the empty mask cell below it and, when all three cells below are closed, keeps the grain's own cell |
| Sand.ScanRowSettlesHere | assets/stage1.js:46-79 | the scan of a row from the grain's own column on leaves those cells filled |
| Sand.ScanRowSettles | assets/stage1.js:46-79 | the scan of a row from any column up to the grain's leaves those cells filled |
| Sand.ScanRowsSettleHere | assets/stage1.js:44-80 | the scan from the grain's row up to row 0 leaves those cells filled |
| Sand.ScanRowsSplit | assets/stage1.js:44-80 | the scan of rows rows − 1 down to 0 is the scan down to any row stop followed by the scan of the rows above it |
| Sand.ScanRowsDownKeepsFilled | assets/stage1.js:44-80 | scanning the rows from stop down leaves every filled cell of the rows above stop filled |
| Sand.StepSplitAt | assets/stage1.js:44-80 | a step is the scan of rows H − 2 down to y + 1 followed by the scan of rows y up to 0 |
| Sand.StepReachesRow | assets/stage1.js:44-80 | when the scan reaches row y, every grain of row y is still in place |
| Sand.StepFallsStraight | assets/stage1.js:53-59 | a grain above an empty mask cell leaves that cell filled after the step: the grain falls into it, or a grain to its left slid in first |
| Sand.StepBlockedStays | assets/stage1.js:53-78 | a grain whose three cells below are each outside the grid, off the mask or occupied before the step is still in place after it |
| Sand.FlipMirrors | assets/stage1.js:62-63 | flipping the parity swaps which diagonal is tried first |
| Sand.TargetMirrored | assets/stage1.js:62-78 | a grain blocked below with both diagonals open slides to the first side of its parity, and to the mirrored side under the flipped parity |
| Sand.RunConserves | assets/stage1.js:246-251 | any number of steps conserves the grain count and keeps grains on the mask |
| Sand.RunOneMore | assets/stage1.js:247-249 | k + 1 steps are k steps followed by one more under the parity flipped k times |
| Sand.InitialRow | assets/stage1.js:29-31 | the rows createSand fills, from 2 up to but excluding floor(H/2) − 1 |
| Sand.CreateSand | assets/stage1.js:27-38 | the fresh buffer holds a grain on exactly the mask cells of rows 2 .. floor(H/2) − 2, and every grain lies on the mask |
| Sand.StepSand | assets/stage1.js:40-82 | the array step returns a fresh buffer equal to the scan function Step of the old grid |
| Sand.StepRow | assets/stage1.js:46-79 | the inner loop leaves the buffer equal to the scan of row y from column 0 |
| Sand.VisitCell | assets/stage1.js:47-78 | the loop body for one cell leaves the buffer equal to Visit: down first, then the diagonals in parity order |
| Scheduler.Capped | assets/stage1.js:246 | the residual never exceeds 250 ms, is unchanged when within it, and is exactly 250 ms when over it |
| Scheduler.StepsFor | assets/stage1.js:247-251 | the number of loop passes on a residual; StepsForFits and StepsForUnique characterise it |
| Scheduler.StepsForFits | assets/stage1.js:247-251 | the catch-up loop runs the largest n with n periods fitting in the residual, leaving a residual in [0, 1000/60) |
| Scheduler.StepsForUnique | assets/stage1.js:247-251 | a count that leaves a residual in [0, 1000/60) is exactly the loop's count |
| Scheduler.CatchUpBounded | assets/stage1.js:243-251 | a frame runs at most 15 steps, exactly 15 after a stall of 250 ms or more, none when the residual is negative, and otherwise leaves less than one period |
| Scheduler.OnePeriodOneStep | assets/stage1.js:137 | from an empty residual, one period of elapsed time runs exactly one step and leaves nothing |
| Bullets.MoveAndCull | assets/stage1.js:184-191 | the cull never adds bullets |
| Bullets.Outside | assets/stage1.js:188 | a bullet more than 40 px beyond any edge of the canvas; the cull lemmas are stated with it |
| Bullets.Moved | assets/stage1.js:186-187 | a move keeps the velocity and radius and displaces the position by velocity × dt |
| Bullets.CullFrom | assets/stage1.js:184-191 | culling from bullet k on is bullet k, moved and kept when within the margin, followed by the cull of the rest |
| Bullets.CullKeepsOnlyInside | assets/stage1.js:188-190 | after the cull every bullet is within the 40 px margin and is a moved original |
| Bullets.CullKeepsAllInside | assets/stage1.js:188-190 | every moved bullet within the margin survives the cull |
| Bullets.Radial | assets/stage1.js:148-155 | a burst has count bullets, each at the centre with the given radius and bullet i moving along direction i at the given speed |
| Bullets.JsRem | assets/stage1.js:160 | the remainder takes the sign of the dividend, is smaller than the divisor in magnitude, and differs from the dividend by a multiple of it |
| Bullets.SweepCount | assets/stage1.js:159 | a sweep from i has ceil((width + 40 − i) / 28) bullets |
| Bullets.SweepOffset | assets/stage1.js:160 | a sweep bullet's vertical offset lies in (−8.4, 2.8), and in [−2.8, 2.8) for a non-negative counter |
| Bullets.SweepStartX | assets/stage1.js:158 | a rightward sweep starts left of the canvas and a leftward one right of it |
| Bullets.Sweep | assets/stage1.js:157-161 | every bullet of a sweep starts at the entry x, moves horizontally at 140 px/s in the sweep's direction, with radius 2.6 |
| Bullets.SweepEntersFromOffscreen | assets/stage1.js:157-161 | every sweep bullet starts beyond the edge it enters from and moves horizontally towards the other edge |
| Bullets.EmissionSize | assets/stage1.js:167-181 | a burst adds 28 bullets, and a sweep adds ceil((width + 80) / 28) |
| Bullets.Emission | assets/stage1.js:168-181 | a burst is 28 bullets of radius 3, a sweep's bullets have radius 2.6 |
| Viewport.Clamp | assets/stage1.js:202-206 | the result lies in [lo, hi], is the value when the value lies in the range, and is the violated bound otherwise |
| Viewport.ClampReal | assets/stage1.js:271-272 | the same three cases on reals |
| Viewport.DevicePixelRatio | assets/stage1.js:3 | the ratio is 1 .. 3, is floor(ratio) when that is in range, 1 below and 3 above |
| Viewport.CanvasSize | assets/stage1.js:197-198 | the canvas side is at least one pixel, and floor(extent) for an extent of at least one pixel |
| Viewport.Cells | assets/stage1.js:205-206 | the cell count is the floor of extent / cell |
| Viewport.ComputeLayout | assets/stage1.js:194-206 | the canvas is at least 1×1, the cell is 2 .. 4, the grid is 80 .. 160 by 140 .. 260, and unless a count was raised to its minimum the grid fits inside the canvas |
| Viewport.Fit | assets/stage1.js:197-206 | the sizes for a canvas keep the chosen cell, give a canvas of at least 1×1, and fit the grid inside the canvas unless a count was raised to its minimum |
| Viewport.EmptyBoxLayout | assets/stage1.js:194-206 | an empty host box yields a 1×1 canvas, 2 px cells and the minimum 80×140 grid |
| Viewport.AxisFits | assets/stage1.js:197-206 | along one axis the clamped cell count times the cell size fits in the canvas unless the count was raised to its minimum |
| Viewport.PointerToCanvas | assets/stage1.js:269-272 | the pointer coordinate lies within [0, extent], and equals the scaled offset when that lies within it |
| Stage1.Session.constructor | assets/stage1.js:129-146 | the initial clock, parity, spawner, bullets and player radius, followed by the first layout: a filled grid and the player at (canvas width / 2, max(20, canvas height − 40)) |
| Stage1.Session.Layout | assets/stage1.js:194-214 | the canvas, cell and grid are those of ComputeLayout, the mask and sand are fresh and filled, the player is at the bottom centre, and the clock, parity and bullets are unchanged |
| Stage1.Session.Refill | assets/stage1.js:207-210 | the grid gets the new size, a fresh hourglass mask with neck floor(W · 0.08) and a fresh fill with every grain on the mask |
| Stage1.Session.RunFixedSteps | assets/stage1.js:243-251 | the sand advances StepsFor(capped residual) steps, at most 15, the residual keeps the remainder, the parity flips once per step, and grains are conserved and stay on the mask |
| Stage1.Session.CatchUp | assets/stage1.js:247-251 | the loop consumes one period per step until less than one period is left, and the sand is Run of the old sand over that many steps |
| Stage1.Session.StepOnce | assets/stage1.js:248-249 | one pass of the loop takes the sand from k steps past its start to k + 1 |
| Stage1.Session.SpawnRadial | assets/stage1.js:148-155 | the bullets gain exactly the radial burst, appended in order |
| Stage1.Session.SpawnSweep | assets/stage1.js:157-162 | the bullets gain exactly the sweep line, appended in order |
| Stage1.Session.UpdateBullets | assets/stage1.js:164-192 | when the cooldown runs out the current pattern is emitted, the cooldown is rearmed and the pattern alternates; then all bullets are moved and culled, and every survivor is within the margin |
| Stage1.Session.Cull | assets/stage1.js:183-191 | the back-to-front splice loop leaves exactly MoveAndCull of the old bullets, all within the margin |
| Stage1.Session.Frame | assets/stage1.js:241-253 | the clock and total advance by the elapsed time, the residual and sand advance as the catch-up loop dictates with grains conserved, the spawner and bullets advance by the same elapsed time, and the grid is untouched |
| Stage1.Session.Resync | assets/stage1.js:280 | the first animation callback sets the clock to its timestamp |
| Stage1.Session.SetPlayerFromEvent | assets/stage1.js:266-273 | the player is at the pointer's clamped canvas position on both axes, inside the canvas |

## Left out

- Rendering is not modelled: `drawHourglass`, `drawSand` and `render` (assets/stage1.js:84-121, 216-239). Neither are the canvas element, its CSS size and the 2D context.
- `requestAnimationFrame` scheduling, the `running` flag, the resize listener and the returned teardown (assets/stage1.js:242, 254-263, 282-286) are left out. Timestamps come in as parameters of `Frame` and `Resync`, and the host box and `devicePixelRatio` as parameters of the constructor and `Layout`.
- The pointer listeners and `ptrActive` (assets/stage1.js:265, 274-278) are left out; `SetPlayerFromEvent` takes the event and the canvas rectangle as parameters.
- Trigonometry and randomness are parameters:
  - the burst direction `(cos, sin)` of bullet i is `unit(i, count)`;
  - `Math.sin(tTotal / 700)` is `wave`;
  - `Math.random() < 0.5` is `rightward`.
- Floating point: the model computes with exact reals and integers.
  - IEEE rounding of `W * 0.42`, `W * 0.10`, `W * 0.08`, the interpolated half-widths and bullet positions is not modelled. The decimal constants are read exactly, as `W * 42 / 100`, `W / 10` and `W * 8 / 100`.
  - `1000 / 60` is the exact rational.
- The neck: line 10 of assets/stage1.js clamps the neck to at least 4 cells before the mask is filled, so the `Math.max(2, …)` of line 24 never takes effect: `MakeHourglassMask` returns the clamped neck, which is at least 4. The walls drawn at line 221 use the unclamped `floor(W · 0.08)`; drawing is not modelled.
- Stage1.Session.Cull: works on a local copy of the bullet list and assigns it back after the loop. The source splices the shared array and mutates each bullet object in place, and bullets are values here, so object aliasing is not modelled.
- Stage1.Session.SpawnSweep: the loop bound reads the canvas width from the session, as the source reads `canvas.width`. The defaulted `speed`, `gap` and `radius` parameters are fixed at their default values, the only ones the source passes.
- Stage1.Session.SpawnRadial: takes the radius explicitly (the source defaults it to 3, the only value it uses).
- `assets/sensors.js`, `assets/main.js` and `assets/game.js` are not part of this model.
