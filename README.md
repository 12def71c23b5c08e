# Falling-sand World: a verified model

This project models the simulation kernel of a small "falling sand" cellular
automaton. That kernel is the `World` class (`src/World.h`, `src/World.cpp`). A
World is a fixed `width × height` grid. Each cell is either empty or holds one
of three materials (Sand, Water, Solid) with a 2-D velocity. `Update` advances
the grid one tick in three sweeps:

1. **Gravity** adds -0.1 to the vertical velocity of every movable cell.
2. **Intent** turns each velocity component into a step in {-1, 0, 1} by a
   random draw and stores it in a `directions` buffer indexed by slot.
3. **Resolution** visits the slots in place, y outer and x inner, both
   ascending. An occupied slot with a nonzero intent does one of three things:
   - it moves into an empty in-bounds target;
   - it swaps with an occupied target when the density and direction rule
     allows, and both cells then get a buoyancy kick;
   - it stays, and its velocity is replaced by its material's blocked rule
     applied to the 3×3 neighbourhood, where off-grid neighbours read as Solid.

Layout:

- `cells.dfy` (module `Cells`): the materials with their `Moves` flag and
  density, velocities, and `Cell`, where "empty" is exactly `kind == None`. It
  also holds the gravity constant and the types of the random inputs.
- `rules.dfy` (module `Rules`): the Sand, Water and Solid blocked-velocity rules
  as pure functions of (neighbourhood, velocity, wanted step, random side).
- `grid.dfy` (module `Grids`): the grid as a value (`seq` of columns indexed
  `[x][y]`), the single-cell write, per-material counts and the neighbourhood
  window. It also has `BuildNeighbourhood`, which fills the window with the
  same nested loops as the source.
- `tick.dfy` (module `Simulation`): one tick as a pure function. It is
  gravity, then intents, then a fold of the single-slot `Step` over rows and
  columns in the source's order. The lemmas about steps, ticks and runs of
  ticks are here too.
- `world.dfy` (module `WorldModel`): class `World`. Its `width`/`height` are
  `const` (set only by the constructor) and its grid is a `seq<seq<Cell>>`
  field. `SetCell` is an in-place write, and the three sweeps of `Update` are
  loops; each is proved equal to the pure definition.
- `scenarios.dfy` (module `Scenarios`): whole ticks worked out on one-column
  grids.

Randomness is supplied by the caller. Each tick takes a `TickInput`:
- two draws in [0, 1] per slot, for the intent sweep;
- one side in {-1, 1} per slot, for the blocked rule resolved at that slot.

The resolution sweep visits each slot once, so a per-slot side stands for the
source's single `rand()` call at that visit. Any run of the source corresponds
to some choice of these inputs.

Behaviours of the code that the model keeps as written:
- The swap test never looks at the target's `Moves` flag. Rising Water swaps
  with a Solid above it (`Scenarios.WaterRisesThroughSolid`).
- Sand and Solid both have density 1, so neither ever displaces the other
  (`Simulation.EqualDensityNeverSwaps`).
- Intents belong to slots. A cell swapped into a later slot is resolved there
  with that slot's original intent (`Scenarios.IntentStaysWithSlot`).
- Sand's slide is `v.y · 0.1 · side`, scaled by the *signed* vertical velocity.
  Sand stopped while falling at one cell per tick or faster therefore slides
  away from the side whose neighbours were checked
  (`Rules.FastFallingSandSlidesAway`).

Three more facts about the code that the model follows:
- The swap test lets Water swap with Solid, though Solid never moves by itself.
- `rand() / RAND_MAX` can reach 1, so `Draw` is [0, 1].
- `SetCell` stores whatever cell it is given, so an empty cell may carry a
  velocity.

`abs` on a float (World.cpp line 26 in the Sand rule, and lines 113-114 in the
intent sweep, where a draw is compared with |v|) is modelled as the floating-point
absolute value, which is the overload the platform headers supply. It is not
a truncating integer `abs`.

## Model

| member | source | states |
|---|---|---|
| `Cells.Moves` | src/World.cpp:12-61 | Sand and Water move and Solid does not |
| `Cells.Density` | src/World.cpp:12-61 | every density is in (0, 1]; Water (0.5) is the only material lighter than 1, and Sand and Solid are both 1 |
| `Cells.Gravity` | src/World.h:45 | the gravity constant is -0.1 |
| `Cells.Sign` | src/World.cpp:113-114 | `glm::sign` of a float is -1, 0 or 1, is 0 exactly for 0, and sign(v)·v = \|v\| |
| `Rules.SolidResponse` | src/World.cpp:63-67 | Solid's blocked velocity is always (0, 0), whatever its neighbourhood |
| `Grids.NeighbourAt` | src/World.cpp:163-172 | an on-grid position reads the grid's own cell; an off-grid one reads Solid with zero velocity, so the neighbourhood is empty only on the grid |
| `Grids.Window` | src/World.cpp:159-175 | the neighbourhood is a 3×3 window; its contents are stated by `Grids.WindowContents` |
| `Simulation.Fall` | src/World.cpp:95-99 | gravity on one cell keeps its material and horizontal velocity; a movable cell's vertical velocity drops by 0.1, and any other cell is unchanged |
| `Simulation.SwapAllowed` | src/World.cpp:142-144 | a swap needs unequal densities and a vertical step: up only into something denser, down only into something lighter; the test never asks whether the target moves, so rising Water may displace Solid |
| `Simulation.Kick` | src/World.cpp:150-152 | the buoyancy kick keeps the material and horizontal velocity; it raises the vertical velocity of a cell that traded places with something denser, lowers it for something lighter, and changes nothing at equal densities |
| `Simulation.Run` | src/World.cpp:88-185 | repeated updates keep the grid's shape; their counts and fixed points are stated by `RunPreservesCounts` and `RunFixesImmovable` |
| `Rules.SlideVelocity` | src/World.cpp:18-28 | the slide velocity is 0 exactly when the lateral or lower-lateral neighbour on the chosen side is occupied by something at least as dense as Sand (off-grid counts as Solid); otherwise its magnitude is at least 0.1: it is 0.1·side when \|v.y\| < 1, and v.y·0.1·side when \|v.y\| ≥ 1 |
| `Rules.SandResponse` | src/World.cpp:15-36 | the vertical bounce is -v.y/10 when a vertical step was wanted and 0 otherwise; with the slope closed, the horizontal result is the damped bounce -v.x/10 or 0; a vertically blocked slow sand on an open slope moves 0.1 towards the chosen side; in every case the horizontal result is -v.x/10·\|wanted.x\| plus the slide velocity and the vertical one is -v.y/10·\|wanted.y\| |
| `Rules.WaterHeading` | src/World.cpp:44-48 | water's heading has the sign of its horizontal velocity, and is the random side when that velocity is 0 |
| `Rules.WaterResponse` | src/World.cpp:41-58 | water's blocked velocity is always (±1, 0); it points along the heading exactly when the lateral neighbour on that side is empty |
| `Rules.Respond` | src/World.cpp:63-67 | Solid's blocked velocity is always (0, 0), Water's is a unit horizontal velocity, and Sand blocked with no vertical intent gets no vertical velocity |
| `Rules.FastFallingSandSlidesAway` | src/World.cpp:25-28 | sand stopped while falling with v.y ≤ -1 on an open slope gets a horizontal velocity of sign -side |
| `Rules.ClosedSlopeStopsSand` | src/World.cpp:22-33 | sand stopped vertically beside Sand or Solid on the chosen side ends with velocity (0, -v.y/10) |
| `Grids.EmptyGrid` | src/World.cpp:9 | the initial grid has `w` columns of `h` cells and every cell is empty with zero velocity |
| `Grids.EmptyGridHasNoParticles` | src/World.cpp:9 | the initial grid holds no cell of any material |
| `Grids.SetAt` | src/World.cpp:80 | writing a cell keeps the grid's shape, stores exactly the given cell at (x, y) and leaves every other cell unchanged |
| `Grids.CountSetAt` | src/World.cpp:80 | a single write removes the old occupant from the material counts and adds the new one |
| `Grids.WindowContents` | src/World.cpp:159-175 | around an on-grid cell the window holds that cell in the centre and the grid's cells at on-grid offsets; every off-grid offset is Solid with zero velocity, never empty |
| `Grids.EdgeBlocksSlide` | src/World.cpp:22-23 | when the random side chosen for sand points off the grid, the off-grid neighbours there read as Solid and close the slope, so the slide velocity is 0; when the side points into the grid, sand falling with v.y ≤ -1 is still pushed outwards (`Rules.FastFallingSandSlidesAway`) |
| `Grids.EdgeTurnsWater` | src/World.cpp:52-55 | water heading off the grid reverses its heading |
| `Grids.BuildNeighbourhood` | src/World.cpp:159-175 | the nested offset loops yield exactly the 3×3 window, with Solid at off-grid offsets |
| `Simulation.ApplyGravity` | src/World.cpp:91-101 | gravity keeps the grid's shape and every slot's material; only movable cells change, and only in vertical velocity, by the gravity constant |
| `Simulation.AxisStep` | src/World.cpp:113-114 | an axis step is in {-1, 0, 1}; it is nonzero exactly when the draw is below \|v\|, and then equals sign(v) |
| `Simulation.Intent` | src/World.cpp:109-114 | empty and immovable cells want no step; for a movable cell each component is nonzero exactly when its draw is below the velocity's magnitude, and is then the velocity's sign |
| `Simulation.Intents` | src/World.cpp:104-116 | the directions buffer has the grid's shape, holds no step at every empty or immovable slot, and at every slot holds the intent of the cell in that slot under that slot's draws |
| `Simulation.Step` | src/World.cpp:123-182 | resolving one slot keeps the grid's shape and changes no cell other than the visited slot and its target; what each branch does is stated by `StepSkipped`, `StepIntoEmpty`, `StepSwapsWhenAllowed` and `StepBlocked` |
| `Simulation.ResolveRow` | src/World.cpp:121-183 | resolving a prefix of a row keeps the grid's shape |
| `Simulation.ResolveRows` | src/World.cpp:119-184 | resolving the first rows keeps the grid's shape |
| `Simulation.Tick` | src/World.cpp:88-185 | a tick keeps the grid's shape, so no cell is ever written outside the grid |
| `Simulation.StepMoved` | src/World.cpp:135-140 | a cell that vacates its slot went, unchanged, into an in-bounds empty target and left an empty zero-velocity cell behind |
| `Simulation.StepSwapped` | src/World.cpp:141-153 | a slot whose material changes to another material took part in a swap with an in-bounds occupied target; the density/direction rule allowed it; each cell's vertical velocity rose by (other's density - own density) and its horizontal velocity is kept |
| `Simulation.StepIntoEmpty` | src/World.cpp:130-140 | an occupied slot wanting a step into an in-bounds empty target moves there unchanged and leaves an empty zero-velocity cell behind |
| `Simulation.StepSwapsWhenAllowed` | src/World.cpp:141-153 | an occupied slot wanting a step onto an in-bounds occupied target that the density/direction rule lets it displace swaps with it, and each cell gets the buoyancy kick of the other's material |
| `Simulation.StepBlocked` | src/World.cpp:155-182 | an occupied slot wanting a step off the grid, or onto an occupied cell it may not displace, changes only its own velocity, to its material's blocked response to the current window; every other cell is unchanged |
| `Simulation.StepSkipped` | src/World.cpp:123-128 | an empty slot, or one wanting no step, leaves the grid unchanged |
| `Simulation.StepStayed` | src/World.cpp:155-182 | a cell that keeps its material leaves every slot's material and every other cell unchanged; its velocity is untouched or is its material's blocked response to the current window |
| `Simulation.EqualDensityNeverSwaps` | src/World.cpp:142-144 | Sand and Solid never swap with each other or with their own kind, whatever the direction |
| `Simulation.StepPreservesCounts` | src/World.cpp:135-182 | a resolution step keeps the number of cells of each material |
| `Simulation.ResolveRowPreservesCounts` | src/World.cpp:121-183 | a row prefix of the sweep keeps every material count |
| `Simulation.ResolveRowsPreservesCounts` | src/World.cpp:119-184 | the row-by-row sweep keeps every material count |
| `Simulation.TickPreservesCounts` | src/World.cpp:88-185 | a tick keeps every material count: no particle is created, destroyed or converted |
| `Simulation.RunPreservesCounts` | src/World.cpp:88-185 | any number of ticks keeps every material count |
| `Simulation.ResolveRowIdle` | src/World.cpp:126-128 | with no slot wanting a step, a row of the sweep changes nothing |
| `Simulation.ResolveRowsIdle` | src/World.cpp:119-128 | with no slot wanting a step, the whole sweep changes nothing |
| `Simulation.TickFixesImmovable` | src/World.cpp:95-97 | a grid of only Solid and empty cells is left exactly as it is by a tick |
| `Simulation.RunFixesImmovable` | src/World.cpp:88-185 | such a grid is unchanged by any number of ticks |
| `WorldModel.World.constructor` | src/World.cpp:8-10 | a new World has the given size and its grid is `EmptyGrid`: every cell empty with zero velocity |
| `WorldModel.World.SetCell` | src/World.cpp:70-81 | an off-grid position leaves the grid unchanged; an on-grid one stores exactly that cell there and nothing else changes |
| `WorldModel.World.GetSand` | src/World.h:33 | the Sand handle is movable with density 1 |
| `WorldModel.World.GetWater` | src/World.h:34 | the Water handle is movable with density 0.5 |
| `WorldModel.World.GetSolid` | src/World.h:35 | the Solid handle is immovable with density 1 |
| `WorldModel.HandlesDistinct` | src/World.h:47-49 | the three material handles are pairwise distinct |
| `WorldModel.World.GetCells` | src/World.h:37 | the grid handed out is the World's own grid, always of the size fixed at construction |
| `WorldModel.World.Update` | src/World.cpp:88-185 | the in-place update leaves the grid equal to `Tick` of the old grid under the given random inputs, with its size unchanged |
| `WorldModel.World.GravitySweep` | src/World.cpp:91-101 | the gravity loops leave the grid equal to `ApplyGravity` of the old grid |
| `WorldModel.World.IntentSweep` | src/World.cpp:103-116 | the intent loops fill the directions buffer with exactly `Intents` of the current grid and change nothing |
| `WorldModel.World.ResolutionSweep` | src/World.cpp:118-184 | the resolution loops leave the grid equal to the row-by-row fold of `Step` in y-outer, x-inner ascending order |
| `WorldModel.World.ResolveCell` | src/World.cpp:123-182 | the in-place move / swap / blocked branches leave the grid equal to `Step` of the old grid at that slot |
| `Scenarios.WaterFallsIntoGap` | src/World.cpp:99-140 | Water resting over a gap gets v.y = -0.1, and with a draw of 0 it drops into the gap, leaving the slot above empty |
| `Scenarios.SandSinksThroughWater` | src/World.cpp:142-153 | Sand stepping down onto Water swaps with it; Sand's vertical velocity drops by 0.5 and Water's rises by 0.5 |
| `Scenarios.WaterRisesThroughSolid` | src/World.cpp:142-153 | rising Water swaps with the Solid above it, because the swap test ignores `Moves` |
| `Scenarios.IntentStaysWithSlot` | src/World.cpp:104-133 | Water swapped into a falling Sand's slot is resolved with the Sand's downward intent and takes Water's blocked velocity (-1, 0) |

## Left out

- `src/Main.cpp` is not part of this model: it is SDL window setup, event and mouse polling, rendering, and the fixed-timestep accumulator around `SetCell`, `Update` and `GetCells`.
- `CellType::Color` is not modelled. Only the renderer reads it; the simulation never does.
- Float behaviour is not modelled. Velocities and densities are reals, so the rounding of `glm::vec2`, of the 0.1 constants and of the -0.1f gravity is out of scope.
- The process-global `rand()` stream is replaced by per-slot inputs. The interleaving of intent draws and collision draws in one stream is not modelled, and neither are the statistical properties (the displacement rate converging to |v|, or a denser material sinking "after enough ticks").
- Material handles are the three values of a datatype. Two different Worlds therefore share them, whereas in the source each World owns its own `CellType` objects.
- Negative sizes are excluded by typing `width` and `height` as `nat`. In the source such a size makes the `std::vector` constructor throw.
- The unused global `prevSum` and the `<iostream>` include are not modelled.
