/** Whole ticks worked out on small columns (width 1), showing the move rule,
    the density swap with its buoyancy kick, a swap with an immovable Solid, and
    a cell resolved with the intent of the slot it was swapped into. */
module Scenarios {
  import opened Cells
  import opened Rules
  import opened Grids
  import opened Simulation

  function WaterAt(vy: real): Cell { Cell(Some(Water), Vec2(0.0, vy)) }
  function SandAt(vy: real): Cell { Cell(Some(Sand), Vec2(0.0, vy)) }

  /** Inputs for a single column of height `h`: the given draws per slot, side 1. */
  function ColumnInput(draws: seq<Draws>): TickInput {
    TickInput([draws], [seq(|draws|, _ => 1)])
  }

  /** A column with Solid at the bottom, a gap, and resting Water on top: gravity
      gives the Water a vertical velocity of -0.1, a draw of 0 turns it into a
      downward step, and the Water drops into the gap, leaving an empty cell. */
  lemma WaterFallsIntoGap()
    ensures var g := [[SolidCell, EmptyCell, WaterAt(0.0)]];
      var inp := ColumnInput([Draws(0.0, 0.0), Draws(0.0, 0.0), Draws(0.0, 0.0)]);
      Tick(g, 1, 3, inp) == [[SolidCell, WaterAt(-0.1), EmptyCell]]
  {
    var g := [[SolidCell, EmptyCell, WaterAt(0.0)]];
    var inp := ColumnInput([Draws(0.0, 0.0), Draws(0.0, 0.0), Draws(0.0, 0.0)]);
    var fallen := ApplyGravity(g, 1, 3);
    assert fallen[0][0] == SolidCell && fallen[0][1] == EmptyCell && fallen[0][2] == WaterAt(-0.1);
    GridsEqual(fallen, [[SolidCell, EmptyCell, WaterAt(-0.1)]], 1, 3);
    var dirs := Intents(fallen, 1, 3, inp.draws);
    assert dirs[0][2] == IVec2(0, -1);
    GridsEqual(dirs, [[NoStep, NoStep, IVec2(0, -1)]], 1, 3);
    var r0 := ResolveRows(fallen, 1, 3, dirs, inp.sides, 1);
    assert r0 == fallen;
    var r1 := ResolveRows(fallen, 1, 3, dirs, inp.sides, 2);
    assert r1 == fallen;
    var r2 := ResolveRows(fallen, 1, 3, dirs, inp.sides, 3);
    assert r2 == Step(fallen, 1, 3, dirs, inp.sides, 0, 2);
    assert r2[0][1] == WaterAt(-0.1) && r2[0][2] == EmptyCell && r2[0][0] == SolidCell;
    GridsEqual(r2, [[SolidCell, WaterAt(-0.1), EmptyCell]], 1, 3);
  }

  /** Sand stepping down onto Water sinks through it: the two swap, the Sand's
      vertical velocity drops by 0.5 and the Water's rises by 0.5. */
  lemma SandSinksThroughWater()
    ensures var g := [[WaterAt(0.0), SandAt(0.0)]];
      var inp := ColumnInput([Draws(1.0, 1.0), Draws(0.0, 0.0)]);
      Tick(g, 1, 2, inp) == [[SandAt(-0.6), WaterAt(0.4)]]
  {
    var g := [[WaterAt(0.0), SandAt(0.0)]];
    var inp := ColumnInput([Draws(1.0, 1.0), Draws(0.0, 0.0)]);
    var fallen := ApplyGravity(g, 1, 2);
    assert fallen[0][0] == WaterAt(-0.1) && fallen[0][1] == SandAt(-0.1);
    GridsEqual(fallen, [[WaterAt(-0.1), SandAt(-0.1)]], 1, 2);
    var dirs := Intents(fallen, 1, 2, inp.draws);
    assert dirs[0][0] == NoStep && dirs[0][1] == IVec2(0, -1);
    var r1 := ResolveRows(fallen, 1, 2, dirs, inp.sides, 1);
    assert r1 == fallen;
    var r2 := ResolveRows(fallen, 1, 2, dirs, inp.sides, 2);
    assert r2 == Step(fallen, 1, 2, dirs, inp.sides, 0, 1);
    assert r2[0][0] == SandAt(-0.6) && r2[0][1] == WaterAt(0.4);
    GridsEqual(r2, [[SandAt(-0.6), WaterAt(0.4)]], 1, 2);
  }

  /** The swap rule never asks whether the target moves: rising Water below a
      Solid trades places with it, and the Solid, now one row lower, carries the
      buoyancy kick of -0.5 it will never use. */
  lemma WaterRisesThroughSolid()
    ensures var g := [[WaterAt(1.0), SolidCell]];
      var inp := ColumnInput([Draws(0.0, 0.0), Draws(0.0, 0.0)]);
      Tick(g, 1, 2, inp) == [[Cell(Some(Solid), Vec2(0.0, -0.5)), WaterAt(1.4)]]
  {
    var g := [[WaterAt(1.0), SolidCell]];
    var inp := ColumnInput([Draws(0.0, 0.0), Draws(0.0, 0.0)]);
    var fallen := ApplyGravity(g, 1, 2);
    assert fallen[0][0] == WaterAt(0.9) && fallen[0][1] == SolidCell;
    GridsEqual(fallen, [[WaterAt(0.9), SolidCell]], 1, 2);
    var dirs := Intents(fallen, 1, 2, inp.draws);
    assert dirs[0][0] == IVec2(0, 1) && dirs[0][1] == NoStep;
    var r1 := ResolveRows(fallen, 1, 2, dirs, inp.sides, 1);
    assert r1 == Step(fallen, 1, 2, dirs, inp.sides, 0, 0);
    assert r1[0][0] == Cell(Some(Solid), Vec2(0.0, -0.5)) && r1[0][1] == WaterAt(1.4);
    var r2 := ResolveRows(fallen, 1, 2, dirs, inp.sides, 2);
    assert r2 == Step(r1, 1, 2, dirs, inp.sides, 0, 1);
    assert r2 == r1;
    GridsEqual(r2, [[Cell(Some(Solid), Vec2(0.0, -0.5)), WaterAt(1.4)]], 1, 2);
  }

  /** Intents belong to slots, not to particles: Water that rises into the slot
      of a falling Sand is then resolved with the Sand's downward intent, finds
      the Sand below it and takes Water's blocked velocity instead of rising on. */
  lemma IntentStaysWithSlot()
    ensures var g := [[WaterAt(1.0), SandAt(0.0)]];
      var inp := ColumnInput([Draws(0.0, 0.0), Draws(0.0, 0.0)]);
      Tick(g, 1, 2, inp) == [[SandAt(-0.6), Cell(Some(Water), Vec2(-1.0, 0.0))]]
  {
    var g := [[WaterAt(1.0), SandAt(0.0)]];
    var inp := ColumnInput([Draws(0.0, 0.0), Draws(0.0, 0.0)]);
    var fallen := ApplyGravity(g, 1, 2);
    assert fallen[0][0] == WaterAt(0.9) && fallen[0][1] == SandAt(-0.1);
    GridsEqual(fallen, [[WaterAt(0.9), SandAt(-0.1)]], 1, 2);
    var dirs := Intents(fallen, 1, 2, inp.draws);
    assert dirs[0][0] == IVec2(0, 1) && dirs[0][1] == IVec2(0, -1);
    var r1 := ResolveRows(fallen, 1, 2, dirs, inp.sides, 1);
    assert r1 == Step(fallen, 1, 2, dirs, inp.sides, 0, 0);
    assert r1[0][0] == SandAt(-0.6) && r1[0][1] == WaterAt(1.4);
    GridsEqual(r1, [[SandAt(-0.6), WaterAt(1.4)]], 1, 2);
    var r2 := ResolveRows(fallen, 1, 2, dirs, inp.sides, 2);
    assert r2 == Step(r1, 1, 2, dirs, inp.sides, 0, 1);
    var n := Window(r1, 1, 2, 0, 1);
    assert n[2][1] == SolidCell;
    assert WaterResponse(n, Vec2(0.0, 1.4), IVec2(0, -1), 1) == Vec2(-1.0, 0.0);
    assert r2[0][0] == SandAt(-0.6) && r2[0][1] == Cell(Some(Water), Vec2(-1.0, 0.0));
    GridsEqual(r2, [[SandAt(-0.6), Cell(Some(Water), Vec2(-1.0, 0.0))]], 1, 2);
  }
}
