/** The World object: a fixed-size grid of cells that external code edits one
    cell at a time and that `Update` advances one tick in place. */
module WorldModel {
  import opened Cells
  import opened Rules
  import opened Grids
  import opened Simulation

  class World {
    /** The grid size, fixed at construction. */
    const width: nat
    const height: nat
    /** The cells, indexed `[x][y]`. */
    var cells: seq<seq<Cell>>

    ghost predicate Valid()
      reads this
    {
      Shaped(cells, width, height)
    }

    /** A `width` by `height` grid of empty, zero-velocity cells. */
    constructor (width: nat, height: nat)
      ensures this.width == width && this.height == height
      ensures Valid()
      ensures cells == EmptyGrid(width, height)
      ensures forall x, y :: 0 <= x < width && 0 <= y < height ==> cells[x][y] == EmptyCell
    {
      this.width := width;
      this.height := height;
      cells := EmptyGrid(width, height);
    }

    /** Overwrites one cell; a position off the grid is silently ignored. */
    method SetCell(x: int, y: int, cell: Cell)
      requires Valid()
      modifies this
      ensures Valid()
      ensures cells == if InBounds(x, y, width, height) then SetAt(old(cells), x, y, cell) else old(cells)
    {
      if x < 0 || x >= width || y < 0 || y >= height {
        return;
      }
      cells := cells[x := cells[x][y := cell]];
    }

    /** The material handles; a cell built with one of them is painted with it. */
    function GetSand(): (m: Material)
      ensures Moves(m) && Density(m) == 1.0
    {
      Sand
    }

    function GetWater(): (m: Material)
      ensures Moves(m) && Density(m) == 0.5
    {
      Water
    }

    function GetSolid(): (m: Material)
      ensures !Moves(m) && Density(m) == 1.0
    {
      Solid
    }

    /** Read access to the whole grid, always of the size fixed at construction. */
    function GetCells(): (g: seq<seq<Cell>>)
      reads this
      requires Valid()
      ensures Shaped(g, width, height)
      ensures g == cells
    {
      cells
    }

    /** Advances the grid one tick: gravity, intents, then the in-place
        resolution sweep. */
    method Update(inp: TickInput)
      requires Valid() && Fits(inp, width, height)
      modifies this
      ensures Valid()
      ensures cells == Tick(old(cells), width, height, inp)
    {
      GravitySweep();
      var directions := IntentSweep(inp.draws);
      ResolutionSweep(directions, inp.sides);
    }

    /** Adds the gravity constant to the vertical velocity of every movable cell. */
    method GravitySweep()
      requires Valid()
      modifies this
      ensures Valid()
      ensures cells == ApplyGravity(old(cells), width, height)
    {
      ghost var start := cells;
      var y := 0;
      while y < height
        invariant 0 <= y <= height
        invariant Shaped(cells, width, height)
        invariant forall i, j :: 0 <= i < width && 0 <= j < height ==>
          cells[i][j] == if j < y then Fall(start[i][j]) else start[i][j]
      {
        var x := 0;
        while x < width
          invariant 0 <= x <= width
          invariant Shaped(cells, width, height)
          invariant forall i, j :: 0 <= i < width && 0 <= j < height ==>
            cells[i][j] == if j < y || (j == y && i < x) then Fall(start[i][j]) else start[i][j]
        {
          var c := cells[x][y];
          if c.kind.Some? && Moves(c.kind.value) {
            cells := cells[x := cells[x][y := c.(velocity := c.velocity.(y := c.velocity.y + Gravity))]];
          }
          x := x + 1;
        }
        y := y + 1;
      }
      GridsEqual(cells, ApplyGravity(start, width, height), width, height);
    }

    /** Fills the `directions` buffer: for each movable cell and each axis, a
        step of sign(v) when that axis's draw is below |v|; zero elsewhere. */
    method IntentSweep(draws: seq<seq<Draws>>) returns (directions: seq<seq<IVec2>>)
      requires Valid() && Shaped(draws, width, height)
      ensures directions == Intents(cells, width, height, draws)
    {
      directions := seq(width, _ => seq(height, _ => NoStep));
      var y := 0;
      while y < height
        invariant 0 <= y <= height
        invariant Shaped(directions, width, height)
        invariant forall i, j :: 0 <= i < width && 0 <= j < height ==>
          directions[i][j] == if j < y then Intent(cells[i][j], draws[i][j]) else NoStep
      {
        var x := 0;
        while x < width
          invariant 0 <= x <= width
          invariant Shaped(directions, width, height)
          invariant forall i, j :: 0 <= i < width && 0 <= j < height ==>
            directions[i][j] ==
              if j < y || (j == y && i < x) then Intent(cells[i][j], draws[i][j]) else NoStep
        {
          var c := cells[x][y];
          if c.kind.Some? && Moves(c.kind.value) {
            var draw := draws[x][y];
            var stepX := (if draw.x < Abs(c.velocity.x) then 1 else 0) * Sign(c.velocity.x);
            var stepY := (if draw.y < Abs(c.velocity.y) then 1 else 0) * Sign(c.velocity.y);
            directions := directions[x := directions[x][y := IVec2(stepX, stepY)]];
          }
          x := x + 1;
        }
        y := y + 1;
      }
      GridsEqual(directions, Intents(cells, width, height, draws), width, height);
    }

    /** Visits every slot, y outer and x inner, both ascending, resolving each
        against the grid as earlier visits have left it. */
    method ResolutionSweep(directions: seq<seq<IVec2>>, sides: seq<seq<Side>>)
      requires Valid() && Shaped(directions, width, height) && Shaped(sides, width, height)
      modifies this
      ensures Valid()
      ensures cells == ResolveRows(old(cells), width, height, directions, sides, height)
    {
      ghost var start := cells;
      var y := 0;
      while y < height
        invariant 0 <= y <= height
        invariant Shaped(cells, width, height)
        invariant cells == ResolveRows(start, width, height, directions, sides, y)
      {
        ghost var rowStart := cells;
        var x := 0;
        while x < width
          invariant 0 <= x <= width
          invariant Shaped(cells, width, height)
          invariant cells == ResolveRow(rowStart, width, height, directions, sides, y, x)
        {
          ResolveCell(x, y, directions, sides);
          x := x + 1;
        }
        y := y + 1;
      }
    }

    /** Resolves the slot `(x, y)`: occupy an empty target, swap when the
        densities allow it, or stay with the velocity of the blocked rule. */
    method ResolveCell(x: int, y: int, directions: seq<seq<IVec2>>, sides: seq<seq<Side>>)
      requires Valid() && Shaped(directions, width, height) && Shaped(sides, width, height)
      requires InBounds(x, y, width, height)
      modifies this
      ensures Valid()
      ensures cells == Step(old(cells), width, height, directions, sides, x, y)
    {
      if cells[x][y].kind.None? {
        return;
      }
      var moveDir := directions[x][y];
      if moveDir == NoStep {
        return;
      }
      var tx, ty := x + moveDir.x, y + moveDir.y;
      var outOfBounds := tx < 0 || tx >= width || ty < 0 || ty >= height;
      var blocked := outOfBounds || cells[tx][ty].kind.Some?;
      if !blocked {
        // occupy the empty target
        cells := cells[tx := cells[tx][ty := cells[x][y]]];
        cells := cells[x := cells[x][y := EmptyCell]];
      } else if !outOfBounds && blocked &&
        ((Density(cells[x][y].kind.value) < Density(cells[tx][ty].kind.value) && moveDir.y > 0) ||
         (Density(cells[x][y].kind.value) > Density(cells[tx][ty].kind.value) && moveDir.y < 0))
      {
        // swap, then the buoyancy kick on both
        var temp := cells[x][y];
        cells := cells[x := cells[x][y := cells[tx][ty]]];
        cells := cells[tx := cells[tx][ty := temp]];
        var here, there := cells[x][y], cells[tx][ty];
        cells := cells[x := cells[x][y := here.(velocity := here.velocity.(y :=
          here.velocity.y + (Density(there.kind.value) - Density(here.kind.value))))]];
        here := cells[x][y];
        cells := cells[tx := cells[tx][ty := there.(velocity := there.velocity.(y :=
          there.velocity.y + (Density(here.kind.value) - Density(there.kind.value))))]];
        ghost var g, o := old(cells), old(cells)[tx][ty];
        ghost var expected := SetAt(SetAt(g, x, y, Kick(o, temp.kind.value)), tx, ty, Kick(temp, o.kind.value));
        assert cells[x][y] == expected[x][y] && cells[tx][ty] == expected[tx][ty];
        GridsEqual(cells, expected, width, height);
      } else {
        // stay, with the velocity the material's blocked rule gives
        var neighbourhood := BuildNeighbourhood(cells, width, height, x, y);
        var c := cells[x][y];
        cells := cells[x := cells[x][y := c.(velocity :=
          Respond(c.kind.value, neighbourhood, c.velocity, moveDir, sides[x][y]))]];
      }
    }
  }

  /** The three handles are pairwise distinct. */
  lemma HandlesDistinct(w: World)
    ensures w.GetSand() != w.GetWater() && w.GetSand() != w.GetSolid() && w.GetWater() != w.GetSolid()
  {
  }
}
