/** One simulation tick as a function of the grid and the random inputs:
    the gravity sweep, the intent sweep, and the in-place resolution sweep that
    visits slots y outer, x inner, both ascending. */
module Simulation {
  import opened Cells
  import opened Rules
  import opened Grids

  /** The random values one tick consumes: two draws per slot for the intent
      sweep, and the lateral direction for a collision rule resolved at that slot
      (each slot is visited once per resolution sweep). */
  datatype TickInput = TickInput(draws: seq<seq<Draws>>, sides: seq<seq<Side>>)

  predicate Fits(inp: TickInput, w: nat, h: nat) {
    Shaped(inp.draws, w, h) && Shaped(inp.sides, w, h)
  }

  // ---------------------------------------------------------------- gravity

  /** One cell under the gravity sweep. */
  function Fall(c: Cell): (r: Cell)
    ensures r.kind == c.kind && r.velocity.x == c.velocity.x
    ensures Mobile(c) ==> r.velocity.y == c.velocity.y - 0.1
    ensures !Mobile(c) ==> r == c
  {
    if Mobile(c) then c.(velocity := c.velocity.(y := c.velocity.y + Gravity)) else c
  }

  /** The gravity sweep: only the vertical velocity of movable cells changes,
      by the gravity constant; materials stay where they are. */
  function ApplyGravity(g: seq<seq<Cell>>, w: nat, h: nat): (r: seq<seq<Cell>>)
    requires Shaped(g, w, h)
    ensures Shaped(r, w, h) && SameKinds(r, g)
    ensures forall x, y :: 0 <= x < w && 0 <= y < h ==>
      r[x][y].velocity.x == g[x][y].velocity.x &&
      r[x][y].velocity.y == g[x][y].velocity.y + (if Mobile(g[x][y]) then Gravity else 0.0)
  {
    seq(w, x requires 0 <= x < w => seq(h, y requires 0 <= y < h => Fall(g[x][y])))
  }

  // ----------------------------------------------------------------- intent

  /** One axis of an intent: a step of sign(v) when the draw is below |v|. */
  function AxisStep(draw: Draw, v: real): (s: int)
    ensures -1 <= s <= 1
    ensures s != 0 <==> draw < Abs(v)
    ensures s != 0 ==> s == Sign(v)
  {
    (if draw < Abs(v) then 1 else 0) * Sign(v)
  }

  /** The step a cell wants to take this tick; empty and immovable cells want none. */
  function Intent(c: Cell, d: Draws): (r: IVec2)
    ensures -1 <= r.x <= 1 && -1 <= r.y <= 1
    ensures !Mobile(c) ==> r == NoStep
    ensures Mobile(c) ==> (r.x != 0 <==> d.x < Abs(c.velocity.x)) && (r.y != 0 <==> d.y < Abs(c.velocity.y))
    ensures r.x != 0 ==> r.x == Sign(c.velocity.x)
    ensures r.y != 0 ==> r.y == Sign(c.velocity.y)
  {
    if Mobile(c) then IVec2(AxisStep(d.x, c.velocity.x), AxisStep(d.y, c.velocity.y)) else NoStep
  }

  /** The intent sweep: the `directions` buffer, indexed by slot. */
  function Intents(g: seq<seq<Cell>>, w: nat, h: nat, draws: seq<seq<Draws>>): (r: seq<seq<IVec2>>)
    requires Shaped(g, w, h) && Shaped(draws, w, h)
    ensures Shaped(r, w, h)
    ensures forall x, y :: 0 <= x < w && 0 <= y < h && !Mobile(g[x][y]) ==> r[x][y] == NoStep
    ensures forall x, y :: 0 <= x < w && 0 <= y < h ==> r[x][y] == Intent(g[x][y], draws[x][y])
  {
    seq(w, x requires 0 <= x < w => seq(h, y requires 0 <= y < h => Intent(g[x][y], draws[x][y])))
  }

  // ------------------------------------------------------------- resolution

  /** A mover may trade places with an occupied target when it is lighter and
      steps up, or denser and steps down. Whether the target moves is not asked. */
  function SwapAllowed(mover: Material, other: Material, d: IVec2): (b: bool)
    ensures b ==> Density(mover) != Density(other)
    ensures b && d.y > 0 ==> Density(mover) < Density(other)
    ensures b && d.y < 0 ==> Density(mover) > Density(other)
    ensures b ==> d.y != 0
    ensures mover == Water && other == Solid && d.y > 0 ==> b
  {
    (Density(mover) < Density(other) && d.y > 0) || (Density(mover) > Density(other) && d.y < 0)
  }

  /** The buoyancy kick of a cell that traded places with one of material `other`. */
  function Kick(c: Cell, other: Material): (r: Cell)
    requires c.kind.Some?
    ensures r.kind == c.kind && r.velocity.x == c.velocity.x
    ensures Density(other) > Density(c.kind.value) ==> r.velocity.y > c.velocity.y
    ensures Density(other) < Density(c.kind.value) ==> r.velocity.y < c.velocity.y
    ensures Density(other) == Density(c.kind.value) ==> r == c
  {
    c.(velocity := c.velocity.(y := c.velocity.y + (Density(other) - Density(c.kind.value))))
  }

  predicate StepInputs(g: seq<seq<Cell>>, w: nat, h: nat, dirs: seq<seq<IVec2>>, sides: seq<seq<Side>>) {
    Shaped(g, w, h) && Shaped(dirs, w, h) && Shaped(sides, w, h)
  }

  /** The resolution of the single slot `(x, y)` against the grid as it stands:
      move into an empty target, swap with an occupied one, or stay and take the
      velocity of the material's blocked rule. */
  function Step(g: seq<seq<Cell>>, w: nat, h: nat, dirs: seq<seq<IVec2>>, sides: seq<seq<Side>>, x: int, y: int)
    : (r: seq<seq<Cell>>)
    requires StepInputs(g, w, h, dirs, sides) && InBounds(x, y, w, h)
    ensures Shaped(r, w, h)
    ensures forall i, j ::
      (0 <= i < w && 0 <= j < h && (i != x || j != y) && (i != x + dirs[x][y].x || j != y + dirs[x][y].y))
      ==> r[i][j] == g[i][j]
  {
    var c := g[x][y];
    var d := dirs[x][y];
    if c.kind.None? || d == NoStep then g
    else
      var tx, ty := x + d.x, y + d.y;
      if InBounds(tx, ty, w, h) && g[tx][ty].kind.None? then
        SetAt(SetAt(g, tx, ty, c), x, y, EmptyCell)
      else if InBounds(tx, ty, w, h) && SwapAllowed(c.kind.value, g[tx][ty].kind.value, d) then
        var o := g[tx][ty];
        SetAt(SetAt(g, x, y, Kick(o, c.kind.value)), tx, ty, Kick(c, o.kind.value))
      else
        SetAt(g, x, y, c.(velocity := Respond(c.kind.value, Window(g, w, h, x, y), c.velocity, d, sides[x][y])))
  }

  /** The grid after the resolution sweep has visited slots `(0, y) .. (n - 1, y)`. */
  function ResolveRow(g: seq<seq<Cell>>, w: nat, h: nat, dirs: seq<seq<IVec2>>, sides: seq<seq<Side>>, y: int, n: int)
    : (r: seq<seq<Cell>>)
    requires StepInputs(g, w, h, dirs, sides) && 0 <= y < h && 0 <= n <= w
    ensures Shaped(r, w, h)
    decreases n
  {
    if n == 0 then g else Step(ResolveRow(g, w, h, dirs, sides, y, n - 1), w, h, dirs, sides, n - 1, y)
  }

  /** The grid after the resolution sweep has visited rows `0 .. m - 1`. */
  function ResolveRows(g: seq<seq<Cell>>, w: nat, h: nat, dirs: seq<seq<IVec2>>, sides: seq<seq<Side>>, m: int)
    : (r: seq<seq<Cell>>)
    requires StepInputs(g, w, h, dirs, sides) && 0 <= m <= h
    ensures Shaped(r, w, h)
    decreases m
  {
    if m == 0 then g else ResolveRow(ResolveRows(g, w, h, dirs, sides, m - 1), w, h, dirs, sides, m - 1, w)
  }

  /** One whole tick: gravity, then intents read from the grid after gravity,
      then the resolution sweep over every row. */
  function Tick(g: seq<seq<Cell>>, w: nat, h: nat, inp: TickInput): (r: seq<seq<Cell>>)
    requires Shaped(g, w, h) && Fits(inp, w, h)
    ensures Shaped(r, w, h)
  {
    var fallen := ApplyGravity(g, w, h);
    ResolveRows(fallen, w, h, Intents(fallen, w, h, inp.draws), inp.sides, h)
  }

  /** Any number of ticks, one input per tick. */
  function Run(g: seq<seq<Cell>>, w: nat, h: nat, inputs: seq<TickInput>): (r: seq<seq<Cell>>)
    requires Shaped(g, w, h) && forall k :: 0 <= k < |inputs| ==> Fits(inputs[k], w, h)
    ensures Shaped(r, w, h)
    decreases |inputs|
  {
    if |inputs| == 0 then g else Run(Tick(g, w, h, inputs[0]), w, h, inputs[1..])
  }

  // ------------------------------------------------------ what a step does

  /** A cell that leaves its slot empty went into an in-bounds empty target,
      unchanged, and left an empty zero-velocity cell behind. */
  lemma StepMoved(g: seq<seq<Cell>>, w: nat, h: nat, dirs: seq<seq<IVec2>>, sides: seq<seq<Side>>, x: int, y: int)
    requires StepInputs(g, w, h, dirs, sides) && InBounds(x, y, w, h)
    requires g[x][y].kind.Some? && Step(g, w, h, dirs, sides, x, y)[x][y].kind.None?
    ensures var r := Step(g, w, h, dirs, sides, x, y);
      var tx, ty := x + dirs[x][y].x, y + dirs[x][y].y;
      InBounds(tx, ty, w, h) && g[tx][ty].kind.None? && r[tx][ty] == g[x][y] && r[x][y] == EmptyCell
  {
  }

  /** A slot whose occupant changed to another material took part in a swap: the
      target was in bounds and held that material, the density and direction rule
      allowed it, and each side's vertical velocity rose by the other's density
      minus its own. */
  lemma StepSwapped(g: seq<seq<Cell>>, w: nat, h: nat, dirs: seq<seq<IVec2>>, sides: seq<seq<Side>>, x: int, y: int)
    requires StepInputs(g, w, h, dirs, sides) && InBounds(x, y, w, h)
    requires var r := Step(g, w, h, dirs, sides, x, y); r[x][y].kind.Some? && r[x][y].kind != g[x][y].kind
    ensures var r := Step(g, w, h, dirs, sides, x, y);
      var d := dirs[x][y];
      var tx, ty := x + d.x, y + d.y;
      var c := g[x][y];
      c.kind.Some? && InBounds(tx, ty, w, h) && g[tx][ty].kind == r[x][y].kind &&
      SwapAllowed(c.kind.value, g[tx][ty].kind.value, d) && r[tx][ty].kind == c.kind &&
      r[x][y].velocity.x == g[tx][ty].velocity.x && r[tx][ty].velocity.x == c.velocity.x &&
      r[x][y].velocity.y == g[tx][ty].velocity.y + (Density(c.kind.value) - Density(g[tx][ty].kind.value)) &&
      r[tx][ty].velocity.y == c.velocity.y + (Density(g[tx][ty].kind.value) - Density(c.kind.value))
  {
  }

  /** A cell that keeps its material stays put: no slot changes material, no
      other slot changes at all, and its velocity is either untouched or the
      answer of its material's blocked rule to the current neighbourhood. */
  lemma StepStayed(g: seq<seq<Cell>>, w: nat, h: nat, dirs: seq<seq<IVec2>>, sides: seq<seq<Side>>, x: int, y: int)
    requires StepInputs(g, w, h, dirs, sides) && InBounds(x, y, w, h)
    requires Step(g, w, h, dirs, sides, x, y)[x][y].kind == g[x][y].kind
    ensures var r := Step(g, w, h, dirs, sides, x, y);
      var c := g[x][y];
      var d := dirs[x][y];
      SameKinds(r, g) &&
      (forall i, j :: 0 <= i < w && 0 <= j < h && (i != x || j != y) ==> r[i][j] == g[i][j]) &&
      (r[x][y] == c ||
       (c.kind.Some? && d != NoStep &&
        r[x][y] == c.(velocity := Respond(c.kind.value, Window(g, w, h, x, y), c.velocity, d, sides[x][y]))))
  {
  }

  /** An occupied slot that wants a step into an in-bounds empty target moves
      there unchanged and leaves an empty zero-velocity cell behind. */
  lemma StepIntoEmpty(g: seq<seq<Cell>>, w: nat, h: nat, dirs: seq<seq<IVec2>>, sides: seq<seq<Side>>, x: int, y: int)
    requires StepInputs(g, w, h, dirs, sides) && InBounds(x, y, w, h)
    requires g[x][y].kind.Some? && dirs[x][y] != NoStep
    requires InBounds(x + dirs[x][y].x, y + dirs[x][y].y, w, h) && g[x + dirs[x][y].x][y + dirs[x][y].y].kind.None?
    ensures var r := Step(g, w, h, dirs, sides, x, y);
      r[x + dirs[x][y].x][y + dirs[x][y].y] == g[x][y] && r[x][y] == EmptyCell
  {
  }

  /** An occupied slot whose in-bounds occupied target the density and
      direction rule lets it displace trades places with it, and both cells take
      the buoyancy kick of the other's material. */
  lemma StepSwapsWhenAllowed(g: seq<seq<Cell>>, w: nat, h: nat, dirs: seq<seq<IVec2>>, sides: seq<seq<Side>>,
                             x: int, y: int)
    requires StepInputs(g, w, h, dirs, sides) && InBounds(x, y, w, h)
    requires g[x][y].kind.Some? && dirs[x][y] != NoStep
    requires var tx, ty := x + dirs[x][y].x, y + dirs[x][y].y;
      InBounds(tx, ty, w, h) && g[tx][ty].kind.Some? &&
      SwapAllowed(g[x][y].kind.value, g[tx][ty].kind.value, dirs[x][y])
    ensures var r := Step(g, w, h, dirs, sides, x, y);
      var tx, ty := x + dirs[x][y].x, y + dirs[x][y].y;
      r[x][y] == Kick(g[tx][ty], g[x][y].kind.value) && r[tx][ty] == Kick(g[x][y], g[tx][ty].kind.value)
  {
  }

  /** An occupied slot whose step leads off the grid, or onto an occupied cell it
      may not displace, stays where it is, and only its velocity changes: to its
      material's blocked response to the current window. Nothing else changes. */
  lemma StepBlocked(g: seq<seq<Cell>>, w: nat, h: nat, dirs: seq<seq<IVec2>>, sides: seq<seq<Side>>, x: int, y: int)
    requires StepInputs(g, w, h, dirs, sides) && InBounds(x, y, w, h)
    requires g[x][y].kind.Some? && dirs[x][y] != NoStep
    requires var tx, ty := x + dirs[x][y].x, y + dirs[x][y].y;
      !InBounds(tx, ty, w, h) ||
      (g[tx][ty].kind.Some? && !SwapAllowed(g[x][y].kind.value, g[tx][ty].kind.value, dirs[x][y]))
    ensures var r := Step(g, w, h, dirs, sides, x, y);
      var c := g[x][y];
      r == SetAt(g, x, y, c.(velocity := Respond(c.kind.value, Window(g, w, h, x, y), c.velocity, dirs[x][y], sides[x][y])))
  {
  }

  /** A slot that is empty or wants no step is skipped: the grid is unchanged. */
  lemma StepSkipped(g: seq<seq<Cell>>, w: nat, h: nat, dirs: seq<seq<IVec2>>, sides: seq<seq<Side>>, x: int, y: int)
    requires StepInputs(g, w, h, dirs, sides) && InBounds(x, y, w, h)
    requires g[x][y].kind.None? || dirs[x][y] == NoStep
    ensures Step(g, w, h, dirs, sides, x, y) == g
  {
  }

  /** Sand and Solid have equal density, so neither can ever displace the other
      (nor another cell of its own kind). */
  lemma EqualDensityNeverSwaps(a: Material, b: Material, d: IVec2)
    requires a in {Sand, Solid} && b in {Sand, Solid}
    ensures !SwapAllowed(a, b, d)
  {
  }

  // ------------------------------------------------------- material counts

  /** One resolution step keeps the number of cells of each material. */
  lemma StepPreservesCounts(g: seq<seq<Cell>>, w: nat, h: nat, dirs: seq<seq<IVec2>>, sides: seq<seq<Side>>,
                            x: int, y: int, m: Material)
    requires StepInputs(g, w, h, dirs, sides) && InBounds(x, y, w, h)
    ensures Count(Step(g, w, h, dirs, sides, x, y), m) == Count(g, m)
  {
    var c := g[x][y];
    var d := dirs[x][y];
    if c.kind.None? || d == NoStep {
    } else {
      var tx, ty := x + d.x, y + d.y;
      if InBounds(tx, ty, w, h) && g[tx][ty].kind.None? {
        var g1 := SetAt(g, tx, ty, c);
        CountSetAt(g, tx, ty, c, m);
        CountSetAt(g1, x, y, EmptyCell, m);
      } else if InBounds(tx, ty, w, h) && SwapAllowed(c.kind.value, g[tx][ty].kind.value, d) {
        var o := g[tx][ty];
        var g1 := SetAt(g, x, y, Kick(o, c.kind.value));
        CountSetAt(g, x, y, Kick(o, c.kind.value), m);
        CountSetAt(g1, tx, ty, Kick(c, o.kind.value), m);
      } else {
        StepBlocked(g, w, h, dirs, sides, x, y);
        CountSetAt(g, x, y, c.(velocity := Respond(c.kind.value, Window(g, w, h, x, y), c.velocity, d, sides[x][y])), m);
      }
    }
  }

  lemma {:induction false} ResolveRowPreservesCounts(g: seq<seq<Cell>>, w: nat, h: nat, dirs: seq<seq<IVec2>>,
                                                     sides: seq<seq<Side>>, y: int, n: int, m: Material)
    requires StepInputs(g, w, h, dirs, sides) && 0 <= y < h && 0 <= n <= w
    ensures Count(ResolveRow(g, w, h, dirs, sides, y, n), m) == Count(g, m)
    decreases n
  {
    if n > 0 {
      ResolveRowPreservesCounts(g, w, h, dirs, sides, y, n - 1, m);
      StepPreservesCounts(ResolveRow(g, w, h, dirs, sides, y, n - 1), w, h, dirs, sides, n - 1, y, m);
    }
  }

  lemma {:induction false} ResolveRowsPreservesCounts(g: seq<seq<Cell>>, w: nat, h: nat, dirs: seq<seq<IVec2>>,
                                                      sides: seq<seq<Side>>, k: int, m: Material)
    requires StepInputs(g, w, h, dirs, sides) && 0 <= k <= h
    ensures Count(ResolveRows(g, w, h, dirs, sides, k), m) == Count(g, m)
    decreases k
  {
    if k > 0 {
      ResolveRowsPreservesCounts(g, w, h, dirs, sides, k - 1, m);
      ResolveRowPreservesCounts(ResolveRows(g, w, h, dirs, sides, k - 1), w, h, dirs, sides, k - 1, w, m);
    }
  }

  /** A tick never creates, destroys or converts a particle: every material
      keeps its count (and, by the grid's shape, nothing lands off-grid). */
  lemma TickPreservesCounts(g: seq<seq<Cell>>, w: nat, h: nat, inp: TickInput, m: Material)
    requires Shaped(g, w, h) && Fits(inp, w, h)
    ensures Count(Tick(g, w, h, inp), m) == Count(g, m)
  {
    var fallen := ApplyGravity(g, w, h);
    CountOfSameKinds(fallen, g, m);
    ResolveRowsPreservesCounts(fallen, w, h, Intents(fallen, w, h, inp.draws), inp.sides, h, m);
  }

  /** The same over any number of ticks. */
  lemma {:induction false} RunPreservesCounts(g: seq<seq<Cell>>, w: nat, h: nat, inputs: seq<TickInput>, m: Material)
    requires Shaped(g, w, h) && forall k :: 0 <= k < |inputs| ==> Fits(inputs[k], w, h)
    ensures Count(Run(g, w, h, inputs), m) == Count(g, m)
    decreases |inputs|
  {
    if |inputs| > 0 {
      TickPreservesCounts(g, w, h, inputs[0], m);
      RunPreservesCounts(Tick(g, w, h, inputs[0]), w, h, inputs[1..], m);
    }
  }

  // ------------------------------------------------ grids that never change

  /** Every slot is empty or holds an immovable material. */
  predicate AllImmovable(g: seq<seq<Cell>>) {
    forall x, y :: 0 <= x < |g| && 0 <= y < |g[x]| ==> !Mobile(g[x][y])
  }

  predicate AllIdle(dirs: seq<seq<IVec2>>) {
    forall x, y :: 0 <= x < |dirs| && 0 <= y < |dirs[x]| ==> dirs[x][y] == NoStep
  }

  lemma {:induction false} ResolveRowIdle(g: seq<seq<Cell>>, w: nat, h: nat, dirs: seq<seq<IVec2>>,
                                          sides: seq<seq<Side>>, y: int, n: int)
    requires StepInputs(g, w, h, dirs, sides) && 0 <= y < h && 0 <= n <= w && AllIdle(dirs)
    ensures ResolveRow(g, w, h, dirs, sides, y, n) == g
    decreases n
  {
    if n > 0 {
      ResolveRowIdle(g, w, h, dirs, sides, y, n - 1);
      assert dirs[n - 1][y] == NoStep;
    }
  }

  lemma {:induction false} ResolveRowsIdle(g: seq<seq<Cell>>, w: nat, h: nat, dirs: seq<seq<IVec2>>,
                                           sides: seq<seq<Side>>, k: int)
    requires StepInputs(g, w, h, dirs, sides) && 0 <= k <= h && AllIdle(dirs)
    ensures ResolveRows(g, w, h, dirs, sides, k) == g
    decreases k
  {
    if k > 0 {
      ResolveRowsIdle(g, w, h, dirs, sides, k - 1);
      ResolveRowIdle(g, w, h, dirs, sides, k - 1, w);
    }
  }

  /** A grid holding only Solid (and empty slots) is left exactly as it is by a tick. */
  lemma TickFixesImmovable(g: seq<seq<Cell>>, w: nat, h: nat, inp: TickInput)
    requires Shaped(g, w, h) && Fits(inp, w, h) && AllImmovable(g)
    ensures Tick(g, w, h, inp) == g
  {
    var fallen := ApplyGravity(g, w, h);
    forall x | 0 <= x < w
      ensures fallen[x] == g[x]
    {
      assert forall y :: 0 <= y < h ==> fallen[x][y] == g[x][y];
    }
    assert fallen == g;
    var dirs := Intents(fallen, w, h, inp.draws);
    assert AllIdle(dirs);
    ResolveRowsIdle(fallen, w, h, dirs, inp.sides, h);
  }

  /** ... and by any number of ticks. */
  lemma {:induction false} RunFixesImmovable(g: seq<seq<Cell>>, w: nat, h: nat, inputs: seq<TickInput>)
    requires Shaped(g, w, h) && AllImmovable(g) && forall k :: 0 <= k < |inputs| ==> Fits(inputs[k], w, h)
    ensures Run(g, w, h, inputs) == g
    decreases |inputs|
  {
    if |inputs| > 0 {
      TickFixesImmovable(g, w, h, inputs[0]);
      RunFixesImmovable(g, w, h, inputs[1..]);
    }
  }
}
