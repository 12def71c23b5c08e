/** The cell grid as a value: a sequence of columns indexed `[x][y]`, its
    bounded single-cell write, the material census, and the 3x3 neighbourhood
    window in which off-grid positions read as Solid. */
module Grids {
  import opened Cells
  import opened Rules

  /** `w` columns of `h` cells each. */
  predicate Shaped<T>(g: seq<seq<T>>, w: int, h: int) {
    |g| == w && forall i :: 0 <= i < |g| ==> |g[i]| == h
  }

  predicate InBounds(x: int, y: int, w: int, h: int) {
    0 <= x < w && 0 <= y < h
  }

  /** Two grids of one shape that agree in every slot are equal. */
  lemma GridsEqual<T>(a: seq<seq<T>>, b: seq<seq<T>>, w: int, h: int)
    requires Shaped(a, w, h) && Shaped(b, w, h)
    requires forall i, j :: 0 <= i < w && 0 <= j < h ==> a[i][j] == b[i][j]
    ensures a == b
  {
    forall i | 0 <= i < w
      ensures a[i] == b[i]
    {
      assert forall j :: 0 <= j < h ==> a[i][j] == b[i][j];
    }
  }

  /** The grid a World starts with: `w` columns of `h` empty cells. */
  function EmptyGrid(w: nat, h: nat): (g: seq<seq<Cell>>)
    ensures Shaped(g, w, h)
    ensures forall x, y :: 0 <= x < w && 0 <= y < h ==> g[x][y] == EmptyCell
  {
    seq(w, _ => seq(h, _ => EmptyCell))
  }

  /** The grid with the cell at `(x, y)` replaced by `c`. */
  function SetAt(g: seq<seq<Cell>>, x: int, y: int, c: Cell): (r: seq<seq<Cell>>)
    requires 0 <= x < |g| && 0 <= y < |g[x]|
    ensures |r| == |g| && forall i :: 0 <= i < |g| ==> |r[i]| == |g[i]|
    ensures r[x][y] == c
    ensures forall i, j :: 0 <= i < |g| && 0 <= j < |g[i]| && (i != x || j != y) ==> r[i][j] == g[i][j]
  {
    g[x := g[x][y := c]]
  }

  /** The two grids hold the same material (or none) in every slot. */
  predicate SameKinds(a: seq<seq<Cell>>, b: seq<seq<Cell>>) {
    |a| == |b| &&
    forall i :: 0 <= i < |a| ==>
      |a[i]| == |b[i]| && forall j :: 0 <= j < |a[i]| ==> a[i][j].kind == b[i][j].kind
  }

  /** 1 when the cell holds material `m`. */
  function KindCount(c: Cell, m: Material): nat {
    if c.kind == Some(m) then 1 else 0
  }

  function ColumnCount(col: seq<Cell>, m: Material): nat {
    if |col| == 0 then 0 else KindCount(col[0], m) + ColumnCount(col[1..], m)
  }

  /** The number of cells of the grid that hold material `m`. */
  function Count(g: seq<seq<Cell>>, m: Material): nat {
    if |g| == 0 then 0 else ColumnCount(g[0], m) + Count(g[1..], m)
  }

  lemma {:induction false} ColumnCountUpdate(col: seq<Cell>, y: int, c: Cell, m: Material)
    requires 0 <= y < |col|
    ensures ColumnCount(col[y := c], m) + KindCount(col[y], m) == ColumnCount(col, m) + KindCount(c, m)
  {
    if y == 0 {
      assert col[y := c][1..] == col[1..];
    } else {
      var rest := col[1..];
      assert col[y := c][1..] == rest[y - 1 := c];
      assert col[y := c][0] == col[0] && col[y] == rest[y - 1];
      ColumnCountUpdate(rest, y - 1, c, m);
    }
  }

  lemma {:induction false} CountUpdate(g: seq<seq<Cell>>, x: int, col: seq<Cell>, m: Material)
    requires 0 <= x < |g|
    ensures Count(g[x := col], m) + ColumnCount(g[x], m) == Count(g, m) + ColumnCount(col, m)
  {
    if x == 0 {
      assert g[x := col][1..] == g[1..];
    } else {
      var rest := g[1..];
      assert g[x := col][1..] == rest[x - 1 := col];
      assert g[x := col][0] == g[0] && g[x] == rest[x - 1];
      CountUpdate(rest, x - 1, col, m);
    }
  }

  /** Writing one cell takes the old occupant out of the count and the new one in. */
  lemma CountSetAt(g: seq<seq<Cell>>, x: int, y: int, c: Cell, m: Material)
    requires 0 <= x < |g| && 0 <= y < |g[x]|
    ensures Count(SetAt(g, x, y, c), m) + KindCount(g[x][y], m) == Count(g, m) + KindCount(c, m)
  {
    assert SetAt(g, x, y, c) == g[x := g[x][y := c]];
    ColumnCountUpdate(g[x], y, c, m);
    CountUpdate(g, x, g[x][y := c], m);
  }

  lemma {:induction false} ColumnCountOfSameKinds(a: seq<Cell>, b: seq<Cell>, m: Material)
    requires |a| == |b| && forall j :: 0 <= j < |a| ==> a[j].kind == b[j].kind
    ensures ColumnCount(a, m) == ColumnCount(b, m)
  {
    if |a| > 0 {
      ColumnCountOfSameKinds(a[1..], b[1..], m);
    }
  }

  /** The counts only depend on which material sits in each slot. */
  lemma {:induction false} CountOfSameKinds(a: seq<seq<Cell>>, b: seq<seq<Cell>>, m: Material)
    requires SameKinds(a, b)
    ensures Count(a, m) == Count(b, m)
  {
    if |a| > 0 {
      ColumnCountOfSameKinds(a[0], b[0], m);
      CountOfSameKinds(a[1..], b[1..], m);
    }
  }

  /** What the neighbourhood holds at grid position `(a, b)`. */
  function NeighbourAt(g: seq<seq<Cell>>, w: int, h: int, a: int, b: int): (c: Cell)
    requires Shaped(g, w, h)
    ensures InBounds(a, b, w, h) ==> c == g[a][b]
    ensures !InBounds(a, b, w, h) ==> c.kind == Some(Solid) && c.velocity == Zero
    ensures IsEmpty(c) ==> InBounds(a, b, w, h)
  {
    if InBounds(a, b, w, h) then g[a][b] else SolidCell
  }

  /** The 3x3 window centred on `(x, y)`: entry `[i][j]` is position
      `(x + i - 1, y + j - 1)`. */
  function Window(g: seq<seq<Cell>>, w: int, h: int, x: int, y: int): (n: seq<seq<Cell>>)
    requires Shaped(g, w, h)
    ensures IsWindow(n)
  {
    seq(3, i => seq(3, j => NeighbourAt(g, w, h, x + i - 1, y + j - 1)))
  }

  /** Around an on-grid cell the window holds the cell itself in the centre,
      the grid's own cells at on-grid offsets, and Solid (never empty) at every
      off-grid offset. */
  lemma WindowContents(g: seq<seq<Cell>>, w: int, h: int, x: int, y: int)
    requires Shaped(g, w, h) && InBounds(x, y, w, h)
    ensures Window(g, w, h, x, y)[1][1] == g[x][y]
    ensures forall i, j :: 0 <= i < 3 && 0 <= j < 3 && InBounds(x + i - 1, y + j - 1, w, h) ==>
      Window(g, w, h, x, y)[i][j] == g[x + i - 1][y + j - 1]
    ensures forall i, j :: 0 <= i < 3 && 0 <= j < 3 && !InBounds(x + i - 1, y + j - 1, w, h) ==>
      Window(g, w, h, x, y)[i][j] == SolidCell && !IsEmpty(Window(g, w, h, x, y)[i][j])
  {
    var n := Window(g, w, h, x, y);
    forall i, j | 0 <= i < 3 && 0 <= j < 3
      ensures n[i][j] == NeighbourAt(g, w, h, x + i - 1, y + j - 1)
    {
    }
  }

  /** When the random side chosen for sand points off the grid, the off-grid
      neighbours there read as Solid and close the slope, so the slide velocity
      is 0. (When the side points into the grid, sand falling at one cell per
      tick or faster is still pushed outwards: see `FastFallingSandSlidesAway`.) */
  lemma EdgeBlocksSlide(g: seq<seq<Cell>>, w: int, h: int, x: int, y: int, v: Vec2, side: Side)
    requires Shaped(g, w, h) && InBounds(x, y, w, h) && !(0 <= x + side < w)
    ensures SlideVelocity(Window(g, w, h, x, y), v, side) == 0.0
  {
    WindowContents(g, w, h, x, y);
    assert !InBounds(x + ((side as int) + 1) - 1, y + 1 - 1, w, h);
  }

  /** Water heading off the grid sees the Solid boundary and turns back. */
  lemma EdgeTurnsWater(g: seq<seq<Cell>>, w: int, h: int, x: int, y: int, v: Vec2, wanted: IVec2, side: Side)
    requires Shaped(g, w, h) && InBounds(x, y, w, h) && !(0 <= x + WaterHeading(v, side) < w)
    ensures WaterResponse(Window(g, w, h, x, y), v, wanted, side).x == -(WaterHeading(v, side) as real)
  {
    var dir := WaterHeading(v, side);
    WindowContents(g, w, h, x, y);
    assert !InBounds(x + ((dir as int) + 1) - 1, y + 1 - 1, w, h);
  }

  lemma {:induction false} ColumnCountEmpty(col: seq<Cell>, m: Material)
    requires forall j :: 0 <= j < |col| ==> col[j] == EmptyCell
    ensures ColumnCount(col, m) == 0
  {
    if |col| > 0 {
      ColumnCountEmpty(col[1..], m);
    }
  }

  /** A freshly built grid holds no particle of any material. */
  lemma {:induction false} EmptyGridHasNoParticles(w: nat, h: nat, m: Material)
    ensures Count(EmptyGrid(w, h), m) == 0
    decreases w
  {
    var g := EmptyGrid(w, h);
    if w > 0 {
      ColumnCountEmpty(g[0], m);
      assert g[1..] == EmptyGrid(w - 1, h);
      EmptyGridHasNoParticles(w - 1, h, m);
    }
  }

  /** Builds the neighbourhood the way the resolution sweep does, offset by
      offset, reading off-grid offsets as Solid with zero velocity. */
  method BuildNeighbourhood(g: seq<seq<Cell>>, w: int, h: int, x: int, y: int)
    returns (n: seq<seq<Cell>>)
    requires Shaped(g, w, h)
    ensures n == Window(g, w, h, x, y)
  {
    var blank := [EmptyCell, EmptyCell, EmptyCell];
    n := [blank, blank, blank];
    var nx := -1;
    while nx <= 1
      invariant -1 <= nx <= 2
      invariant IsWindow(n)
      invariant forall i, j :: 0 <= i < nx + 1 && 0 <= j < 3 ==>
        n[i][j] == NeighbourAt(g, w, h, x + i - 1, y + j - 1)
    {
      var column := n[nx + 1];
      var ny := -1;
      while ny <= 1
        invariant -1 <= ny <= 2
        invariant |column| == 3
        invariant forall j :: 0 <= j < ny + 1 ==>
          column[j] == NeighbourAt(g, w, h, x + nx, y + j - 1)
      {
        var cell;
        if x + nx < 0 || x + nx >= w || y + ny < 0 || y + ny >= h {
          cell := SolidCell;
        } else {
          cell := g[x + nx][y + ny];
        }
        column := column[ny + 1 := cell];
        ny := ny + 1;
      }
      n := n[nx + 1 := column];
      nx := nx + 1;
    }
    var want := Window(g, w, h, x, y);
    assert forall i :: 0 <= i < 3 ==> n[i] == want[i];
  }
}
