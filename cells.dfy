/** The data model of one grid slot: the three built-in materials, a velocity,
    and the nullable material reference that makes a cell empty or occupied. */
module Cells {

  datatype Option<+T> = None | Some(value: T)

  /** The closed set of materials a World ships with (its m_Sand, m_Water and
      m_Solid fields); a cell refers to one of them or to none. */
  datatype Material = Sand | Water | Solid

  /** Whether cells of this material take part in gravity and movement. */
  function Moves(m: Material): (b: bool)
    ensures b <==> m != Solid
  {
    match m
    case Sand => true
    case Water => true
    case Solid => false
  }

  /** The density used by the swap rule and the buoyancy kick. */
  function Density(m: Material): (d: real)
    ensures 0.0 < d <= 1.0
    ensures d < 1.0 <==> m == Water
  {
    match m
    case Sand => 1.0
    case Water => 0.5
    case Solid => 1.0
  }

  /** The gravity constant added to the vertical velocity of movable cells
      once per tick (y points up, so it is negative). */
  const Gravity: real := -0.1

  datatype Vec2 = Vec2(x: real, y: real)
  datatype IVec2 = IVec2(x: int, y: int)

  const Zero := Vec2(0.0, 0.0)
  const NoStep := IVec2(0, 0)

  /** A grid slot: `kind == None` is exactly the empty cell. */
  datatype Cell = Cell(kind: Option<Material>, velocity: Vec2)

  /** The value an empty slot is reset to: no material, zero velocity. */
  const EmptyCell := Cell(None, Zero)

  /** The pseudo-cell that stands for every off-grid neighbour. */
  const SolidCell := Cell(Some(Solid), Zero)

  predicate IsEmpty(c: Cell) {
    c.kind.None?
  }

  /** Occupied by a material that moves: the cells gravity and intent act on. */
  predicate Mobile(c: Cell) {
    c.kind.Some? && Moves(c.kind.value)
  }

  /** One random uniform draw `rand() / RAND_MAX`, which can reach 1. */
  type Draw = r: real | 0.0 <= r <= 1.0

  /** The pair of draws taken for one cell in the intent sweep (x axis, then y). */
  datatype Draws = Draws(x: Draw, y: Draw)

  /** A random lateral direction `(rand() % 2) * 2 - 1`. */
  type Side = d: int | d == -1 || d == 1 witness 1

  function Abs(v: real): (r: real)
    ensures r >= 0.0 && (r == v || r == -v)
  {
    if v < 0.0 then -v else v
  }

  function IAbs(i: int): (r: nat)
    ensures r == i || r == -i
  {
    if i < 0 then -i else i
  }

  /** The sign of a float as `glm::sign` gives it: -1, 0 or 1. */
  function Sign(v: real): (r: int)
    ensures -1 <= r <= 1
    ensures (r == 0) == (v == 0.0)
    ensures r as real * v == Abs(v)
  {
    if v > 0.0 then 1 else if v < 0.0 then -1 else 0
  }
}
