/** The blocked-velocity rules of the three materials: what velocity a cell takes
    when it could neither move nor swap, as a function of its 3x3 neighbourhood
    (indexed `[dx + 1][dy + 1]`), its velocity, the step it wanted and one random
    lateral direction. */
module Rules {
  import opened Cells

  /** A 3x3 neighbourhood window. */
  predicate IsWindow(n: seq<seq<Cell>>) {
    |n| == 3 && forall i :: 0 <= i < 3 ==> |n[i]| == 3
  }

  /** A neighbour sand can slide into: empty, or strictly lighter than sand. */
  predicate SandPassable(c: Cell) {
    c.kind.None? || Density(c.kind.value) < Density(Sand)
  }

  /** Whether the lateral neighbour and the one below it on `side` let sand slide. */
  predicate SlopeOpen(n: seq<seq<Cell>>, side: Side)
    requires IsWindow(n)
  {
    SandPassable(n[side + 1][1]) && SandPassable(n[side + 1][0])
  }

  /** The extra horizontal velocity of sand going down a slope: 0.1 of its
      vertical velocity towards `side`, at least 0.1 in magnitude. */
  function SlideVelocity(n: seq<seq<Cell>>, v: Vec2, side: Side): (e: real)
    requires IsWindow(n)
    ensures !SlopeOpen(n, side) <==> e == 0.0
    ensures SlopeOpen(n, side) ==> Abs(e) >= 0.1
    ensures SlopeOpen(n, side) && -1.0 < v.y < 1.0 ==> e == 0.1 * side as real
    ensures SlopeOpen(n, side) && Abs(v.y) >= 1.0 ==> e == 0.1 * v.y * side as real
  {
    if SlopeOpen(n, side) then
      var e := v.y * 0.1 * side as real;
      if Abs(e) < 0.1 then 0.1 * side as real else e
    else 0.0
  }

  /** Sand: damped bounce (factor -0.1) on every axis it wanted to move along,
      plus the slide velocity on the horizontal axis. */
  function SandResponse(n: seq<seq<Cell>>, v: Vec2, wanted: IVec2, side: Side): (r: Vec2)
    requires IsWindow(n)
    ensures wanted.y == 0 ==> r.y == 0.0
    ensures IAbs(wanted.y) == 1 ==> r.y == -v.y / 10.0
    ensures !SlopeOpen(n, side) && wanted.x == 0 ==> r.x == 0.0
    ensures !SlopeOpen(n, side) && IAbs(wanted.x) == 1 ==> r.x == -v.x / 10.0
    ensures wanted.x == 0 && SlopeOpen(n, side) && -1.0 < v.y < 1.0 ==> r.x == 0.1 * side as real
    ensures r.x == -v.x / 10.0 * IAbs(wanted.x) as real + SlideVelocity(n, v, side)
    ensures r.y == -v.y / 10.0 * IAbs(wanted.y) as real
  {
    var extra := SlideVelocity(n, v, side);
    Vec2(v.x * -0.1 * IAbs(wanted.x) as real + extra, v.y * -0.1 * IAbs(wanted.y) as real)
  }

  /** The direction water spreads in: the sign of its horizontal velocity, or
      the random side when it has none. */
  function WaterHeading(v: Vec2, side: Side): (dir: Side)
    ensures v.x != 0.0 ==> dir as real * v.x > 0.0
    ensures v.x == 0.0 ==> dir == side
  {
    var s := Sign(v.x);
    if s == 0 then side else s
  }

  /** Water: a unit horizontal velocity towards its heading when the lateral
      neighbour there is empty, away from it otherwise; no vertical velocity. */
  function WaterResponse(n: seq<seq<Cell>>, v: Vec2, wanted: IVec2, side: Side): (r: Vec2)
    requires IsWindow(n)
    ensures r.y == 0.0 && (r.x == 1.0 || r.x == -1.0)
    ensures r.x == WaterHeading(v, side) as real <==> IsEmpty(n[WaterHeading(v, side) + 1][1])
  {
    var dir := WaterHeading(v, side);
    var velX: int := if IsEmpty(n[dir + 1][1]) then dir else -(dir as int);
    Vec2(velX as real, 0.0)
  }

  /** Solid always answers with zero velocity. */
  function SolidResponse(n: seq<seq<Cell>>, v: Vec2, wanted: IVec2): (r: Vec2)
    requires IsWindow(n)
    ensures r.x == 0.0 && r.y == 0.0
  {
    Zero
  }

  /** Dispatch on the material of the blocked cell (the BlockedVelocityCalculation
      of its CellType). */
  function Respond(m: Material, n: seq<seq<Cell>>, v: Vec2, wanted: IVec2, side: Side): (r: Vec2)
    requires IsWindow(n)
    ensures m == Solid ==> r == Zero
    ensures m == Water ==> r.y == 0.0 && Abs(r.x) == 1.0
    ensures m == Sand && wanted.y == 0 ==> r.y == 0.0
  {
    match m
    case Sand => SandResponse(n, v, wanted, side)
    case Water => WaterResponse(n, v, wanted, side)
    case Solid => SolidResponse(n, v, wanted)
  }

  /** Sand that was falling at one cell per tick or faster and is stopped with an
      open slope on `side` is given a horizontal velocity pointing to the OTHER
      side, because the slide is scaled by the signed vertical velocity. */
  lemma FastFallingSandSlidesAway(n: seq<seq<Cell>>, v: Vec2, side: Side)
    requires IsWindow(n) && SlopeOpen(n, side)
    requires v.y <= -1.0
    ensures Sign(SandResponse(n, v, IVec2(0, -1), side).x) == -(side as int)
  {
  }

  /** Sand whose slope on `side` is closed keeps no horizontal velocity after a
      purely vertical bounce, whatever its speed. */
  lemma ClosedSlopeStopsSand(n: seq<seq<Cell>>, v: Vec2, side: Side)
    requires IsWindow(n)
    requires n[side + 1][1].kind == Some(Solid) || n[side + 1][1].kind == Some(Sand)
    ensures SandResponse(n, v, IVec2(0, -1), side) == Vec2(0.0, -v.y / 10.0)
  {
  }
}
