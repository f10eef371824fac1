/**
 Directions, positions and the occupancy grid the bot moves on.

 The game's own headers (the direction-to-offset mapping, the bounds check
 and the cell lookup) are not part of this model; the definitions below are
 the assumed ones: screen coordinates with `y` growing southwards, a grid
 stored row by row, and a cell addressed as `grid[y][x]`.
 */
module Geometry {

  /** The four moves a light-cycle can make; there is no "stay". */
  datatype Direction = North | South | East | West

  /** An integer grid coordinate. */
  datatype Pos = Pos(x: int, y: int)

  /** The assumed unit offset of each direction (y grows towards the south). */
  function Offset(d: Direction): (v: Pos)
    ensures (v.x == 0) != (v.y == 0)
    ensures -1 <= v.x <= 1 && -1 <= v.y <= 1
    ensures v.y < 0 <==> d == North
    ensures v.y > 0 <==> d == South
    ensures v.x > 0 <==> d == East
    ensures v.x < 0 <==> d == West
  {
    match d
    case North => Pos(0, -1)
    case South => Pos(0, 1)
    case East => Pos(1, 0)
    case West => Pos(-1, 0)
  }

  /** The position one step from `p` in direction `d`. */
  function Step(p: Pos, d: Direction): (q: Pos)
  {
    Pos(p.x + Offset(d).x, p.y + Offset(d).y)
  }

  /** The direction that undoes a step in `d`. */
  function Opposite(d: Direction): (e: Direction)
    ensures e != d
    ensures Offset(e) == Pos(-Offset(d).x, -Offset(d).y)
  {
    match d
    case North => South
    case South => North
    case East => West
    case West => East
  }

  /** Different directions lead to different cells, and a step can be undone. */
  lemma StepInjective(p: Pos, d: Direction, e: Direction)
    ensures Step(p, d) == Step(p, e) <==> d == e
    ensures Step(Step(p, d), Opposite(d)) == p
    ensures Step(p, d) != p
  {
  }

  /** The occupancy grid: row `y`, column `x`; 0 is an empty cell, anything else is a trail. */
  type Grid = seq<seq<int>>

  const Empty: int := 0

  /** Every row of `g` has `width` cells and there are `height` rows. */
  ghost predicate Rectangular(g: Grid, width: int, height: int)
  {
    |g| == height && forall y :: 0 <= y < |g| ==> |g[y]| == width
  }

  predicate InsideGrid(g: Grid, p: Pos)
  {
    0 <= p.y < |g| && 0 <= p.x < |g[p.y]|
  }

  function CellAt(g: Grid, p: Pos): int
    requires InsideGrid(g, p)
  {
    g[p.y][p.x]
  }

  /** On a rectangular grid, the bounds check is `0 <= x < width && 0 <= y < height`. */
  lemma InsideGridBounds(g: Grid, width: int, height: int, p: Pos)
    requires Rectangular(g, width, height)
    ensures InsideGrid(g, p) <==> 0 <= p.x < width && 0 <= p.y < height
  {
  }

  /** A `width` by `height` grid with every cell empty. */
  function EmptyGrid(width: nat, height: nat): (g: Grid)
    ensures Rectangular(g, width, height)
    ensures forall p :: InsideGrid(g, p) ==> CellAt(g, p) == Empty
  {
    seq(height, _ => seq(width, _ => Empty))
  }

  /** `g` with the cell at `p` marked by `mark` (a trail left behind). */
  function Mark(g: Grid, p: Pos, mark: int): (g': Grid)
    requires InsideGrid(g, p)
    ensures |g'| == |g| && forall y :: 0 <= y < |g| ==> |g'[y]| == |g[y]|
    ensures forall q :: InsideGrid(g, q) ==> InsideGrid(g', q) && CellAt(g', q) == (if q == p then mark else CellAt(g, q))
  {
    g[p.y := g[p.y][p.x := mark]]
  }
}
