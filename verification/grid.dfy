/**
 * The playing field: integer cells, the four movement directions with their
 * unit deltas, and the rectangular grid the cells are checked against.
 */
module Grid {

  /** A grid cell. Coordinates are unbounded because a head may leave the grid. */
  datatype Cell = Cell(x: int, y: int)

  /** The movement directions, declared in the enumeration order of the game. */
  datatype Direction = Up | Down | Left | Right

  /** The expansion order used by the pathfinder: the declaration order above. */
  const Directions: seq<Direction> := [Up, Down, Left, Right]

  /** The cell one step from `c` in direction `d` (y grows downwards). */
  function Step(c: Cell, d: Direction): Cell
  {
    match d
    case Up => Cell(c.x, c.y - 1)
    case Down => Cell(c.x, c.y + 1)
    case Left => Cell(c.x - 1, c.y)
    case Right => Cell(c.x + 1, c.y)
  }

  function Opposite(d: Direction): (o: Direction)
    ensures o != d
  {
    match d
    case Up => Down
    case Down => Up
    case Left => Right
    case Right => Left
  }

  /** Stepping back in the opposite direction returns to the start cell. */
  lemma {:induction false} StepOpposite(c: Cell, d: Direction)
    ensures Step(Step(c, d), Opposite(d)) == c
    ensures Opposite(Opposite(d)) == d
  {
  }

  /** Different directions lead to different cells, and never to the cell itself. */
  lemma {:induction false} StepInjective(c: Cell, d: Direction, e: Direction)
    ensures Step(c, d) == Step(c, e) <==> d == e
    ensures Step(c, d) != c
  {
  }

  /** No cell occurs twice in `cells`. */
  predicate Distinct(cells: seq<Cell>)
  {
    forall i, j :: 0 <= i < j < |cells| ==> cells[i] != cells[j]
  }

  /** Grid dimensions; the game uses 40 by 30. */
  datatype Dims = Dims(width: int, height: int)
  {
    /** True when `c` lies in `[0, width) x [0, height)`. */
    predicate Contains(c: Cell)
    {
      0 <= c.x < width && 0 <= c.y < height
    }

    /** True when `c` lies inside the outermost ring, where obstacles may go. */
    predicate InInterior(c: Cell)
    {
      1 <= c.x <= width - 2 && 1 <= c.y <= height - 2
    }
  }

  /** The window size in pixels and the side of one cell. */
  const WindowWidth := 800
  const WindowHeight := 600
  const CellSize := 20

  /** The game's grid: the window divided into cells, 40 by 30. */
  const Standard: Dims := Dims(WindowWidth / CellSize, WindowHeight / CellSize)

  /** All cells of the grid, as a finite set. */
  function AllCells(g: Dims): (cells: set<Cell>)
    ensures forall c :: c in cells <==> g.Contains(c)
  {
    set x, y | 0 <= x < g.width && 0 <= y < g.height :: Cell(x, y)
  }

  /** All interior cells of the grid, as a finite set. */
  function InteriorCells(g: Dims): (cells: set<Cell>)
    ensures forall c :: c in cells <==> g.InInterior(c)
    ensures cells <= AllCells(g)
  {
    set x, y | 1 <= x <= g.width - 2 && 1 <= y <= g.height - 2 :: Cell(x, y)
  }

}
