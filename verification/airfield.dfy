/** The airfield grid: cell coordinates, the map of cell tokens and distances on it. */
module Airfield {

  /** A cell coordinate: `x` selects the row of the map, `y` the column. */
  datatype Pos = Pos(x: int, y: int)

  /** The map as loaded: rows of cell tokens (`"B"`, `"A"`, `"G"`, ...). */
  type Grid = seq<seq<string>>

  /** Token of a cell no aircraft may enter. */
  const Obstacle: string := "G"

  /** Token of a cell an aircraft may not wait on. */
  const MustMove: string := "A"

  /** Every row is as long as the first one; the width used for bounds is `len(map_data[0])`. */
  predicate Rectangular(g: Grid) {
    |g| > 0 && forall r | 0 <= r < |g| :: |g[r]| == |g[0]|
  }

  predicate InBounds(g: Grid, p: Pos)
    requires Rectangular(g)
  {
    0 <= p.x < |g| && 0 <= p.y < |g[0]|
  }

  function Cell(g: Grid, p: Pos): string
    requires Rectangular(g) && InBounds(g, p)
  {
    g[p.x][p.y]
  }

  /** In bounds and not an obstacle: the cells an aircraft may occupy. */
  predicate Enterable(g: Grid, p: Pos)
    requires Rectangular(g)
  {
    InBounds(g, p) && Cell(g, p) != Obstacle
  }

  function Abs(n: int): nat {
    if n < 0 then -n else n
  }

  /** Manhattan distance between two cells. */
  function Manhattan(p: Pos, q: Pos): nat {
    Abs(p.x - q.x) + Abs(p.y - q.y)
  }

  /** The cell reached from `p` by the offset `(dx, dy)`. */
  function Shift(p: Pos, dx: int, dy: int): Pos {
    Pos(p.x + dx, p.y + dy)
  }

  /** Distance 1 means exactly one of the four orthogonal neighbours. */
  lemma ManhattanOneIsOrthogonal(p: Pos, q: Pos)
    ensures Manhattan(p, q) == 1 <==>
            q == Shift(p, 0, 1) || q == Shift(p, 0, -1) || q == Shift(p, 1, 0) || q == Shift(p, -1, 0)
  {
    if Manhattan(p, q) == 1 {
      if q.x == p.x {
        assert Abs(p.y - q.y) == 1;
      } else {
        assert Abs(p.x - q.x) == 1 && q.y == p.y;
      }
    }
  }
}
