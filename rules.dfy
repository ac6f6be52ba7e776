/**
 * The pure specification of one Game of Life generation on the bounded
 * (non-wrapping) board: neighbour counting over the Moore neighbourhood and
 * the B3/S23 birth/survival rule.
 *
 * A grid is stored row-major, g[y][x], with 0 for a dead cell and 1 for a
 * live one. Cells are kept as integers, as on the device: the counter adds
 * cell values and the rule tests a cell for being exactly 1.
 */
module Rules {
  import opened Geometry

  type Grid = seq<seq<int>>

  /** A grid of the board's fixed shape, GRID_HEIGHT rows of GRID_WIDTH cells. */
  predicate WellFormed(g: Grid) {
    |g| == GRID_HEIGHT && forall y :: 0 <= y < |g| ==> |g[y]| == GRID_WIDTH
  }

  /** Every cell is 0 (dead) or 1 (alive). */
  predicate Binary(g: Grid)
    requires WellFormed(g)
  {
    forall y, x :: 0 <= y < GRID_HEIGHT && 0 <= x < GRID_WIDTH ==> g[y][x] == 0 || g[y][x] == 1
  }

  /** The all-dead board. */
  function Empty(): (g: Grid)
    ensures WellFormed(g) && Binary(g)
    ensures forall y, x :: 0 <= y < GRID_HEIGHT && 0 <= x < GRID_WIDTH ==> g[y][x] == 0
  {
    seq(GRID_HEIGHT, _ => seq(GRID_WIDTH, _ => 0))
  }

  /** The value a position contributes to a count: positions off the board count as dead. */
  function Cell(g: Grid, x: int, y: int): int
    requires WellFormed(g)
  {
    if InGrid(x, y) then g[y][x] else 0
  }

  /**
   * The Moore neighbourhood offsets (dx, dy), in the order the device visits
   * them: every combination of -1, 0, 1 except (0, 0).
   */
  const DIRECTIONS: seq<(int, int)> :=
    [(-1, -1), (-1, 0), (-1, 1), (0, -1), (0, 1), (1, -1), (1, 0), (1, 1)]

  /** Number of the eight neighbour positions of (x, y) that lie on the board. */
  function NeighbourPositions(x: int, y: int): (n: int)
    ensures 0 <= n <= 8
    ensures InGrid(x, y) && 0 < x < GRID_WIDTH - 1 && 0 < y < GRID_HEIGHT - 1 ==> n == 8
    ensures InGrid(x, y) && (x == 0 || x == GRID_WIDTH - 1) && (y == 0 || y == GRID_HEIGHT - 1) ==> n == 3
    ensures InGrid(x, y) && (x == 0 || x == GRID_WIDTH - 1) && 0 < y < GRID_HEIGHT - 1 ==> n == 5
    ensures InGrid(x, y) && (y == 0 || y == GRID_HEIGHT - 1) && 0 < x < GRID_WIDTH - 1 ==> n == 5
  {
    (if InGrid(x - 1, y - 1) then 1 else 0) + (if InGrid(x - 1, y) then 1 else 0) +
    (if InGrid(x - 1, y + 1) then 1 else 0) + (if InGrid(x, y - 1) then 1 else 0) +
    (if InGrid(x, y + 1) then 1 else 0) + (if InGrid(x + 1, y - 1) then 1 else 0) +
    (if InGrid(x + 1, y) then 1 else 0) + (if InGrid(x + 1, y + 1) then 1 else 0)
  }

  /**
   * The number of live neighbours of (x, y): the sum of the eight surrounding
   * cells, where positions off the board count as dead (no wrap-around).
   * On a 0/1 grid it is at most the number of neighbour positions on the board.
   */
  function Neighbours(g: Grid, x: int, y: int): (n: int)
    requires WellFormed(g)
    ensures Binary(g) ==> 0 <= n <= NeighbourPositions(x, y) <= 8
  {
    Cell(g, x - 1, y - 1) + Cell(g, x - 1, y) + Cell(g, x - 1, y + 1) + Cell(g, x, y - 1) +
    Cell(g, x, y + 1) + Cell(g, x + 1, y - 1) + Cell(g, x + 1, y) + Cell(g, x + 1, y + 1)
  }

  /** Sum of the cells at (x, y) shifted by each offset of ds, accumulated in list order. */
  function SumAlong(g: Grid, x: int, y: int, ds: seq<(int, int)>): int
    requires WellFormed(g)
  {
    if ds == [] then 0
    else SumAlong(g, x, y, ds[..|ds| - 1]) + Cell(g, x + ds[|ds| - 1].0, y + ds[|ds| - 1].1)
  }

  /** Accumulating over the direction list yields exactly the neighbour count. */
  lemma DirectionsSum(g: Grid, x: int, y: int)
    requires WellFormed(g)
    ensures SumAlong(g, x, y, DIRECTIONS) == Neighbours(g, x, y)
  {
    var d := DIRECTIONS;
    assert d[..8] == d;
    assert d[..1][..0] == [];
    assert SumAlong(g, x, y, d[..1]) == Cell(g, x - 1, y - 1);
    assert d[..2][..1] == d[..1];
    assert SumAlong(g, x, y, d[..2]) == SumAlong(g, x, y, d[..1]) + Cell(g, x - 1, y);
    assert d[..3][..2] == d[..2];
    assert SumAlong(g, x, y, d[..3]) == SumAlong(g, x, y, d[..2]) + Cell(g, x - 1, y + 1);
    assert d[..4][..3] == d[..3];
    assert SumAlong(g, x, y, d[..4]) == SumAlong(g, x, y, d[..3]) + Cell(g, x, y - 1);
    assert d[..5][..4] == d[..4];
    assert SumAlong(g, x, y, d[..5]) == SumAlong(g, x, y, d[..4]) + Cell(g, x, y + 1);
    assert d[..6][..5] == d[..5];
    assert SumAlong(g, x, y, d[..6]) == SumAlong(g, x, y, d[..5]) + Cell(g, x + 1, y - 1);
    assert d[..7][..6] == d[..6];
    assert SumAlong(g, x, y, d[..7]) == SumAlong(g, x, y, d[..6]) + Cell(g, x + 1, y);
    assert d[..8][..7] == d[..7];
    assert SumAlong(g, x, y, d[..8]) == SumAlong(g, x, y, d[..7]) + Cell(g, x + 1, y + 1);
  }

  /**
   * The B3/S23 rule for one cell with n live neighbours: a live cell (value 1)
   * survives with 2 or 3 neighbours; any other cell is born with exactly 3.
   */
  function NextState(cell: int, n: int): (s: int)
    ensures s == 0 || s == 1
  {
    if cell == 1 then (if 2 <= n <= 3 then 1 else 0)
    else (if n == 3 then 1 else 0)
  }

  /** The next state of cell (x, y) of g. */
  function StepCell(g: Grid, x: int, y: int): (s: int)
    requires WellFormed(g) && InGrid(x, y)
    ensures s == 0 || s == 1
  {
    NextState(g[y][x], Neighbours(g, x, y))
  }

  /**
   * One generation: every next state is computed from g, the unmodified
   * current generation. The result keeps the board's shape and is 0/1.
   */
  function Step(g: Grid): (h: Grid)
    requires WellFormed(g)
    ensures WellFormed(h) && Binary(h)
  {
    seq(GRID_HEIGHT, y requires 0 <= y < GRID_HEIGHT =>
      seq(GRID_WIDTH, x requires 0 <= x < GRID_WIDTH => StepCell(g, x, y)))
  }

  /** n generations from g. */
  function StepN(g: Grid, n: nat): (h: Grid)
    requires WellFormed(g)
    ensures WellFormed(h)
    ensures n > 0 ==> Binary(h)
  {
    if n == 0 then g else Step(StepN(g, n - 1))
  }

  /** Two grids of the board's shape are equal when they agree at every cell. */
  lemma {:induction false} GridExt(g: Grid, h: Grid)
    requires WellFormed(g) && WellFormed(h)
    requires forall y, x :: 0 <= y < GRID_HEIGHT && 0 <= x < GRID_WIDTH ==> g[y][x] == h[y][x]
    ensures g == h
  {
    forall y | 0 <= y < GRID_HEIGHT
      ensures g[y] == h[y]
    {
      assert forall x :: 0 <= x < GRID_WIDTH ==> g[y][x] == h[y][x];
    }
  }

  /** Survival: a live cell is live next generation exactly when it has 2 or 3 live neighbours. */
  lemma Survival(g: Grid, x: int, y: int)
    requires WellFormed(g) && InGrid(x, y) && g[y][x] == 1
    ensures Step(g)[y][x] == 1 <==> Neighbours(g, x, y) == 2 || Neighbours(g, x, y) == 3
  {
  }

  /** Birth: a dead cell is live next generation exactly when it has 3 live neighbours. */
  lemma Birth(g: Grid, x: int, y: int)
    requires WellFormed(g) && InGrid(x, y) && g[y][x] == 0
    ensures Step(g)[y][x] == 1 <==> Neighbours(g, x, y) == 3
  {
  }

  /**
   * No horizontal wrap-around: the count at the left edge does not depend on
   * the rightmost column, and the count at the right edge does not depend on
   * the leftmost column.
   */
  lemma NoHorizontalWrapAround(g: Grid, h: Grid, y: int)
    requires WellFormed(g) && WellFormed(h) && 0 <= y < GRID_HEIGHT
    ensures (forall i, j :: 0 <= i < GRID_HEIGHT && 0 <= j < GRID_WIDTH - 1 ==> g[i][j] == h[i][j]) ==>
      Neighbours(g, 0, y) == Neighbours(h, 0, y)
    ensures (forall i, j :: 0 <= i < GRID_HEIGHT && 0 < j < GRID_WIDTH ==> g[i][j] == h[i][j]) ==>
      Neighbours(g, GRID_WIDTH - 1, y) == Neighbours(h, GRID_WIDTH - 1, y)
  {
  }

  /**
   * No vertical wrap-around: the count on the top row does not depend on the
   * bottom row, and the count on the bottom row does not depend on the top row.
   */
  lemma NoVerticalWrapAround(g: Grid, h: Grid, x: int)
    requires WellFormed(g) && WellFormed(h) && 0 <= x < GRID_WIDTH
    ensures (forall i, j :: 0 <= i < GRID_HEIGHT - 1 && 0 <= j < GRID_WIDTH ==> g[i][j] == h[i][j]) ==>
      Neighbours(g, x, 0) == Neighbours(h, x, 0)
    ensures (forall i, j :: 0 < i < GRID_HEIGHT && 0 <= j < GRID_WIDTH ==> g[i][j] == h[i][j]) ==>
      Neighbours(g, x, GRID_HEIGHT - 1) == Neighbours(h, x, GRID_HEIGHT - 1)
  {
  }
}
