/**
 * What one frame draws on the board area: a filled CELL_SIZE square for
 * every live cell, visited row by row, left to right.
 */
module Render {
  import opened Geometry
  import opened Rules

  /** The squares for the live cells of row y in columns 0 .. n-1. */
  function RowRects(g: Grid, y: int, n: int): seq<Rect>
    requires WellFormed(g) && 0 <= y < GRID_HEIGHT && 0 <= n <= GRID_WIDTH
  {
    if n == 0 then []
    else RowRects(g, y, n - 1) + (if g[y][n - 1] == 1 then [CellRect(n - 1, y)] else [])
  }

  /** The squares for the live cells of rows 0 .. m-1. */
  function GridRects(g: Grid, m: int): seq<Rect>
    requires WellFormed(g) && 0 <= m <= GRID_HEIGHT
  {
    if m == 0 then [] else GridRects(g, m - 1) + RowRects(g, m - 1, GRID_WIDTH)
  }

  /** The squares drawn for board g. */
  function LiveRects(g: Grid): seq<Rect>
    requires WellFormed(g)
  {
    GridRects(g, GRID_HEIGHT)
  }

  lemma {:induction false} RowRectsExact(g: Grid, y: int, n: int, r: Rect)
    requires WellFormed(g) && 0 <= y < GRID_HEIGHT && 0 <= n <= GRID_WIDTH
    ensures r in RowRects(g, y, n) <==> exists x :: 0 <= x < n && g[y][x] == 1 && r == CellRect(x, y)
  {
    if n > 0 {
      RowRectsExact(g, y, n - 1, r);
    }
  }

  lemma {:induction false} GridRectsExact(g: Grid, m: int, r: Rect)
    requires WellFormed(g) && 0 <= m <= GRID_HEIGHT
    ensures r in GridRects(g, m) <==>
      exists y, x :: 0 <= y < m && 0 <= x < GRID_WIDTH && g[y][x] == 1 && r == CellRect(x, y)
  {
    if m > 0 {
      GridRectsExact(g, m - 1, r);
      RowRectsExact(g, m - 1, GRID_WIDTH, r);
    }
  }

  /** A square is drawn exactly when it belongs to a live cell. */
  lemma LiveRectsExact(g: Grid, r: Rect)
    requires WellFormed(g)
    ensures r in LiveRects(g) <==> exists y, x :: InGrid(x, y) && g[y][x] == 1 && r == CellRect(x, y)
  {
    GridRectsExact(g, GRID_HEIGHT, r);
  }

  /** Every drawn square lies on the 128 x 64 display, below the header band. */
  lemma LiveRectsOnBoard(g: Grid, r: Rect)
    requires WellFormed(g) && r in LiveRects(g)
    ensures 0 <= r.left && r.left + r.width <= WIDTH
    ensures HEADER <= r.top && r.top + r.height <= HEIGHT
  {
    LiveRectsExact(g, r);
  }

  /** An all-dead board draws nothing. */
  lemma EmptyDrawsNothing()
    ensures LiveRects(Empty()) == []
  {
    var e := Empty();
    if LiveRects(e) != [] {
      LiveRectsExact(e, LiveRects(e)[0]);
    }
  }
}
