/**
 * Display and grid geometry of the Game of Life board.
 *
 * The OLED panel is 128 x 64 pixels. The top 16 pixel rows are a header band
 * holding the time and generation text; the board below it is divided into
 * square cells of CELL_SIZE pixels, which fixes the grid at 32 columns by
 * 12 rows.
 */
module Geometry {

  const WIDTH: int := 128
  const HEIGHT: int := 64
  const CELL_SIZE: int := 4
  /** Pixel rows reserved at the top of the display for the text overlay. */
  const HEADER: int := 16

  const GRID_WIDTH: int := WIDTH / CELL_SIZE
  const GRID_HEIGHT: int := (HEIGHT - HEADER) / CELL_SIZE

  /** True when (x, y) names a cell of the board. */
  predicate InGrid(x: int, y: int) {
    0 <= x < GRID_WIDTH && 0 <= y < GRID_HEIGHT
  }

  /** A filled rectangle as handed to the display: origin, width, height. */
  datatype Rect = Rect(left: int, top: int, width: int, height: int)

  /** The square drawn for the live cell (x, y). */
  function CellRect(x: int, y: int): (r: Rect)
    requires InGrid(x, y)
    ensures 0 <= r.left && r.left + r.width <= WIDTH
    ensures HEADER <= r.top && r.top + r.height <= HEIGHT
    ensures r.width == CELL_SIZE && r.height == CELL_SIZE
  {
    Rect(x * CELL_SIZE, y * CELL_SIZE + HEADER, CELL_SIZE, CELL_SIZE)
  }

  /** True when pixel (px, py) is covered by rectangle r. */
  predicate Covers(r: Rect, px: int, py: int) {
    r.left <= px < r.left + r.width && r.top <= py < r.top + r.height
  }

  /** The cell whose square covers a pixel of the board area: the inverse of CellRect. */
  function PixelCell(px: int, py: int): (c: (int, int))
    requires 0 <= px < WIDTH && HEADER <= py < HEIGHT
    ensures InGrid(c.0, c.1)
    ensures Covers(CellRect(c.0, c.1), px, py)
  {
    (px / CELL_SIZE, (py - HEADER) / CELL_SIZE)
  }

  /** Every pixel of a cell's square maps back to that cell. */
  lemma CellRectInverse(x: int, y: int, px: int, py: int)
    requires InGrid(x, y) && Covers(CellRect(x, y), px, py)
    ensures 0 <= px < WIDTH && HEADER <= py < HEIGHT
    ensures PixelCell(px, py) == (x, y)
  {
    var r := CellRect(x, y);
    assert x * CELL_SIZE <= px < x * CELL_SIZE + CELL_SIZE;
    assert y * CELL_SIZE <= py - HEADER < y * CELL_SIZE + CELL_SIZE;
  }

  /** Squares of two different cells never share a pixel. */
  lemma CellRectsDisjoint(x1: int, y1: int, x2: int, y2: int, px: int, py: int)
    requires InGrid(x1, y1) && InGrid(x2, y2) && (x1, y1) != (x2, y2)
    ensures !(Covers(CellRect(x1, y1), px, py) && Covers(CellRect(x2, y2), px, py))
  {
    if Covers(CellRect(x1, y1), px, py) && Covers(CellRect(x2, y2), px, py) {
      CellRectInverse(x1, y1, px, py);
      CellRectInverse(x2, y2, px, py);
    }
  }
}
