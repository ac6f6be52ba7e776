/**
 * Consequences of the B3/S23 rule on the bounded board: the empty board and
 * the 2x2 block are fixpoints, an isolated cell dies, the blinker has period
 * two, and a cell's next state depends only on its 3x3 window.
 */
module Patterns {
  import opened Geometry
  import opened Rules

  /** The board whose live cells are exactly those of the rectangle [x0, x1] x [y0, y1]. */
  function Filled(x0: int, y0: int, x1: int, y1: int): (g: Grid)
    ensures WellFormed(g) && Binary(g)
  {
    seq(GRID_HEIGHT, y => seq(GRID_WIDTH, x => if x0 <= x <= x1 && y0 <= y <= y1 then 1 else 0))
  }

  /** Whether the on-board position (x, y) is live in Filled(x0, y0, x1, y1). */
  function FilledAt(x0: int, y0: int, x1: int, y1: int, x: int, y: int): int
  {
    if InGrid(x, y) && x0 <= x <= x1 && y0 <= y <= y1 then 1 else 0
  }

  /** Reading one position of a filled-rectangle board. */
  lemma FilledCell(x0: int, y0: int, x1: int, y1: int, x: int, y: int)
    ensures Cell(Filled(x0, y0, x1, y1), x, y) == FilledAt(x0, y0, x1, y1, x, y)
  {
  }

  /** The live positions among the eight around (x, y) in Filled(x0, y0, x1, y1), added up. */
  function FilledSum(x0: int, y0: int, x1: int, y1: int, x: int, y: int): int
  {
    FilledAt(x0, y0, x1, y1, x - 1, y - 1) + FilledAt(x0, y0, x1, y1, x - 1, y) +
    FilledAt(x0, y0, x1, y1, x - 1, y + 1) + FilledAt(x0, y0, x1, y1, x, y - 1) +
    FilledAt(x0, y0, x1, y1, x, y + 1) + FilledAt(x0, y0, x1, y1, x + 1, y - 1) +
    FilledAt(x0, y0, x1, y1, x + 1, y) + FilledAt(x0, y0, x1, y1, x + 1, y + 1)
  }

  /** The neighbour count of a cell of a filled-rectangle board, position by position. */
  lemma FilledNeighbours(x0: int, y0: int, x1: int, y1: int, x: int, y: int)
    ensures Neighbours(Filled(x0, y0, x1, y1), x, y) == FilledSum(x0, y0, x1, y1, x, y)
  {
    FilledCell(x0, y0, x1, y1, x - 1, y - 1);
    FilledCell(x0, y0, x1, y1, x - 1, y);
    FilledCell(x0, y0, x1, y1, x - 1, y + 1);
    FilledCell(x0, y0, x1, y1, x, y - 1);
    FilledCell(x0, y0, x1, y1, x, y + 1);
    FilledCell(x0, y0, x1, y1, x + 1, y - 1);
    FilledCell(x0, y0, x1, y1, x + 1, y);
    FilledCell(x0, y0, x1, y1, x + 1, y + 1);
  }

  /**
   * The next state of a cell of a filled-rectangle board, read off the
   * rectangle alone: the rule applied to FilledAt and FilledSum.
   */
  lemma FilledStepCell(x0: int, y0: int, x1: int, y1: int, x: int, y: int)
    requires InGrid(x, y)
    ensures StepCell(Filled(x0, y0, x1, y1), x, y) ==
      NextState(FilledAt(x0, y0, x1, y1, x, y), FilledSum(x0, y0, x1, y1, x, y))
  {
    FilledCell(x0, y0, x1, y1, x, y);
    FilledNeighbours(x0, y0, x1, y1, x, y);
  }

  /** g and h agree at every on-board cell of the rectangle [x0, x1] x [y0, y1]. */
  predicate AgreeOn(g: Grid, h: Grid, x0: int, y0: int, x1: int, y1: int)
    requires WellFormed(g) && WellFormed(h)
  {
    forall y, x :: InGrid(x, y) && x0 <= x <= x1 && y0 <= y <= y1 ==> g[y][x] == h[y][x]
  }

  /** A cell's next state depends only on the cell and its eight neighbours. */
  lemma StepCellLocal(g: Grid, h: Grid, x: int, y: int)
    requires WellFormed(g) && WellFormed(h) && InGrid(x, y)
    requires AgreeOn(g, h, x - 1, y - 1, x + 1, y + 1)
    ensures Step(g)[y][x] == Step(h)[y][x]
  {
    assert Neighbours(g, x, y) == Neighbours(h, x, y);
  }

  /** Grids that agree on a rectangle have successors that agree on the rectangle shrunk by one. */
  lemma StepLocal(g: Grid, h: Grid, x0: int, y0: int, x1: int, y1: int)
    requires WellFormed(g) && WellFormed(h)
    requires AgreeOn(g, h, x0, y0, x1, y1)
    ensures AgreeOn(Step(g), Step(h), x0 + 1, y0 + 1, x1 - 1, y1 - 1)
  {
    forall y, x | InGrid(x, y) && x0 + 1 <= x <= x1 - 1 && y0 + 1 <= y <= y1 - 1
      ensures Step(g)[y][x] == Step(h)[y][x]
    {
      StepCellLocal(g, h, x, y);
    }
  }

  /** The all-dead board stays all-dead. */
  lemma EmptyIsFixpoint()
    ensures Step(Empty()) == Empty()
  {
    var e := Empty();
    forall y, x | 0 <= y < GRID_HEIGHT && 0 <= x < GRID_WIDTH
      ensures Step(e)[y][x] == e[y][x]
    {
      assert Neighbours(e, x, y) == 0;
    }
    GridExt(Step(e), e);
  }

  /** The all-dead board stays all-dead for any number of generations. */
  lemma {:induction false} EmptyForever(n: nat)
    ensures StepN(Empty(), n) == Empty()
  {
    if n > 0 {
      EmptyForever(n - 1);
      EmptyIsFixpoint();
    }
  }

  /** A cell none of whose neighbours is live is dead in the next generation, live or not. */
  lemma IsolatedCellDies(g: Grid, x: int, y: int)
    requires WellFormed(g) && InGrid(x, y)
    requires forall ny, nx :: InGrid(nx, ny) && x - 1 <= nx <= x + 1 && y - 1 <= ny <= y + 1 && (nx, ny) != (x, y) ==> g[ny][nx] == 0
    ensures Neighbours(g, x, y) == 0
    ensures Step(g)[y][x] == 0
  {
  }

  /** A board holding only the 2x2 block with top-left corner (x0, y0). */
  function Block(x0: int, y0: int): Grid
  {
    Filled(x0, y0, x0 + 1, y0 + 1)
  }

  /** The 2x2 square with top-left corner (x0, y0) lies on the board. */
  predicate BlockFits(x0: int, y0: int) {
    InGrid(x0, y0) && InGrid(x0 + 1, y0 + 1)
  }

  /** The rule, applied to the counts around a lone block, gives back the block. */
  lemma BlockRule(x0: int, y0: int, x: int, y: int)
    requires BlockFits(x0, y0)
    ensures NextState(FilledAt(x0, y0, x0 + 1, y0 + 1, x, y), FilledSum(x0, y0, x0 + 1, y0 + 1, x, y)) ==
      FilledAt(x0, y0, x0 + 1, y0 + 1, x, y)
  {
  }

  /** One cell of a lone block keeps its state. */
  lemma BlockCellKept(x0: int, y0: int, x: int, y: int)
    requires BlockFits(x0, y0) && InGrid(x, y)
    ensures StepCell(Block(x0, y0), x, y) == Block(x0, y0)[y][x]
  {
    BlockRule(x0, y0, x, y);
    FilledStepCell(x0, y0, x0 + 1, y0 + 1, x, y);
    FilledCell(x0, y0, x0 + 1, y0 + 1, x, y);
  }

  /** A board holding only a 2x2 block is unchanged by a step. */
  lemma BlockIsStillLife(x0: int, y0: int)
    requires BlockFits(x0, y0)
    ensures Step(Block(x0, y0)) == Block(x0, y0)
  {
    var g := Block(x0, y0);
    forall y, x | 0 <= y < GRID_HEIGHT && 0 <= x < GRID_WIDTH
      ensures Step(g)[y][x] == g[y][x]
    {
      BlockCellKept(x0, y0, x, y);
    }
    GridExt(Step(g), g);
  }

  /**
   * A 2x2 block whose surroundings up to distance two are dead survives a
   * step, and the ring of cells around it stays dead, whatever the rest of
   * the board holds.
   */
  lemma IsolatedBlockSurvives(g: Grid, x0: int, y0: int)
    requires WellFormed(g) && BlockFits(x0, y0)
    requires AgreeOn(g, Block(x0, y0), x0 - 2, y0 - 2, x0 + 3, y0 + 3)
    ensures AgreeOn(Step(g), Block(x0, y0), x0 - 1, y0 - 1, x0 + 2, y0 + 2)
  {
    StepLocal(g, Block(x0, y0), x0 - 2, y0 - 2, x0 + 3, y0 + 3);
    BlockIsStillLife(x0, y0);
  }

  /** The 3x3 square centred on (cx, cy), which holds a blinker in either phase, lies on the board. */
  predicate BlinkerFits(cx: int, cy: int) {
    InGrid(cx - 1, cy - 1) && InGrid(cx + 1, cy + 1)
  }

  /** A board holding only a horizontal line of three cells centred on (cx, cy). */
  function Horizontal(cx: int, cy: int): Grid
  {
    Filled(cx - 1, cy, cx + 1, cy)
  }

  /** A board holding only a vertical line of three cells centred on (cx, cy). */
  function Vertical(cx: int, cy: int): Grid
  {
    Filled(cx, cy - 1, cx, cy + 1)
  }

  /** One cell of a lone horizontal blinker takes its state in the vertical one. */
  lemma HorizontalCellTurns(cx: int, cy: int, x: int, y: int)
    requires BlinkerFits(cx, cy) && InGrid(x, y)
    ensures StepCell(Horizontal(cx, cy), x, y) == Vertical(cx, cy)[y][x]
  {
    HorizontalRule(cx, cy, x, y);
    FilledStepCell(cx - 1, cy, cx + 1, cy, x, y);
    FilledCell(cx, cy - 1, cx, cy + 1, x, y);
  }

  /** The rule, applied to the counts around a horizontal line of three, gives the vertical line. */
  lemma HorizontalRule(cx: int, cy: int, x: int, y: int)
    requires BlinkerFits(cx, cy)
    ensures NextState(FilledAt(cx - 1, cy, cx + 1, cy, x, y), FilledSum(cx - 1, cy, cx + 1, cy, x, y)) ==
      FilledAt(cx, cy - 1, cx, cy + 1, x, y)
  {
  }

  /** One cell of a lone vertical blinker takes its state in the horizontal one. */
  lemma VerticalCellTurns(cx: int, cy: int, x: int, y: int)
    requires BlinkerFits(cx, cy) && InGrid(x, y)
    ensures StepCell(Vertical(cx, cy), x, y) == Horizontal(cx, cy)[y][x]
  {
    VerticalRule(cx, cy, x, y);
    FilledStepCell(cx, cy - 1, cx, cy + 1, x, y);
    FilledCell(cx - 1, cy, cx + 1, cy, x, y);
  }

  /** The rule, applied to the counts around a vertical line of three, gives the horizontal line. */
  lemma VerticalRule(cx: int, cy: int, x: int, y: int)
    requires BlinkerFits(cx, cy)
    ensures NextState(FilledAt(cx, cy - 1, cx, cy + 1, x, y), FilledSum(cx, cy - 1, cx, cy + 1, x, y)) ==
      FilledAt(cx - 1, cy, cx + 1, cy, x, y)
  {
  }

  /** A horizontal blinker becomes vertical. */
  lemma BlinkerTurnsVertical(cx: int, cy: int)
    requires BlinkerFits(cx, cy)
    ensures Step(Horizontal(cx, cy)) == Vertical(cx, cy)
  {
    var g, v := Horizontal(cx, cy), Vertical(cx, cy);
    var next := Step(g);
    forall y, x | 0 <= y < GRID_HEIGHT && 0 <= x < GRID_WIDTH
      ensures next[y][x] == v[y][x]
    {
      HorizontalCellTurns(cx, cy, x, y);
      assert next[y][x] == StepCell(g, x, y);
    }
    GridExt(next, v);
  }

  /** A vertical blinker becomes horizontal. */
  lemma BlinkerTurnsHorizontal(cx: int, cy: int)
    requires BlinkerFits(cx, cy)
    ensures Step(Vertical(cx, cy)) == Horizontal(cx, cy)
  {
    var g, h := Vertical(cx, cy), Horizontal(cx, cy);
    var next := Step(g);
    forall y, x | 0 <= y < GRID_HEIGHT && 0 <= x < GRID_WIDTH
      ensures next[y][x] == h[y][x]
    {
      VerticalCellTurns(cx, cy, x, y);
      assert next[y][x] == StepCell(g, x, y);
    }
    GridExt(next, h);
  }

  /** The blinker has period two. */
  lemma BlinkerPeriodTwo(cx: int, cy: int)
    requires BlinkerFits(cx, cy)
    ensures StepN(Horizontal(cx, cy), 2) == Horizontal(cx, cy)
    ensures StepN(Horizontal(cx, cy), 1) != Horizontal(cx, cy)
  {
    var h, v := Horizontal(cx, cy), Vertical(cx, cy);
    BlinkerTurnsVertical(cx, cy);
    assert StepN(h, 1) == v;
    BlinkerTurnsHorizontal(cx, cy);
    assert StepN(h, 2) == Step(v);
    assert v[cy - 1][cx] != h[cy - 1][cx];
  }
}
