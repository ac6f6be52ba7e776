/**
 * The simulation state as the device holds it: two board buffers of the
 * same shape, the current generation `grid` and the scratch buffer
 * `nextGrid`, updated in place by nested row/column loops.
 */
module Engine {
  import opened Geometry
  import opened Rules
  import opened Seeding
  import opened Render

  /** The contents of a board-shaped array as a grid value. */
  ghost function Snapshot(a: array2<int>): (g: Grid)
    reads a
    requires a.Length0 == GRID_HEIGHT && a.Length1 == GRID_WIDTH
    ensures WellFormed(g)
  {
    seq(GRID_HEIGHT, y requires 0 <= y < GRID_HEIGHT reads a =>
      seq(GRID_WIDTH, x requires 0 <= x < GRID_WIDTH reads a => a[y, x]))
  }

  /** What the display shows in one frame of a run: the generation label and the cell squares. */
  datatype Frame = Frame(step: nat, rects: seq<Rect>)

  /**
   * The number of toggle readings, from the first, that read "on": a run
   * advances one generation per such reading and stops at the first "off".
   */
  function LeadingOn(toggle: seq<bool>): (n: nat)
    ensures n <= |toggle|
    ensures forall i :: 0 <= i < n ==> toggle[i]
    ensures n < |toggle| ==> !toggle[n]
  {
    if toggle == [] || !toggle[0] then 0 else 1 + LeadingOn(toggle[1..])
  }

  /** A reading that is on, with only on readings before it, is among the leading ones. */
  lemma OnBeforeLeadingOn(toggle: seq<bool>, k: nat)
    requires k <= LeadingOn(toggle) && k < |toggle| && toggle[k]
    ensures k < LeadingOn(toggle)
  {
  }

  class Board {
    var grid: array2<int>
    var nextGrid: array2<int>

    /** Both buffers have the board's shape and are distinct arrays. */
    ghost predicate Valid()
      reads this
    {
      grid.Length0 == GRID_HEIGHT && grid.Length1 == GRID_WIDTH &&
      nextGrid.Length0 == GRID_HEIGHT && nextGrid.Length1 == GRID_WIDTH &&
      grid != nextGrid
    }

    /** The current generation. */
    ghost function Cells(): (g: Grid)
      reads this, grid
      requires Valid()
      ensures WellFormed(g)
    {
      Snapshot(grid)
    }

    /** Both buffers start all dead. */
    constructor ()
      ensures Valid() && fresh(grid) && fresh(nextGrid)
      ensures Cells() == Empty() && Snapshot(nextGrid) == Empty()
    {
      grid := new int[GRID_HEIGHT, GRID_WIDTH]((y, x) => 0);
      nextGrid := new int[GRID_HEIGHT, GRID_WIDTH]((y, x) => 0);
      new;
      GridExt(Snapshot(grid), Empty());
      GridExt(Snapshot(nextGrid), Empty());
    }

    /** The number of live neighbours of (x, y) in the current generation. */
    method CountNeighbours(x: int, y: int) returns (count: int)
      requires Valid()
      ensures count == Neighbours(Cells(), x, y)
      ensures Binary(Cells()) ==> 0 <= count <= NeighbourPositions(x, y)
    {
      count := 0;
      for k := 0 to |DIRECTIONS|
        invariant count == SumAlong(Cells(), x, y, DIRECTIONS[..k])
      {
        var (dx, dy) := DIRECTIONS[k];
        var nx, ny := x + dx, y + dy;
        if 0 <= nx < GRID_WIDTH && 0 <= ny < GRID_HEIGHT {
          count := count + grid[ny, nx];
        }
        assert DIRECTIONS[..k + 1][..k] == DIRECTIONS[..k];
      }
      assert DIRECTIONS[..|DIRECTIONS|] == DIRECTIONS;
      DirectionsSum(Cells(), x, y);
    }

    /**
     * The first half of a generation: writes the next state of every cell
     * into `nextGrid`, reading only the current generation, which it leaves
     * untouched.
     */
    method ComputeNext()
      requires Valid()
      modifies nextGrid
      ensures Valid()
      ensures Snapshot(nextGrid) == Step(Cells())
    {
      for y := 0 to GRID_HEIGHT
        invariant forall i, j :: 0 <= i < y && 0 <= j < GRID_WIDTH ==> nextGrid[i, j] == Step(Cells())[i][j]
      {
        ComputeRow(y);
      }
      GridExt(Snapshot(nextGrid), Step(Cells()));
    }

    /** The inner loop of the first half: the next state of every cell of row y. */
    method ComputeRow(y: int)
      requires Valid() && 0 <= y < GRID_HEIGHT
      modifies nextGrid
      ensures Valid()
      ensures forall j :: 0 <= j < GRID_WIDTH ==> nextGrid[y, j] == Step(Cells())[y][j]
      ensures forall i, j :: 0 <= i < GRID_HEIGHT && 0 <= j < GRID_WIDTH && i != y ==> nextGrid[i, j] == old(nextGrid[i, j])
    {
      ghost var g := Cells();
      for x := 0 to GRID_WIDTH
        invariant forall j :: 0 <= j < x ==> nextGrid[y, j] == Step(g)[y][j]
        invariant forall i, j :: 0 <= i < GRID_HEIGHT && 0 <= j < GRID_WIDTH && i != y ==> nextGrid[i, j] == old(nextGrid[i, j])
      {
        var aliveNeighbours := CountNeighbours(x, y);
        assert grid[y, x] == g[y][x];
        if grid[y, x] == 1 {
          nextGrid[y, x] := if 2 <= aliveNeighbours <= 3 then 1 else 0;
        } else {
          nextGrid[y, x] := if aliveNeighbours == 3 then 1 else 0;
        }
      }
    }

    /** The second half of a generation: copies `nextGrid` into `grid` cell by cell. */
    method CopyBack()
      requires Valid()
      modifies grid
      ensures Valid()
      ensures Cells() == Snapshot(nextGrid)
    {
      for y := 0 to GRID_HEIGHT
        invariant forall i, j :: 0 <= i < y && 0 <= j < GRID_WIDTH ==> grid[i, j] == nextGrid[i, j]
      {
        for x := 0 to GRID_WIDTH
          invariant forall i, j :: 0 <= i < y && 0 <= j < GRID_WIDTH ==> grid[i, j] == nextGrid[i, j]
          invariant forall j :: 0 <= j < x ==> grid[y, j] == nextGrid[y, j]
        {
          grid[y, x] := nextGrid[y, x];
        }
      }
      GridExt(Cells(), Snapshot(nextGrid));
    }

    /**
     * Advances one generation: every next state is computed into `nextGrid`
     * from the untouched current generation, then copied back into `grid`.
     */
    method UpdateGrid()
      requires Valid()
      modifies grid, nextGrid
      ensures Valid()
      ensures Cells() == Step(old(Cells())) && Binary(Cells())
      ensures Snapshot(nextGrid) == Step(old(Cells()))
    {
      ComputeNext();
      CopyBack();
    }

    /** The squares the frame draws for the current generation, in drawing order. */
    method DrawGrid() returns (rects: seq<Rect>)
      requires Valid()
      ensures rects == LiveRects(Cells())
    {
      rects := [];
      for y := 0 to GRID_HEIGHT
        invariant rects == GridRects(Cells(), y)
      {
        for x := 0 to GRID_WIDTH
          invariant rects == GridRects(Cells(), y) + RowRects(Cells(), y, x)
        {
          if grid[y, x] == 1 {
            rects := rects + [CellRect(x, y)];
          }
        }
      }
    }

    /**
     * Overwrites every cell with its seeded value, from the two potentiometer
     * readings and the per-cell random draws, then draws the new board.
     */
    method GenerateRandomSeed(reading1: int, reading2: int, draws: seq<seq<Draw>>) returns (rects: seq<Rect>)
      requires Valid()
      requires 0 <= reading1 <= ADC_MAX && 0 <= reading2 <= ADC_MAX
      requires DrawsShaped(draws) && ValidDraws(draws)
      modifies grid
      ensures Valid()
      ensures Cells() == Seeded(draws, Factor(reading1) + Factor(reading2))
      ensures Binary(Cells())
      ensures rects == LiveRects(Cells())
    {
      var randomFactor1 := reading1 / 256;
      var randomFactor2 := reading2 / 256;
      ghost var s := Seeded(draws, randomFactor1 + randomFactor2);
      for y := 0 to GRID_HEIGHT
        invariant forall i, j :: 0 <= i < y && 0 <= j < GRID_WIDTH ==> grid[i, j] == s[i][j]
      {
        for x := 0 to GRID_WIDTH
          invariant forall i, j :: 0 <= i < y && 0 <= j < GRID_WIDTH ==> grid[i, j] == s[i][j]
          invariant forall j :: 0 <= j < x ==> grid[y, j] == s[y][j]
        {
          grid[y, x] := if draws[y][x].r4 < randomFactor1 + randomFactor2 then draws[y][x].r1 else 0;
        }
      }
      GridExt(Cells(), s);
      rects := DrawGrid();
    }

    /**
     * The running phase: one toggle reading per iteration; while it reads on,
     * draw the current generation labelled with the step counter, advance
     * one generation and increment the counter, which starts at 0.
     */
    method Run(toggle: seq<bool>) returns (frames: seq<Frame>)
      requires Valid()
      modifies grid, nextGrid
      ensures Valid()
      ensures |frames| == LeadingOn(toggle)
      ensures forall i :: 0 <= i < |frames| ==> frames[i] == Frame(i, LiveRects(StepN(old(Cells()), i)))
      ensures Cells() == StepN(old(Cells()), |frames|)
    {
      ghost var g := Cells();
      var step := 0;
      frames := [];
      while step < |toggle| && toggle[step]
        invariant step <= LeadingOn(toggle) && |frames| == step
        invariant Valid() && Cells() == StepN(g, step)
        invariant forall i :: 0 <= i < step ==> frames[i] == Frame(i, LiveRects(StepN(g, i)))
      {
        ghost var current := Cells();
        var rects := DrawGrid();
        frames := frames + [Frame(step, rects)];
        UpdateGrid();
        assert Cells() == StepN(g, step + 1) by {
          assert Cells() == Step(current);
        }
        OnBeforeLeadingOn(toggle, step);
        step := step + 1;
      }
    }
  }
}
