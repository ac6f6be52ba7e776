/**
 * The per-cell seeding decision. Two potentiometer readings, scaled down to
 * factors in 0..15, add up to a bias; a cell is seeded live only when its
 * 4-bit random draw is below the bias, and then takes the value of a 1-bit
 * random draw. The readings and the draws are given as values: the ADC and
 * the pseudo-random generator are not part of this model.
 */
module Seeding {
  import opened Geometry
  import opened Rules

  /** Largest reading of the 12-bit ADC. */
  const ADC_MAX: int := 4095

  /** A potentiometer reading scaled to a factor (integer division by 256). */
  function Factor(reading: int): (f: int)
    requires 0 <= reading <= ADC_MAX
    ensures 0 <= f <= 15
    ensures 256 * f <= reading < 256 * (f + 1)
  {
    reading / 256
  }

  /** The random draws one cell consumes: a 4-bit value and a 1-bit value. */
  datatype Draw = Draw(r4: int, r1: int)

  /** The ranges the generator guarantees: r4 in [0, 15] and r1 in {0, 1}. */
  predicate ValidDraw(d: Draw) {
    0 <= d.r4 < 16 && (d.r1 == 0 || d.r1 == 1)
  }

  /** One draw per cell, laid out like the board. */
  predicate DrawsShaped(draws: seq<seq<Draw>>) {
    |draws| == GRID_HEIGHT && forall y :: 0 <= y < |draws| ==> |draws[y]| == GRID_WIDTH
  }

  predicate ValidDraws(draws: seq<seq<Draw>>)
    requires DrawsShaped(draws)
  {
    forall y, x :: 0 <= y < GRID_HEIGHT && 0 <= x < GRID_WIDTH ==> ValidDraw(draws[y][x])
  }

  /** The seeded value of one cell: the 1-bit draw if the 4-bit draw is below the bias, else dead. */
  function SeedCell(d: Draw, bias: int): (c: int)
    ensures d.r4 < bias ==> c == d.r1
    ensures d.r4 >= bias ==> c == 0
    ensures ValidDraw(d) ==> c == 0 || c == 1
  {
    if d.r4 < bias then d.r1 else 0
  }

  /** The board the seeding loop produces; every cell is overwritten, so the old board plays no part. */
  function Seeded(draws: seq<seq<Draw>>, bias: int): (g: Grid)
    requires DrawsShaped(draws)
    ensures WellFormed(g)
    ensures ValidDraws(draws) ==> Binary(g)
  {
    seq(GRID_HEIGHT, y requires 0 <= y < GRID_HEIGHT =>
      seq(GRID_WIDTH, x requires 0 <= x < GRID_WIDTH => SeedCell(draws[y][x], bias)))
  }

  /** A cell is live after seeding only if its 4-bit draw was below the bias. */
  lemma LiveOnlyBelowBias(draws: seq<seq<Draw>>, bias: int, x: int, y: int)
    requires DrawsShaped(draws) && InGrid(x, y)
    ensures Seeded(draws, bias)[y][x] != 0 ==> draws[y][x].r4 < bias
  {
  }

  /**
   * A seeded cell is live exactly when its 4-bit draw is below the bias and
   * its 1-bit draw is 1.
   */
  lemma SeededLiveExactly(draws: seq<seq<Draw>>, bias: int, x: int, y: int)
    requires DrawsShaped(draws) && InGrid(x, y)
    ensures Seeded(draws, bias)[y][x] == 1 <==> draws[y][x].r4 < bias && draws[y][x].r1 == 1
  {
  }

  /** With both potentiometers at their lowest range the seeded board is all dead. */
  lemma ZeroBiasIsEmpty(draws: seq<seq<Draw>>, bias: int)
    requires DrawsShaped(draws) && ValidDraws(draws) && bias <= 0
    ensures Seeded(draws, bias) == Empty()
  {
    GridExt(Seeded(draws, bias), Empty());
  }

  /** With a bias of 16 or more every 4-bit draw passes and each cell is its 1-bit draw. */
  lemma HighBiasCopiesCoin(draws: seq<seq<Draw>>, bias: int, x: int, y: int)
    requires DrawsShaped(draws) && ValidDraws(draws) && bias >= 16 && InGrid(x, y)
    ensures Seeded(draws, bias)[y][x] == draws[y][x].r1
  {
  }

  /**
   * For the same draws, a larger bias never turns a live cell dead: the live
   * cells of the lower-bias board are live in the higher-bias one.
   */
  lemma BiasMonotone(draws: seq<seq<Draw>>, lo: int, hi: int, x: int, y: int)
    requires DrawsShaped(draws) && lo <= hi && InGrid(x, y)
    ensures Seeded(draws, lo)[y][x] == 1 ==> Seeded(draws, hi)[y][x] == 1
  {
  }
}
