# Micro Game of Life — simulation engine in Dafny

This project models the simulation engine of the MicroPython "Micro Game of Life". The program runs Conway's Game of Life on a 128 x 64 OLED display. The engine has four parts:

- **Board geometry.** Cells are 4 x 4 pixels. The top 16 pixel rows are a header band for the time and generation text. That makes the board 32 columns by 12 rows (`Geometry`).
- **Neighbour counting.** A cell's live neighbours are counted over its eight Moore neighbours. Positions off the board count as dead, with no wrap-around (`Rules.Neighbours`, `Engine.Board.CountNeighbours`).
- **The generation step.** The B3/S23 rule is applied to every cell, double-buffered. Every next state is written into `next_grid` from the untouched `grid`, and then `next_grid` is copied back cell by cell (`Rules.Step`, `Engine.Board.UpdateGrid`).
- **Seeding.** Two potentiometer readings are scaled to factors in 0..15 and summed into a bias. A cell becomes live only when its 4-bit random draw is below the bias. It then takes the value of a 1-bit random draw (`Seeding`, `Engine.Board.GenerateRandomSeed`).

The pure specification is on values of type `seq<seq<int>>`, indexed `g[y][x]`. It lives in `Rules` (the rule), `Patterns` (its consequences), `Seeding` and `Render` (the squares a frame draws). `Engine.Board` is the device's state. It holds the two buffers as `array2<int>` fields, which its methods update with the program's nested row/column loops. Each method is proved against the pure specification.

Cells are integers, as on the device. `count_neighbors` adds raw cell values, and the rule tests a cell for `== 1`. The 0/1 facts are stated under the predicate `Binary`.

Where the comments and the code disagree, the model follows the code. The comments at lines 24 and 50 speak of a 10-pixel header, but the code reserves 16 rows (lines 24 and 58). The model uses 16.

Inputs from the hardware are parameters:
- the two ADC readings, 12-bit values in 0..4095;
- the random draws, a 4-bit and a 1-bit value per cell;
- the toggle switch readings taken while a run is in progress.

## Model

| member | source | states |
|---|---|---|
| `Geometry.CellRect` | MicroGameofLife/Micro_Game_of_Life.py:58 | the square drawn for an on-board cell lies inside the 128 x 64 display, below the 16-pixel header band, and is CELL_SIZE x CELL_SIZE |
| `Geometry.PixelCell` | MicroGameofLife/Micro_Game_of_Life.py:21-24 | every pixel of the board area lies in an on-board cell whose drawn square covers that pixel (the inverse of the cell-to-square mapping) |
| `Geometry.CellRectInverse` | MicroGameofLife/Micro_Game_of_Life.py:58 | every pixel of a cell's square maps back to that cell |
| `Geometry.CellRectsDisjoint` | MicroGameofLife/Micro_Game_of_Life.py:58 | the squares of two different cells never share a pixel |
| `Rules.Empty` | MicroGameofLife/Micro_Game_of_Life.py:27-28 | the initial buffer has the board's 12 x 32 shape and every cell is 0 |
| `Rules.NeighbourPositions` | MicroGameofLife/Micro_Game_of_Life.py:64-69 | how many of the eight neighbour positions lie on the board: 8 inside, 5 on an edge, 3 at a corner |
| `Rules.Neighbours` | MicroGameofLife/Micro_Game_of_Life.py:63-70 | on a 0/1 board the count lies in [0, 8] and never exceeds the number of on-board neighbour positions, so a corner counts at most 3 and an edge cell at most 5 |
| `Rules.DirectionsSum` | MicroGameofLife/Micro_Game_of_Life.py:64-70 | adding up the cells along the device's direction list, in its order, gives exactly the eight-neighbour count |
| `Rules.NoHorizontalWrapAround` | MicroGameofLife/Micro_Game_of_Life.py:67-69 | two boards that agree everywhere except the rightmost column give the same count at every cell of the leftmost column, and symmetrically with the leftmost column and the rightmost cells: counts never wrap left to right |
| `Rules.NoVerticalWrapAround` | MicroGameofLife/Micro_Game_of_Life.py:67-69 | two boards that agree everywhere except the bottom row give the same count at every cell of the top row, and symmetrically with the top row and the bottom cells: counts never wrap top to bottom |
| `Rules.NextState` | MicroGameofLife/Micro_Game_of_Life.py:77-80 | the rule always yields 0 or 1 |
| `Rules.StepCell` | MicroGameofLife/Micro_Game_of_Life.py:76-80 | a cell's next state, computed from the current generation, is 0 or 1 |
| `Rules.Step` | MicroGameofLife/Micro_Game_of_Life.py:73-84 | one generation keeps the board's shape and leaves every cell 0 or 1 |
| `Rules.StepN` | MicroGameofLife/Micro_Game_of_Life.py:110-117 | repeated generations keep the board's shape, and after at least one generation every cell is 0 or 1 |
| `Rules.Survival` | MicroGameofLife/Micro_Game_of_Life.py:77-78 | a live cell is live in the next generation exactly when it has 2 or 3 live neighbours |
| `Rules.Birth` | MicroGameofLife/Micro_Game_of_Life.py:79-80 | a dead cell is live in the next generation exactly when it has 3 live neighbours |
| `Patterns.StepCellLocal` | MicroGameofLife/Micro_Game_of_Life.py:63-80 | a cell's next state depends only on the cell and its eight neighbours |
| `Patterns.StepLocal` | MicroGameofLife/Micro_Game_of_Life.py:74-80 | boards that agree on a rectangle have successors that agree on that rectangle shrunk by one cell |
| `Patterns.EmptyIsFixpoint` | MicroGameofLife/Micro_Game_of_Life.py:73-84 | an all-dead board stays all-dead |
| `Patterns.EmptyForever` | MicroGameofLife/Micro_Game_of_Life.py:110-117 | an all-dead board stays all-dead for any number of generations |
| `Patterns.IsolatedCellDies` | MicroGameofLife/Micro_Game_of_Life.py:76-80 | a cell with no live neighbour has count 0 and is dead in the next generation |
| `Patterns.BlockIsStillLife` | MicroGameofLife/Micro_Game_of_Life.py:76-80 | a board holding only a 2x2 block anywhere on it, edges included, is unchanged by a step |
| `Patterns.IsolatedBlockSurvives` | MicroGameofLife/Micro_Game_of_Life.py:74-80 | a 2x2 block with dead surroundings up to distance two survives a step, and the ring around it stays dead, whatever the rest of the board holds |
| `Patterns.BlinkerTurnsVertical` | MicroGameofLife/Micro_Game_of_Life.py:76-80 | a lone horizontal line of three cells becomes the vertical line through its centre |
| `Patterns.BlinkerTurnsHorizontal` | MicroGameofLife/Micro_Game_of_Life.py:76-80 | a lone vertical line of three cells becomes the horizontal line through its centre |
| `Patterns.BlinkerPeriodTwo` | MicroGameofLife/Micro_Game_of_Life.py:73-84 | the blinker returns to itself after two generations, and not after one |
| `Seeding.Factor` | MicroGameofLife/Micro_Game_of_Life.py:39-40 | a 12-bit reading divided by 256 gives a factor in [0, 15], the one whose 256-wide band holds the reading |
| `Seeding.SeedCell` | MicroGameofLife/Micro_Game_of_Life.py:43 | a cell takes its 1-bit draw when its 4-bit draw is below the bias and is 0 otherwise; with in-range draws it is 0 or 1 |
| `Seeding.Seeded` | MicroGameofLife/Micro_Game_of_Life.py:41-43 | the seeded board has the board's shape and, with in-range draws, is 0/1 |
| `Seeding.LiveOnlyBelowBias` | MicroGameofLife/Micro_Game_of_Life.py:43 | no cell of the seeded board is live unless its 4-bit draw was below f1 + f2 |
| `Seeding.SeededLiveExactly` | MicroGameofLife/Micro_Game_of_Life.py:43 | a seeded cell is live exactly when its 4-bit draw is below f1 + f2 and its 1-bit draw is 1 |
| `Seeding.ZeroBiasIsEmpty` | MicroGameofLife/Micro_Game_of_Life.py:39-43 | with bias 0 the seeded board is entirely dead |
| `Seeding.HighBiasCopiesCoin` | MicroGameofLife/Micro_Game_of_Life.py:43 | with bias 16 or more every cell takes the value of its 1-bit draw |
| `Seeding.BiasMonotone` | MicroGameofLife/Micro_Game_of_Life.py:43 | for the same draws, raising the bias never turns a live cell dead |
| `Render.RowRectsExact` | MicroGameofLife/Micro_Game_of_Life.py:56-58 | the squares drawn for a row prefix are exactly those of its live cells |
| `Render.GridRectsExact` | MicroGameofLife/Micro_Game_of_Life.py:55-58 | the squares drawn for the first m rows are exactly those of their live cells |
| `Render.LiveRectsExact` | MicroGameofLife/Micro_Game_of_Life.py:55-58 | a square is drawn exactly when it belongs to a live on-board cell |
| `Render.LiveRectsOnBoard` | MicroGameofLife/Micro_Game_of_Life.py:21-24 | every drawn square lies on the display, below the header band |
| `Render.EmptyDrawsNothing` | MicroGameofLife/Micro_Game_of_Life.py:55-58 | an all-dead board draws no square |
| `Engine.LeadingOn` | MicroGameofLife/Micro_Game_of_Life.py:110 | the number of toggle readings before the first "off": every one of them reads on and the next one, if any, reads off |
| `Engine.OnBeforeLeadingOn` | MicroGameofLife/Micro_Game_of_Life.py:110 | an "on" reading with only "on" readings before it is one of the leading ones, so the running loop goes on past it |
| `Engine.Board.constructor` | MicroGameofLife/Micro_Game_of_Life.py:27-28 | both buffers are fresh, have the board's shape, are distinct and are all dead |
| `Engine.Board.CountNeighbours` | MicroGameofLife/Micro_Game_of_Life.py:63-70 | the loop over the direction list returns the neighbour count of the current generation, which is within [0, 8] on a 0/1 board |
| `Engine.Board.ComputeNext` | MicroGameofLife/Micro_Game_of_Life.py:74-80 | the first loop nest writes Step of the current generation into `next_grid` and changes nothing else, in particular not `grid` |
| `Engine.Board.ComputeRow` | MicroGameofLife/Micro_Game_of_Life.py:75-80 | one pass of the inner loop writes the next state of every cell of row y into `next_grid`, leaves its other rows as they were, and does not touch `grid` |
| `Engine.Board.CopyBack` | MicroGameofLife/Micro_Game_of_Life.py:82-84 | the second loop makes `grid` equal to `next_grid` and changes nothing else |
| `Engine.Board.UpdateGrid` | MicroGameofLife/Micro_Game_of_Life.py:73-84 | afterwards both `grid` and `next_grid` hold Step of the old grid, every cell is 0 or 1, and the buffers are still distinct |
| `Engine.Board.DrawGrid` | MicroGameofLife/Micro_Game_of_Life.py:55-58 | the squares drawn, in drawing order, are those of the live cells of the current generation |
| `Engine.Board.GenerateRandomSeed` | MicroGameofLife/Micro_Game_of_Life.py:38-44 | every cell of `grid` is overwritten with its seeded value from f1 + f2 and the draws, the result is 0/1, `next_grid` is untouched, and the frame drawn shows the new board |
| `Engine.Board.Run` | MicroGameofLife/Micro_Game_of_Life.py:107-118 | one generation per "on" toggle reading; frame i is labelled i and shows generation i; afterwards the board is the initial one advanced by as many generations as frames were drawn |

## Left out

- The OLED driver (`ssd1306`, `SoftI2C`) is not modelled. Neither are `oled.fill`, `oled.text` and `oled.show`. A frame is modelled as the list of filled squares it draws.
- Engine.Board.DrawGrid: the header text ("Time: …s", "T: …") and its positions are not modelled. The elapsed-time and step arguments therefore do not appear.
- `startup_message` and the "Press Button" prompt are display output only.
- Pin and ADC set-up and attenuation (lines 7-18) are hardware configuration. The two readings are parameters, assumed to be 12-bit values in 0..4095.
- Engine.Board.GenerateRandomSeed: `urandom.getrandbits` is not modelled as a generator. The draws are given as one pair (4-bit, 1-bit) per cell. On the device the 1-bit draw is only taken when the 4-bit draw passes, so which generator output a cell receives depends on the earlier cells. The model does not capture that interleaving.
- Engine.Board.Run: the elapsed time (`ticks_ms`, `ticks_diff`, integer seconds) and the 100 ms sleeps are not modelled. The toggle is given as the sequence of readings taken at the top of each iteration.
- The rest of `main()` is timing- and hardware-driven control with no data logic beyond what `Run` states. This covers the wait for the toggle, the seeding loop that waits for the button, the debounce and wait-for-release, the recursive self-call restart (line 123) and the `KeyboardInterrupt` handler.
- The expected live-cell density after seeding is a statistical property of the generator. The model proves only its per-draw counterpart, `Seeding.BiasMonotone`: for the same draws, a larger bias never kills a cell.
- `update_grid` is modelled as two methods, `ComputeNext` and `CopyBack`, called in sequence by `UpdateGrid`. They hold the function's two loop nests unchanged, except that the inner loop of the first nest is its own method, `ComputeRow`, called once per row.
