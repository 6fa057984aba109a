# Sudoku checker: a verified model of `checkPuzzle`

This project models the constraint-checking core of the Sudoku verifier
`sudoku.c` in Dafny and proves what it computes.

`checkPuzzle` takes a puzzle of size N (with N = r * r) stored in a grid
indexed 1..N; row 0 and column 0 are unused. It starts three check tasks
per index k:

- `rowCheck` on column k + 1;
- `colCheck` on row k + 1;
- `sqrCheck` on box k.

Each task scans its N cells with a local "seen" table. It clears its
`comp` flag when it meets an empty cell (0). It clears its `val` flag when
it meets a symbol it has already seen. It stops early once both flags are
clear. `checkPuzzle` then joins the tasks in order and ANDs their flags
into the caller's `complete` and `valid`. It stops joining once both are
false.

Three modules:

- `Grid` (grid.dfy):
  - the grid and the cells of each unit, in the order the scanners read
    them;
  - the integer square root;
  - the (row, column) counter pair that both the box scan and the anchor
    loop step;
  - the Sudoku rules stated cell by cell.
- `Scan` (scan.dfy):
  - the `params` record as a class;
  - the three scanners as methods with loops over a `nums` array.
- `Puzzle` (puzzle.dfy):
  - the anchor loop and the join loop of `checkPuzzle`;
  - lemmas proving that the units the tasks check decide exactly the
    Sudoku rules, when all 3N tasks fit under `MAX_PTHREAD`.

Main results:

- **Scanners.** After `RowCheck`, `ColCheck` or `SqrCheck`:
  - `comp` is cleared exactly when the unit holds a 0;
  - `val` is cleared exactly when a non-zero symbol repeats;
  - the early `break` changes neither flag;
  - the scan answers false exactly when both flags end up clear.
- **Aggregation.** `CheckPuzzle` returns the initial flags ANDed with
  "no checked unit has an empty cell" and "no checked unit repeats a
  symbol". When 3N <= 999 these are exactly `Complete` and `Consistent`,
  the Sudoku rules on the whole grid.
- **Thread cap.** When 3N > 999 the anchor loop stops after 333 indices k
  (999 tasks). `UncheckedCorner` shows a grid whose only empty cell is
  (N, N): no started task finds an empty cell, yet the grid is not
  complete.

Facts about the code that the model keeps as they are:

- The box scan walks each box column by column: `rowN` advances fastest
  (sudoku.c:244-249).
- Boxes are numbered down the first band of columns, then down the next.
- `rowCheck` scans a column and `colCheck` a row, the reverse of their
  names.
- The aggregate covers only the tasks the capped anchor loop starts, not
  every unit.

## Model

| member | source | states |
|---|---|---|
| Grid.HasRepeatSnoc | sudoku.c:189-193 | The definitional step that `Visit` uses: reading one more cell creates a repeat exactly when that cell is a non-zero symbol already read. |
| Grid.HasRepeatIff | sudoku.c:189-193 | A unit repeats a symbol exactly when two different positions hold the same non-zero value. |
| Grid.SqrtBounds | sudoku.c:50 | The integer root is the floor of the square root: Sqrt(n)^2 <= n < (Sqrt(n)+1)^2. |
| Grid.SqrtOfSquare | sudoku.c:236 | On a perfect square r*r the root is exactly r, so `(int) sqrt` gives the box side. |
| Grid.CountersCount | sudoku.c:54-59 | After k steps the counter pair has counted k: (colN - 1) full columns of r plus rowN, with rowN in 1..r once k > 0. |
| Grid.CountersInBlock | sudoku.c:243-249 | The first r*r steps keep both counters in 1..r. |
| Grid.CountersInjective | sudoku.c:243-249 | Different step counts give different counter pairs. |
| Grid.CountersDivMod | sudoku.c:54-59 | After m + 1 steps the counters are (m % r + 1, m / r + 1). |
| Grid.CountersAt | sudoku.c:54-59 | Every pair (x, y) with x in 1..r is reached after (y - 1) * r + x steps. |
| Grid.BoxCellAt | sudoku.c:250 | The cell the box scan's counters name after m + 1 steps lies in the grid and is the m-th cell of the box. |
| Scan.Params.constructor | sudoku.c:18-25 | A task record holds its anchor, grid and size, with both flags starting true. |
| Scan.NewSeen | sudoku.c:182-185 | The "seen" table has N + 1 entries, all false. |
| Scan.Visit | sudoku.c:187-193 | One cell: 0 clears `comp`, an unseen symbol is marked seen, a seen one clears `val`; the scan state then describes the cells read plus this one. |
| Scan.RowCheck | sudoku.c:179-203 | Scans column `col`: `comp` is cleared iff the column has a 0, `val` iff it repeats a symbol, and the result is false iff both end up cleared. |
| Scan.ColCheck | sudoku.c:206-230 | Scans row `row` with the same three facts over the row's cells. |
| Scan.NextBoxCell | sudoku.c:244-250 | The counter step moves to the counters after m + 1 steps and reads the next box cell, extending the prefix of the box read so far. |
| Scan.BoxStep | sudoku.c:243-256 | One pass of the box loop advances the counters and extends the scan state by one box cell. |
| Scan.SqrCheck | sudoku.c:233-266 | Scans the r x r box at the anchor: `comp` is cleared iff the box has a 0, `val` iff it repeats a symbol, and the result is false iff both end up cleared. |
| Puzzle.AnchorInGrid | sudoku.c:77-78 | Every box anchor the loop computes for k < N keeps the whole box inside rows and columns 1..N. |
| Puzzle.AnchorBands | sudoku.c:77-78 | Task k's box anchor is ((k % r) * r, (k / r) * r). |
| Puzzle.AnchorOfBand | sudoku.c:53-59 | Every pair of bands (a, b) is the anchor of task b * r + a, so every box is checked. |
| Puzzle.AnchorInjective | sudoku.c:53-59 | Two tasks with the same anchor are the same task, so no box is checked twice. |
| Puzzle.BoxSlot | sudoku.c:250 | Every cell read by box task k lies in the grid, in the row band and column band of that box. |
| Puzzle.BoxSlotInjective | sudoku.c:243-250 | A box scan never reads the same cell twice. |
| Puzzle.BoxSlotOf | sudoku.c:243-250 | Every grid cell is read by the box task of its bands, at a position the lemma names. |
| Puzzle.ThreadCellsWithin | sudoku.c:189 | In a grid of values 0..N every unit's values index the "seen" table. |
| Puzzle.RunColumnTask | sudoku.c:60-67 | The task of slot 3k is a fresh record with row 0, col = k + 1, the grid and N, and once run holds the verdict on that column. |
| Puzzle.RunRowTask | sudoku.c:68-75 | The task of slot 3k + 1 is a fresh record with row = k + 1, col 0, the grid and N, and holds the verdict on that row. |
| Puzzle.RunBoxTask | sudoku.c:76-83 | The task of slot 3k + 2 is a fresh record with box k's anchor as (row, col), the grid and N, and holds the verdict on that box. |
| Puzzle.AdvanceCounters | sudoku.c:54-61 | The anchor loop's counter step gives unit index k + 1 (as computed on lines 61 and 70) and box anchor (BoxTop, BoxLeft) of task k (lines 77-78). |
| Puzzle.StartTask | sudoku.c:54-84 | One pass starts the three tasks of task k in slot order, each holding the verdict on its slot's unit. |
| Puzzle.StartTasks | sudoku.c:50-85 | The anchor loop starts 3 * min(N, 333) tasks, task t holding the verdict on the unit of slot t. |
| Puzzle.JoinTasks | sudoku.c:86-100 | The join loop yields the initial flags ANDed with every task's flags; the early stop does not change the result. |
| Puzzle.CheckPuzzle | sudoku.c:45-105 | `complete` and `valid` are the initial values ANDed with "no checked unit is incomplete / repeats"; when 3N <= 999 they are exactly `Complete` and `Consistent`. |
| Puzzle.CompleteCoverage | sudoku.c:53-85 | The 3N tasks find no empty cell exactly when the grid has none. |
| Puzzle.ColumnsCoverage | sudoku.c:186-193 | No column scan finds a repeat exactly when no two cells of a column clash. |
| Puzzle.RowsCoverage | sudoku.c:213-220 | No row scan finds a repeat exactly when no two cells of a row clash. |
| Puzzle.BoxClashIsRepeat | sudoku.c:243-256 | Two clashing cells of one box are a repeat in the scan of box task k = (column band) * r + (row band) of those cells. |
| Puzzle.RepeatIsBoxClash | sudoku.c:243-256 | A repeat in box task k's scan is a clash between two different grid cells, both in the row band and column band of task k's anchor. |
| Puzzle.BoxesCoverage | sudoku.c:76-83 | No box scan finds a repeat exactly when no two cells of a box clash. |
| Puzzle.ConsistentCoverage | sudoku.c:53-85 | The 3N tasks find no repeat exactly when no row, column or box repeats a symbol. |
| Puzzle.CapBelowLastBand | sudoku.c:53 | When 3N > 999 the loop runs for exactly 333 indices k (999 tasks), and 333 + r <= N, so box indices in the last column band are never reached. |
| Puzzle.UncheckedCorner | sudoku.c:27 | When 3N > 999 a grid whose only empty cell is (N, N) has no empty cell in any started task's unit, although it is not complete. |

## Left out

- Threads: `pthread_create`, `pthread_join` and `pthread_cancel`, the `pthreads` and `attribs` arrays and the `pthread_num` counter are not modelled. Tasks run as calls in slot order, each to completion. The tasks share only the grid, which nothing writes, so the order does not matter.
- Puzzle.JoinTasks: the cancellation of the tasks still running after the early stop is not modelled, because in the model every task has already finished.
- The `malloc`/`free` of the task, thread and attribute arrays are not modelled. The tasks are a `seq<Params>`; the loop uses at most 999 of the 3996 slots allocated.
- Floating-point `sqrt` becomes the integer floor root `Sqrt`. `StartTasks`, `CheckPuzzle` and `SqrCheck` require N to be a perfect square: for other sizes the boxes do not tile the grid, and the C code reads outside it (N = 5 reads column 6).
- Cell values must lie in 0..N (`InRange`, `Within`): the C code indexes `nums` with the cell value unchecked.
- The grid (`int **`) is an immutable `seq<seq<int>>`. The core never writes it, so the tasks share it as a value.
- C `int` is modelled as unbounded integers. `(colNum - 1) * proot` and `(rowNum - 1) * proot` (sudoku.c:61, 70, 77-78) stay below N; `psize * 3` (sudoku.c:53) overflows only for N > INT_MAX / 3, far beyond any grid that could be allocated.
- The `(void *)` cast of each scanner's `bool` result is not modelled. The result is a `bool`, which `checkPuzzle` ignores, as its `pthread_join(..., NULL)` does.
- `main` is not modelled; it passes `complete = valid = true`. `CheckPuzzle` takes both initial values as parameters.
- `readSudokuPuzzle`, `printSudokuPuzzle`, `deleteSudokuPuzzle` and `main` are file and terminal I/O.
- The global `completeV` (sudoku.c:31) is never read or assigned by the core.
- `sudoku.c` contains no solver: `solved` (sudoku.c:32) is never assigned and `main` only prints it.
