/** The checker's driver, `checkPuzzle`: it starts one column, one row and
    one box task per index k, then joins the tasks in order and folds their
    flags into the caller's `complete` and `valid`. Threads are modelled as
    calls made in task order; each task writes only its own record and
    reads the grid, which nothing changes while the tasks run. */
module Puzzle {
  import opened Grid
  import opened Scan

  /** The cap on thread slots the anchor loop may use. */
  const MAX_PTHREAD: nat := 999

  /** How many task triples the anchor loop starts for puzzle size n: it
      steps i = 0, 3, 6, ... while i < 3 * n and i < MAX_PTHREAD. */
  function TaskCount(n: nat): nat
  {
    var cap := (MAX_PTHREAD + 2) / 3;
    if n <= cap then n else cap
  }

  // ---------------------------------------------------------------------
  // Box anchors

  /** Anchor row of box k: the anchor loop's rowNum after k + 1 steps,
      less one, times root. */
  function BoxTop(root: nat, k: nat): nat
    requires root > 0
  {
    CountersCount(root, k + 1);
    Mul(Counters(root, k + 1).0 - 1, root)
  }

  /** Anchor column of box k: colNum after k + 1 steps, less one, times root. */
  function BoxLeft(root: nat, k: nat): nat
    requires root > 0
  {
    CountersCount(root, k + 1);
    Mul(Counters(root, k + 1).1 - 1, root)
  }

  /** Every box the checker starts lies inside rows and columns 1..n. */
  lemma {:induction false} AnchorInGrid(n: nat, root: nat, k: nat)
    requires n == Mul(root, root) && k < n
    ensures root > 0 && BoxInGrid(n, root, BoxTop(root, k), BoxLeft(root, k))
  {
    CountersInBlock(root, k);
    var c := Counters(root, k + 1);
    MulMonotone(c.0, root, root);
    MulMonotone(c.1, root, root);
  }

  /** Box k lies in row band k % root and column band k / root: boxes are
      numbered down the first column of boxes, then down the second, ... */
  lemma {:induction false} AnchorBands(root: nat, k: nat)
    requires root > 0
    ensures BoxTop(root, k) == (k % root) * root && BoxLeft(root, k) == (k / root) * root
  {
    CountersDivMod(root, k);
    MulIsProduct(k % root, root);
    MulIsProduct(k / root, root);
  }

  /** Every pair of bands (a, b) is the anchor of a task: box
      k = b * root + a. */
  lemma {:induction false} AnchorOfBand(n: nat, root: nat, a: nat, b: nat) returns (k: nat)
    requires n == Mul(root, root) && a < root && b < root
    ensures k < n && k == Mul(b, root) + a
    ensures BoxTop(root, k) == Mul(a, root) && BoxLeft(root, k) == Mul(b, root)
  {
    k := Mul(b, root) + a;
    MulMonotone(b + 1, root, root);
    CountersAt(root, a + 1, b + 1);
  }

  /** No two tasks check the same box. */
  lemma {:induction false} AnchorInjective(n: nat, root: nat, k1: nat, k2: nat)
    requires n == Mul(root, root) && k1 < n && k2 < n
    requires BoxTop(root, k1) == BoxTop(root, k2) && BoxLeft(root, k1) == BoxLeft(root, k2)
    ensures k1 == k2
  {
    CountersInBlock(root, k1);
    CountersInBlock(root, k2);
    var c1, c2 := Counters(root, k1 + 1), Counters(root, k2 + 1);
    MulInjective(c1.0 - 1, c2.0 - 1, root);
    MulInjective(c1.1 - 1, c2.1 - 1, root);
    if k1 != k2 {
      CountersInjective(root, k1 + 1, k2 + 1);
    }
  }

  /** Row and column of the m-th cell read by box task k. */
  function SlotRow(root: nat, k: nat, m: nat): int
    requires root > 0
  {
    BoxTop(root, k) + Counters(root, m + 1).0
  }

  function SlotCol(root: nat, k: nat, m: nat): int
    requires root > 0
  {
    BoxLeft(root, k) + Counters(root, m + 1).1
  }

  /** The cells read by box task k lie in the grid, in the row band and
      the column band of the box. */
  lemma {:induction false} BoxSlot(n: nat, root: nat, k: nat, m: nat)
    requires n == Mul(root, root) && k < n && m < n
    ensures root > 0
    ensures var i, j := SlotRow(root, k, m), SlotCol(root, k, m);
            1 <= i <= n && 1 <= j <= n &&
            Band(root, i) == Counters(root, k + 1).0 - 1 && Band(root, j) == Counters(root, k + 1).1 - 1
  {
    AnchorInGrid(n, root, k);
    CountersInBlock(root, k);
    CountersInBlock(root, m);
    var c, d := Counters(root, k + 1), Counters(root, m + 1);
    BandOf(root, c.0 - 1, d.0);
    BandOf(root, c.1 - 1, d.1);
  }

  /** Different positions of one box scan read different cells. */
  lemma {:induction false} BoxSlotInjective(root: nat, k: nat, a: nat, b: nat)
    requires root > 0 && a != b
    ensures SlotRow(root, k, a) != SlotRow(root, k, b) || SlotCol(root, k, a) != SlotCol(root, k, b)
  {
    CountersInjective(root, a + 1, b + 1);
  }

  /** Every cell (i, j) of the grid is read by the box task k of its
      bands, at the position m given here. */
  lemma {:induction false} BoxSlotOf(n: nat, root: nat, i: int, j: int) returns (k: nat, m: nat)
    requires n == Mul(root, root) && 1 <= i <= n && 1 <= j <= n
    ensures root > 0 && k < n && m < n
    ensures k == Mul(Band(root, j), root) + Band(root, i)
    ensures SlotRow(root, k, m) == i && SlotCol(root, k, m) == j
  {
    BandBelow(n, root, i);
    BandBelow(n, root, j);
    var a, b := Band(root, i), Band(root, j);
    k := AnchorOfBand(n, root, a, b);
    BandSplit(root, i);
    BandSplit(root, j);
    var x, y := i - Mul(a, root), j - Mul(b, root);
    m := Mul(y - 1, root) + x - 1;
    MulMonotone(y, root, root);
    CountersAt(root, x, y);
  }

  // ---------------------------------------------------------------------
  // The units of the tasks

  /** The cells read by thread slot t: slot 3k scans column k + 1, slot
      3k + 1 scans row k + 1, slot 3k + 2 scans box k. */
  function ThreadCells(g: seq<seq<int>>, n: nat, root: nat, t: nat): seq<int>
    requires Shaped(g, n) && n == Mul(root, root) && t < 3 * n
  {
    var k := t / 3;
    if t % 3 == 0 then ColumnCells(g, n, k + 1)
    else if t % 3 == 1 then RowCells(g, n, k + 1)
    else BoxUnit(g, n, root, k)
  }

  /** The cells box task k reads: the box anchored at (BoxTop, BoxLeft). */
  function BoxUnit(g: seq<seq<int>>, n: nat, root: nat, k: nat): seq<int>
    requires Shaped(g, n) && n == Mul(root, root) && k < n
  {
    AnchorInGrid(n, root, k);
    BoxCells(g, n, root, BoxTop(root, k), BoxLeft(root, k))
  }

  /** Every unit of an in-range grid can index the scanners' tables. */
  lemma {:induction false} ThreadCellsWithin(g: seq<seq<int>>, n: nat, root: nat, t: nat)
    requires Shaped(g, n) && n == Mul(root, root) && t < 3 * n && InRange(g, n)
    ensures Within(ThreadCells(g, n, root, t), n)
  {
    var k := t / 3;
    if t % 3 == 2 {
      forall m | 0 <= m < n
        ensures 0 <= ThreadCells(g, n, root, t)[m] <= n
      {
        AnchorInGrid(n, root, k);
        CountersInBlock(root, m);
      }
    }
  }

  /** None of the units scanned by the first `slots` thread slots has an
      empty cell. */
  predicate SlotsComplete(g: seq<seq<int>>, n: nat, root: nat, slots: nat)
    requires Shaped(g, n) && n == Mul(root, root) && slots <= 3 * n
  {
    forall t :: 0 <= t < slots ==> 0 !in ThreadCells(g, n, root, t)
  }

  /** None of the units scanned by the first `slots` thread slots repeats
      a symbol. */
  predicate SlotsValid(g: seq<seq<int>>, n: nat, root: nat, slots: nat)
    requires Shaped(g, n) && n == Mul(root, root) && slots <= 3 * n
  {
    forall t :: 0 <= t < slots ==> !HasRepeat(ThreadCells(g, n, root, t))
  }

  // ---------------------------------------------------------------------
  // The driver

  /** A finished task holds the verdict on the cells s of its unit:
      `comp` exactly when no cell is empty, `val` exactly when no symbol
      repeats. */
  ghost predicate Verdict(p: Params, s: seq<int>)
    reads p
  {
    p.comp == (0 !in s) && p.val == !HasRepeat(s)
  }

  /** Fills in and runs the column task of slot 3k (unit index k + 1). */
  method RunColumnTask(grid: seq<seq<int>>, psize: nat, ghost proot: nat, ghost k: nat, unit: int)
    returns (task: Params)
    requires Shaped(grid, psize) && InRange(grid, psize) && psize == Mul(proot, proot)
    requires k < psize && unit == k + 1
    ensures fresh(task) && task.table == grid && task.size == psize
    ensures task.row == 0 && task.col == unit
    ensures Verdict(task, ThreadCells(grid, psize, proot, 3 * k))
  {
    SlotIsColumn(grid, psize, proot, k);
    ThreadCellsWithin(grid, psize, proot, 3 * k);
    task := new Params(0, unit, grid, psize);
    var _ := RowCheck(task);
  }

  /** Fills in and runs the row task of slot 3k + 1 (unit index k + 1). */
  method RunRowTask(grid: seq<seq<int>>, psize: nat, ghost proot: nat, ghost k: nat, unit: int)
    returns (task: Params)
    requires Shaped(grid, psize) && InRange(grid, psize) && psize == Mul(proot, proot)
    requires k < psize && unit == k + 1
    ensures fresh(task) && task.table == grid && task.size == psize
    ensures task.row == unit && task.col == 0
    ensures Verdict(task, ThreadCells(grid, psize, proot, 3 * k + 1))
  {
    SlotIsRow(grid, psize, proot, k);
    ThreadCellsWithin(grid, psize, proot, 3 * k + 1);
    task := new Params(unit, 0, grid, psize);
    var _ := ColCheck(task);
  }

  /** Fills in and runs the box task of slot 3k + 2 (anchor (top, left)). */
  method RunBoxTask(grid: seq<seq<int>>, psize: nat, proot: nat, ghost k: nat, top: int, left: int)
    returns (task: Params)
    requires Shaped(grid, psize) && InRange(grid, psize) && psize == Mul(proot, proot)
    requires k < psize && top == BoxTop(proot, k) && left == BoxLeft(proot, k)
    ensures fresh(task) && task.table == grid && task.size == psize
    ensures task.row == top && task.col == left
    ensures Verdict(task, ThreadCells(grid, psize, proot, 3 * k + 2))
  {
    SqrtOfSquare(proot);
    AnchorInGrid(psize, proot, k);
    SlotIsBox(grid, psize, proot, k);
    ThreadCellsWithin(grid, psize, proot, 3 * k + 2);
    task := new Params(top, left, grid, psize);
    var _ := SqrCheck(task);
  }

  /** Task t of `data` holds the verdict on the unit of thread slot t, for
      every t. */
  ghost predicate SlotVerdicts(g: seq<seq<int>>, n: nat, root: nat, data: seq<Params>)
    requires Shaped(g, n) && n == Mul(root, root) && |data| <= 3 * n
    reads set p | p in data
  {
    forall t :: 0 <= t < |data| ==> Verdict(data[t], ThreadCells(g, n, root, t))
  }

  /** Appending the task of the next slot, holding the verdict on its
      unit, keeps SlotVerdicts. */
  lemma {:induction false} SlotVerdictsSnoc(g: seq<seq<int>>, n: nat, root: nat, data: seq<Params>, p: Params)
    requires Shaped(g, n) && n == Mul(root, root) && |data| < 3 * n
    requires SlotVerdicts(g, n, root, data)
    requires Verdict(p, ThreadCells(g, n, root, |data|))
    ensures SlotVerdicts(g, n, root, data + [p])
  {
    var next := data + [p];
    forall t | 0 <= t < |next|
      ensures Verdict(next[t], ThreadCells(g, n, root, t))
    {
      if t < |data| {
        assert next[t] == data[t];
      }
    }
  }

  /** The same for the column, row and box tasks of one pass. */
  lemma {:induction false} SlotVerdictsTriple(g: seq<seq<int>>, n: nat, root: nat, data: seq<Params>, c: Params, r: Params, b: Params)
    requires Shaped(g, n) && n == Mul(root, root) && |data| + 3 <= 3 * n
    requires SlotVerdicts(g, n, root, data)
    requires Verdict(c, ThreadCells(g, n, root, |data|))
    requires Verdict(r, ThreadCells(g, n, root, |data| + 1))
    requires Verdict(b, ThreadCells(g, n, root, |data| + 2))
    ensures SlotVerdicts(g, n, root, data + [c, r, b])
  {
    SlotVerdictsSnoc(g, n, root, data, c);
    SlotVerdictsSnoc(g, n, root, data + [c], r);
    SlotVerdictsSnoc(g, n, root, data + [c] + [r], b);
    assert data + [c] + [r] + [b] == data + [c, r, b];
  }

  /** The counter step at the head of the anchor loop's body for task k,
      and the unit index and box anchor the body computes from the new
      counters. */
  method AdvanceCounters(proot: nat, ghost k: nat, rowNum: int, colNum: int)
    returns (nextRow: int, nextCol: int, unit: int, top: int, left: int)
    requires 0 < proot && (rowNum, colNum) == Counters(proot, k)
    ensures (nextRow, nextCol) == Counters(proot, k + 1)
    ensures unit == k + 1 && top == BoxTop(proot, k) && left == BoxLeft(proot, k)
  {
    nextRow, nextCol := rowNum, colNum;
    if nextRow >= proot {
      nextCol := nextCol + 1;
      nextRow := 1;
    } else {
      nextRow := nextRow + 1;
    }
    CountersCount(proot, k + 1);
    MulIsProduct(nextRow - 1, proot);
    MulIsProduct(nextCol - 1, proot);
    unit := ((nextCol - 1) * proot) + nextRow;
    top, left := (nextRow - 1) * proot, (nextCol - 1) * proot;
  }

  /** One pass of the anchor loop for task k: step the counters, work out
      the unit index and the box anchor from them, start the column, row
      and box tasks of slots 3k, 3k + 1 and 3k + 2 in this order and store
      them after the tasks started so far. */
  method StartTask(grid: seq<seq<int>>, psize: nat, proot: nat, ghost k: nat, rowNum: int, colNum: int, data: seq<Params>)
    returns (nextRow: int, nextCol: int, next: seq<Params>)
    requires Shaped(grid, psize) && InRange(grid, psize) && psize == Mul(proot, proot)
    requires k < psize && (rowNum, colNum) == Counters(proot, k)
    requires |data| == 3 * k && SlotVerdicts(grid, psize, proot, data)
    ensures (nextRow, nextCol) == Counters(proot, k + 1)
    ensures |next| == |data| + 3
    ensures SlotVerdicts(grid, psize, proot, next)
  {
    var unit, top, left;
    nextRow, nextCol, unit, top, left := AdvanceCounters(proot, k, rowNum, colNum);
    var colTask := RunColumnTask(grid, psize, proot, k, unit);
    var rowTask := RunRowTask(grid, psize, proot, k, unit);
    var boxTask := RunBoxTask(grid, psize, proot, k, top, left);
    next := data + [colTask, rowTask, boxTask];
    SlotVerdictsTriple(grid, psize, proot, data, colTask, rowTask, boxTask);
  }

  /** The anchor loop: task k (for k below TaskCount(psize)) gets thread
      slots 3k, 3k + 1 and 3k + 2, the counters rowNum and colNum giving
      its unit index and its box anchor. */
  method StartTasks(psize: nat, grid: seq<seq<int>>) returns (data: seq<Params>)
    requires Shaped(grid, psize) && InRange(grid, psize) && IsSquare(psize)
    ensures |data| == 3 * TaskCount(psize)
    ensures SlotVerdicts(grid, psize, Sqrt(psize), data)
  {
    var proot := Sqrt(psize);
    data := [];
    var rowNum := 0;
    var colNum := 1;
    var i := 0;
    ghost var k := 0;
    while i < psize * 3 && i < MAX_PTHREAD
      invariant i == 3 * k && k <= TaskCount(psize) && |data| == i
      invariant (rowNum, colNum) == Counters(proot, k)
      invariant SlotVerdicts(grid, psize, proot, data)
    {
      rowNum, colNum, data := StartTask(grid, psize, proot, k, rowNum, colNum, data);
      i := i + 3;
      k := k + 1;
    }
  }

  /** The join loop: folds the flags of each task, in slot order, into
      complete and valid, and stops early once both are false (the other
      tasks are then cancelled). The result is the conjunction over every
      task all the same. */
  method JoinTasks(data: seq<Params>, complete0: bool, valid0: bool) returns (complete: bool, valid: bool)
    ensures complete == (complete0 && forall t :: 0 <= t < |data| ==> data[t].comp)
    ensures valid == (valid0 && forall t :: 0 <= t < |data| ==> data[t].val)
  {
    complete, valid := complete0, valid0;
    var i := 0;
    while i < |data|
      invariant 0 <= i <= |data|
      invariant complete == (complete0 && forall t :: 0 <= t < i ==> data[t].comp)
      invariant valid == (valid0 && forall t :: 0 <= t < i ==> data[t].val)
    {
      if !complete && !valid {
        break;
      }
      if !data[i].comp {
        complete := false;
      }
      if !data[i].val {
        valid := false;
      }
      i := i + 1;
    }
  }

  /** The flags of tasks holding the verdicts of their slots are all true
      exactly when no slot's unit has an empty cell, resp. a repeat. */
  lemma {:induction false} JoinVerdicts(g: seq<seq<int>>, n: nat, root: nat, data: seq<Params>)
    requires Shaped(g, n) && n == Mul(root, root) && |data| <= 3 * n
    requires SlotVerdicts(g, n, root, data)
    ensures (forall t :: 0 <= t < |data| ==> data[t].comp) == SlotsComplete(g, n, root, |data|)
    ensures (forall t :: 0 <= t < |data| ==> data[t].val) == SlotsValid(g, n, root, |data|)
  {
  }

  /** Runs every task and folds the flags of every task into the caller's
      values: `complete` stays true exactly when no checked unit has an
      empty cell, `valid` exactly when no checked unit repeats a symbol.
      Stopping the join once both are false gives the same result. When
      all 3 * psize slots fit under MAX_PTHREAD these are exactly the
      Sudoku rules on the whole grid. */
  method CheckPuzzle(psize: nat, grid: seq<seq<int>>, complete0: bool, valid0: bool)
    returns (complete: bool, valid: bool)
    requires Shaped(grid, psize) && InRange(grid, psize) && IsSquare(psize)
    ensures complete == (complete0 && SlotsComplete(grid, psize, Sqrt(psize), 3 * TaskCount(psize)))
    ensures valid == (valid0 && SlotsValid(grid, psize, Sqrt(psize), 3 * TaskCount(psize)))
    ensures 3 * psize <= MAX_PTHREAD ==> complete == (complete0 && Complete(grid, psize))
    ensures 3 * psize <= MAX_PTHREAD ==> valid == (valid0 && Consistent(grid, psize, Sqrt(psize)))
  {
    var data := StartTasks(psize, grid);
    JoinVerdicts(grid, psize, Sqrt(psize), data);
    complete, valid := JoinTasks(data, complete0, valid0);
    if 3 * psize <= MAX_PTHREAD {
      CompleteCoverage(grid, psize, Sqrt(psize));
      ConsistentCoverage(grid, psize, Sqrt(psize));
    }
  }

  // ---------------------------------------------------------------------
  // Coverage: the checked units decide the Sudoku rules

  /** In a grid without empty cells no box task's unit holds 0. */
  lemma {:induction false} CompleteBox(g: seq<seq<int>>, n: nat, root: nat, k: nat)
    requires Shaped(g, n) && n == Mul(root, root) && k < n && Complete(g, n)
    ensures 0 !in BoxUnit(g, n, root, k)
  {
    AnchorInGrid(n, root, k);
    forall m | 0 <= m < n
      ensures BoxUnit(g, n, root, k)[m] != 0
    {
      CountersInBlock(root, m);
    }
  }

  /** In a grid without empty cells no slot's unit holds 0. */
  lemma {:induction false} CompleteSlots(g: seq<seq<int>>, n: nat, root: nat)
    requires Shaped(g, n) && n == Mul(root, root) && Complete(g, n)
    ensures SlotsComplete(g, n, root, 3 * n)
  {
    forall t | 0 <= t < 3 * n
      ensures 0 !in ThreadCells(g, n, root, t)
    {
      var k := t / 3;
      if t % 3 == 0 {
        SlotIsColumn(g, n, root, k);
      } else if t % 3 == 1 {
        SlotIsRow(g, n, root, k);
      } else {
        SlotIsBox(g, n, root, k);
        CompleteBox(g, n, root, k);
      }
    }
  }

  /** An empty cell (i, j) is seen by the task of column j. */
  lemma {:induction false} EmptyInColumnSlot(g: seq<seq<int>>, n: nat, root: nat, i: int, j: int)
    requires Shaped(g, n) && n == Mul(root, root)
    requires 1 <= i <= n && 1 <= j <= n && g[i][j] == 0
    ensures 0 in ThreadCells(g, n, root, 3 * (j - 1))
  {
    SlotIsColumn(g, n, root, j - 1);
    assert ColumnCells(g, n, j)[i - 1] == 0;
  }

  /** The tasks find an empty cell exactly when the grid has one. */
  lemma {:induction false} CompleteCoverage(g: seq<seq<int>>, n: nat, root: nat)
    requires Shaped(g, n) && n == Mul(root, root)
    ensures SlotsComplete(g, n, root, 3 * n) <==> Complete(g, n)
  {
    if Complete(g, n) {
      CompleteSlots(g, n, root);
    } else {
      var i, j :| 1 <= i <= n && 1 <= j <= n && g[i][j] == 0;
      EmptyInColumnSlot(g, n, root, i, j);
    }
  }

  /** No column repeats a symbol. */
  predicate ColumnsValid(g: seq<seq<int>>, n: nat)
    requires Shaped(g, n)
  {
    forall c :: 1 <= c <= n ==> !HasRepeat(ColumnCells(g, n, c))
  }

  /** No row repeats a symbol. */
  predicate RowsValid(g: seq<seq<int>>, n: nat)
    requires Shaped(g, n)
  {
    forall r :: 1 <= r <= n ==> !HasRepeat(RowCells(g, n, r))
  }

  /** No box task's unit repeats a symbol. */
  predicate BoxesValid(g: seq<seq<int>>, n: nat, root: nat)
    requires Shaped(g, n) && n == Mul(root, root)
  {
    forall k :: 0 <= k < n ==> !HasRepeat(BoxUnit(g, n, root, k))
  }

  /** No column repeats a symbol exactly when no two cells of one column clash. */
  lemma {:induction false} ColumnsCoverage(g: seq<seq<int>>, n: nat)
    requires Shaped(g, n)
    ensures ColumnsValid(g, n) <==> NoColumnClash(g, n)
  {
    if ColumnsValid(g, n) {
      forall i1, i2, j | 1 <= i1 < i2 <= n && 1 <= j <= n && g[i1][j] != 0
        ensures g[i1][j] != g[i2][j]
      {
        var s := ColumnCells(g, n, j);
        if g[i1][j] == g[i2][j] {
          RepeatAt(s, i1 - 1, i2 - 1);
        }
      }
    }
    if NoColumnClash(g, n) {
      forall c | 1 <= c <= n
        ensures !HasRepeat(ColumnCells(g, n, c))
      {
        var s := ColumnCells(g, n, c);
        if HasRepeat(s) {
          var a, b := RepeatWitness(s);
          assert false;
        }
      }
    }
  }

  /** No row repeats a symbol exactly when no two cells of one row clash. */
  lemma {:induction false} RowsCoverage(g: seq<seq<int>>, n: nat)
    requires Shaped(g, n)
    ensures RowsValid(g, n) <==> NoRowClash(g, n)
  {
    if RowsValid(g, n) {
      forall i, j1, j2 | 1 <= i <= n && 1 <= j1 < j2 <= n && g[i][j1] != 0
        ensures g[i][j1] != g[i][j2]
      {
        var s := RowCells(g, n, i);
        if g[i][j1] == g[i][j2] {
          RepeatAt(s, j1 - 1, j2 - 1);
        }
      }
    }
    if NoRowClash(g, n) {
      forall r | 1 <= r <= n
        ensures !HasRepeat(RowCells(g, n, r))
      {
        var s := RowCells(g, n, r);
        if HasRepeat(s) {
          var a, b := RepeatWitness(s);
          assert false;
        }
      }
    }
  }

  /** A clash inside a box is a repeat in the scan of that box: box task k,
      where k is named by the bands of the clashing cells. */
  lemma {:induction false} BoxClashIsRepeat(g: seq<seq<int>>, n: nat, root: nat, i1: int, j1: int, i2: int, j2: int)
    returns (k: nat)
    requires Shaped(g, n) && n == Mul(root, root)
    requires 1 <= i1 <= n && 1 <= j1 <= n && 1 <= i2 <= n && 1 <= j2 <= n
    requires (i1 != i2 || j1 != j2) && SameBox(root, i1, j1, i2, j2)
    requires g[i1][j1] != 0 && g[i1][j1] == g[i2][j2]
    ensures root > 0 && k < n && k == Mul(Band(root, j1), root) + Band(root, i1)
    ensures HasRepeat(BoxUnit(g, n, root, k))
  {
    var k1, m1 := BoxSlotOf(n, root, i1, j1);
    k := k1;
    var k2, m2 := BoxSlotOf(n, root, i2, j2);
    AnchorInGrid(n, root, k1);
    var s := BoxUnit(g, n, root, k1);
    assert s[m1] == g[i1][j1];
    assert s[m2] == g[i2][j2];
    RepeatAt(s, m1, m2);
  }

  /** A repeat in the scan of box k is a clash between two different cells
      (i1, j1) and (i2, j2) of box k: both lie in the row band and the column
      band of task k's anchor. */
  lemma {:induction false} RepeatIsBoxClash(g: seq<seq<int>>, n: nat, root: nat, k: nat)
    returns (i1: int, j1: int, i2: int, j2: int)
    requires Shaped(g, n) && n == Mul(root, root) && k < n
    requires HasRepeat(BoxUnit(g, n, root, k))
    ensures root > 0
    ensures 1 <= i1 <= n && 1 <= j1 <= n && 1 <= i2 <= n && 1 <= j2 <= n
    ensures i1 != i2 || j1 != j2
    ensures Band(root, i1) == Band(root, i2) == Counters(root, k + 1).0 - 1
    ensures Band(root, j1) == Band(root, j2) == Counters(root, k + 1).1 - 1
    ensures g[i1][j1] != 0 && g[i1][j1] == g[i2][j2]
    ensures !NoBoxClash(g, n, root)
  {
    AnchorInGrid(n, root, k);
    var s := BoxUnit(g, n, root, k);
    var a, b := RepeatWitness(s);
    BoxSlot(n, root, k, a);
    BoxSlot(n, root, k, b);
    BoxSlotInjective(root, k, a, b);
    i1, j1 := SlotRow(root, k, a), SlotCol(root, k, a);
    i2, j2 := SlotRow(root, k, b), SlotCol(root, k, b);
    assert SameBox(root, i1, j1, i2, j2);
    assert s[a] == g[i1][j1] && s[b] == g[i2][j2];
  }

  /** No box task finds a repeat exactly when no two cells of one box clash. */
  lemma {:induction false} BoxesCoverage(g: seq<seq<int>>, n: nat, root: nat)
    requires Shaped(g, n) && n == Mul(root, root)
    ensures BoxesValid(g, n, root) <==> NoBoxClash(g, n, root)
  {
    if BoxesValid(g, n, root) {
      forall i1, j1, i2, j2 |
        1 <= i1 <= n && 1 <= j1 <= n && 1 <= i2 <= n && 1 <= j2 <= n &&
        (i1 != i2 || j1 != j2) && SameBox(root, i1, j1, i2, j2) && g[i1][j1] != 0
        ensures g[i1][j1] != g[i2][j2]
      {
        if g[i1][j1] == g[i2][j2] {
          var k := BoxClashIsRepeat(g, n, root, i1, j1, i2, j2);
        }
      }
    }
    if NoBoxClash(g, n, root) {
      forall k | 0 <= k < n
        ensures !HasRepeat(BoxUnit(g, n, root, k))
      {
        if HasRepeat(BoxUnit(g, n, root, k)) {
          var i1, j1, i2, j2 := RepeatIsBoxClash(g, n, root, k);
        }
      }
    }
  }

  /** Slot 3k scans column k + 1. */
  lemma {:induction false} SlotIsColumn(g: seq<seq<int>>, n: nat, root: nat, k: nat)
    requires Shaped(g, n) && n == Mul(root, root) && k < n
    ensures ThreadCells(g, n, root, 3 * k) == ColumnCells(g, n, k + 1)
  {
    assert (3 * k) / 3 == k && (3 * k) % 3 == 0;
  }

  /** Slot 3k + 1 scans row k + 1. */
  lemma {:induction false} SlotIsRow(g: seq<seq<int>>, n: nat, root: nat, k: nat)
    requires Shaped(g, n) && n == Mul(root, root) && k < n
    ensures ThreadCells(g, n, root, 3 * k + 1) == RowCells(g, n, k + 1)
  {
    assert (3 * k + 1) / 3 == k && (3 * k + 1) % 3 == 1;
  }

  /** Slot 3k + 2 scans box k. */
  lemma {:induction false} SlotIsBox(g: seq<seq<int>>, n: nat, root: nat, k: nat)
    requires Shaped(g, n) && n == Mul(root, root) && k < n
    ensures ThreadCells(g, n, root, 3 * k + 2) == BoxUnit(g, n, root, k)
  {
    assert (3 * k + 2) / 3 == k && (3 * k + 2) % 3 == 2;
  }

  /** If every slot's unit is free of repeats, so is every column. */
  lemma {:induction false} SlotsValidColumns(g: seq<seq<int>>, n: nat, root: nat)
    requires Shaped(g, n) && n == Mul(root, root) && SlotsValid(g, n, root, 3 * n)
    ensures ColumnsValid(g, n)
  {
    forall c | 1 <= c <= n
      ensures !HasRepeat(ColumnCells(g, n, c))
    {
      SlotIsColumn(g, n, root, c - 1);
    }
  }

  /** If every slot's unit is free of repeats, so is every row. */
  lemma {:induction false} SlotsValidRows(g: seq<seq<int>>, n: nat, root: nat)
    requires Shaped(g, n) && n == Mul(root, root) && SlotsValid(g, n, root, 3 * n)
    ensures RowsValid(g, n)
  {
    forall r | 1 <= r <= n
      ensures !HasRepeat(RowCells(g, n, r))
    {
      SlotIsRow(g, n, root, r - 1);
    }
  }

  /** If every slot's unit is free of repeats, so is every box. */
  lemma {:induction false} SlotsValidBoxes(g: seq<seq<int>>, n: nat, root: nat)
    requires Shaped(g, n) && n == Mul(root, root) && SlotsValid(g, n, root, 3 * n)
    ensures BoxesValid(g, n, root)
  {
    forall k | 0 <= k < n
      ensures !HasRepeat(BoxUnit(g, n, root, k))
    {
      SlotIsBox(g, n, root, k);
    }
  }

  /** Conversely, repeat-free columns, rows and boxes make every slot's
      unit repeat-free. */
  lemma {:induction false} ValidSlots(g: seq<seq<int>>, n: nat, root: nat)
    requires Shaped(g, n) && n == Mul(root, root)
    requires ColumnsValid(g, n) && RowsValid(g, n) && BoxesValid(g, n, root)
    ensures SlotsValid(g, n, root, 3 * n)
  {
    forall t | 0 <= t < 3 * n
      ensures !HasRepeat(ThreadCells(g, n, root, t))
    {
      var k := t / 3;
      if t % 3 == 0 {
        SlotIsColumn(g, n, root, k);
      } else if t % 3 == 1 {
        SlotIsRow(g, n, root, k);
      } else {
        SlotIsBox(g, n, root, k);
      }
    }
  }

  /** The tasks find a repeat exactly when the grid breaks a Sudoku rule. */
  lemma {:induction false} ConsistentCoverage(g: seq<seq<int>>, n: nat, root: nat)
    requires Shaped(g, n) && n == Mul(root, root)
    ensures SlotsValid(g, n, root, 3 * n) <==> Consistent(g, n, root)
  {
    ColumnsCoverage(g, n);
    RowsCoverage(g, n);
    BoxesCoverage(g, n, root);
    if SlotsValid(g, n, root, 3 * n) {
      SlotsValidColumns(g, n, root);
      SlotsValidRows(g, n, root);
      SlotsValidBoxes(g, n, root);
    }
    if Consistent(g, n, root) {
      ValidSlots(g, n, root);
    }
  }

  // ---------------------------------------------------------------------
  // The thread cap: puzzles with more than MAX_PTHREAD / 3 units

  /** Above the cap the anchor loop starts 333 tasks, and their indices
      stay below the last band of root columns. */
  lemma {:induction false} CapBelowLastBand(n: nat, root: nat)
    requires n == Mul(root, root) && MAX_PTHREAD < 3 * n
    ensures root > 0 && TaskCount(n) == 333 && TaskCount(n) + root <= n
  {
    if root <= 18 {
      SquareMonotone(root, 18);
      MulIsProduct(18, 18);
      assert false;
    }
    MulMonotone(18, root - 1, root);
    MulMonotoneRight(18, 19, root);
    MulIsProduct(18, 19);
  }

  /** A box task k with k + root < n reads no cell of column n. */
  lemma {:induction false} BoxLeftOfLastBand(n: nat, root: nat, k: nat, m: nat)
    requires n == Mul(root, root) && k + root < n && m < n
    ensures root > 0 && SlotCol(root, k, m) < n
  {
    BoxSlot(n, root, k, m);
    CountersCount(root, k + 1);
    var c := Counters(root, k + 1);
    if c.1 >= root {
      MulMonotone(root - 1, c.1 - 1, root);
      assert false;
    }
    BandOf(root, root - 1, root);
  }

  /** The box task k with k + root < n sees no empty cell when the only
      empty cell of the grid is (n, n). */
  lemma {:induction false} BoxMissesCorner(g: seq<seq<int>>, n: nat, root: nat, k: nat)
    requires Shaped(g, n) && n == Mul(root, root) && k + root < n
    requires forall i, j :: 1 <= i <= n && 1 <= j <= n && (i < n || j < n) ==> g[i][j] != 0
    ensures 0 !in BoxUnit(g, n, root, k)
  {
    AnchorInGrid(n, root, k);
    forall m | 0 <= m < n
      ensures BoxUnit(g, n, root, k)[m] != 0
    {
      BoxSlot(n, root, k, m);
      BoxLeftOfLastBand(n, root, k, m);
      assert BoxUnit(g, n, root, k)[m] == g[SlotRow(root, k, m)][SlotCol(root, k, m)];
    }
  }

  /** When 3 * n exceeds MAX_PTHREAD the checked units miss cell (n, n):
      a grid whose only empty cell is (n, n) passes every started task, so
      CheckPuzzle leaves `complete` as it was although the grid is not
      complete. */
  lemma {:induction false} UncheckedCorner(g: seq<seq<int>>, n: nat, root: nat)
    requires Shaped(g, n) && n == Mul(root, root) && MAX_PTHREAD < 3 * n
    requires g[n][n] == 0
    requires forall i, j :: 1 <= i <= n && 1 <= j <= n && (i < n || j < n) ==> g[i][j] != 0
    ensures SlotsComplete(g, n, root, 3 * TaskCount(n)) && !Complete(g, n)
  {
    CapBelowLastBand(n, root);
    forall t | 0 <= t < 3 * TaskCount(n)
      ensures 0 !in ThreadCells(g, n, root, t)
    {
      var k := t / 3;
      if t % 3 == 0 {
        SlotIsColumn(g, n, root, k);
      } else if t % 3 == 1 {
        SlotIsRow(g, n, root, k);
      } else {
        SlotIsBox(g, n, root, k);
        BoxMissesCorner(g, n, root, k);
      }
    }
  }
}
