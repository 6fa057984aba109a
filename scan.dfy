/** The three unit scanners of the checker. Each walks the n cells of one
    unit with a local "seen" table and clears the verdict flags of its task
    record: `comp` when it meets an empty cell, `val` when it meets a symbol
    it has already seen. */
module Scan {
  import opened Grid

  /** One check task (the `params` struct): the anchor of its unit, the
      shared grid, the puzzle size and the two verdict flags. */
  class Params {
    var row: int
    var col: int
    var table: seq<seq<int>>
    var size: int
    var comp: bool
    var val: bool

    /** A task as the checker fills it in: both flags start true. */
    constructor (row: int, col: int, table: seq<seq<int>>, size: int)
      ensures this.row == row && this.col == col
      ensures this.table == table && this.size == size
      ensures comp && val
    {
      this.row := row;
      this.col := col;
      this.table := table;
      this.size := size;
      comp := true;
      val := true;
    }
  }

  /** A fresh "seen" table for the symbols 0..size, all unseen. */
  method NewSeen(size: nat) returns (nums: array<bool>)
    ensures fresh(nums) && nums.Length == size + 1
    ensures forall v :: 0 <= v <= size ==> !nums[v]
  {
    nums := new bool[size + 1];
    var i := 0;
    while i < size + 1
      invariant 0 <= i <= size + 1
      invariant forall v :: 0 <= v < i ==> !nums[v]
    {
      nums[i] := false;
      i := i + 1;
    }
  }

  /** The flags and the "seen" table after reading the cells `read`, the
      flags having been comp0 and val0 before the scan. */
  ghost predicate ScanState(p: Params, nums: array<bool>, comp0: bool, val0: bool, read: seq<int>)
    reads p, nums
  {
    p.comp == (comp0 && 0 !in read) &&
    p.val == (val0 && !HasRepeat(read)) &&
    forall v :: 0 <= v < nums.Length ==> nums[v] == (v != 0 && v in read)
  }

  /** The body every scanner runs on one cell value x: an empty cell clears
      `comp`, an unseen symbol is marked seen, a seen one clears `val`. */
  method Visit(p: Params, nums: array<bool>, x: int, ghost comp0: bool, ghost val0: bool, ghost read: seq<int>)
    requires 0 <= x < nums.Length && ScanState(p, nums, comp0, val0, read)
    modifies p`comp, p`val, nums
    ensures ScanState(p, nums, comp0, val0, read + [x])
  {
    HasRepeatSnoc(read, x);
    if x == 0 {
      p.comp := false;
    } else if nums[x] == false {
      nums[x] := true;
    } else {
      p.val := false;
    }
  }

  /** Scans column `p.col` (the name says row, the cells are
      `table[i][col]`). Afterwards `comp` is cleared exactly when the column
      has an empty cell and `val` exactly when it repeats a symbol; the scan
      stops as soon as both are clear and answers false exactly then. */
  method RowCheck(p: Params) returns (ret: bool)
    requires 0 <= p.size && Shaped(p.table, p.size) && 1 <= p.col <= p.size
    requires Within(ColumnCells(p.table, p.size, p.col), p.size)
    modifies p`comp, p`val
    ensures p.comp == (old(p.comp) && 0 !in ColumnCells(p.table, p.size, p.col))
    ensures p.val == (old(p.val) && !HasRepeat(ColumnCells(p.table, p.size, p.col)))
    ensures ret == (p.comp || p.val)
  {
    ret := true;
    var nums := NewSeen(p.size);
    ghost var cells := ColumnCells(p.table, p.size, p.col);
    var i := 1;
    while i <= p.size
      invariant 1 <= i <= p.size + 1
      invariant ScanState(p, nums, old(p.comp), old(p.val), cells[..i - 1])
      invariant ret && (i > 1 ==> p.comp || p.val)
    {
      var x := p.table[i][p.col];
      PrefixSnoc(cells, i);
      assert cells[i - 1] == x;
      Visit(p, nums, x, old(p.comp), old(p.val), cells[..i - 1]);
      if !p.val && !p.comp {
        PrefixFacts(cells, i);
        ret := false;
        break;
      }
      i := i + 1;
    }
    assert i > p.size ==> cells[..i - 1] == cells;
  }

  /** Scans row `p.row` (the name says column, the cells are
      `table[row][i]`), with the same verdicts as RowCheck. */
  method ColCheck(p: Params) returns (ret: bool)
    requires 0 <= p.size && Shaped(p.table, p.size) && 1 <= p.row <= p.size
    requires Within(RowCells(p.table, p.size, p.row), p.size)
    modifies p`comp, p`val
    ensures p.comp == (old(p.comp) && 0 !in RowCells(p.table, p.size, p.row))
    ensures p.val == (old(p.val) && !HasRepeat(RowCells(p.table, p.size, p.row)))
    ensures ret == (p.comp || p.val)
  {
    ret := true;
    var nums := NewSeen(p.size);
    ghost var cells := RowCells(p.table, p.size, p.row);
    var i := 1;
    while i <= p.size
      invariant 1 <= i <= p.size + 1
      invariant ScanState(p, nums, old(p.comp), old(p.val), cells[..i - 1])
      invariant ret && (i > 1 ==> p.comp || p.val)
    {
      var x := p.table[p.row][i];
      PrefixSnoc(cells, i);
      assert cells[i - 1] == x;
      Visit(p, nums, x, old(p.comp), old(p.val), cells[..i - 1]);
      if !p.val && !p.comp {
        PrefixFacts(cells, i);
        ret := false;
        break;
      }
      i := i + 1;
    }
    assert i > p.size ==> cells[..i - 1] == cells;
  }

  /** One step of the box scan: the counters advance, rowN fastest, and
      name the next cell of the box, which is read. */
  method NextBoxCell(table: seq<seq<int>>, size: nat, proot: nat, row: int, col: int,
                     ghost m: nat, rowN: int, colN: int)
      returns (rowN': int, colN': int, x: int)
    requires Shaped(table, size) && size == Mul(proot, proot) && BoxInGrid(size, proot, row, col)
    requires Within(BoxCells(table, size, proot, row, col), size)
    requires m < size && (rowN, colN) == Counters(proot, m)
    ensures (rowN', colN') == Counters(proot, m + 1)
    ensures BoxCells(table, size, proot, row, col)[..m + 1] == BoxCells(table, size, proot, row, col)[..m] + [x]
    ensures 0 <= x <= size
  {
    if rowN >= proot {
      colN' := colN + 1;
      rowN' := 1;
    } else {
      rowN' := rowN + 1;
      colN' := colN;
    }
    BoxCellAt(table, size, proot, row, col, m, rowN', colN');
    x := table[rowN' + row][colN' + col];
    PrefixSnoc(BoxCells(table, size, proot, row, col), m + 1);
  }

  /** One pass of the box scan's loop: step to the next cell and visit it. */
  method BoxStep(p: Params, nums: array<bool>, proot: nat, ghost m: nat, rowN: int, colN: int,
                 ghost comp0: bool, ghost val0: bool)
      returns (rowN': int, colN': int)
    requires 0 <= p.size && Shaped(p.table, p.size) && p.size == Mul(proot, proot)
    requires BoxInGrid(p.size, proot, p.row, p.col)
    requires Within(BoxCells(p.table, p.size, proot, p.row, p.col), p.size)
    requires m < p.size && (rowN, colN) == Counters(proot, m)
    requires nums.Length == p.size + 1
    requires ScanState(p, nums, comp0, val0, BoxCells(p.table, p.size, proot, p.row, p.col)[..m])
    modifies p`comp, p`val, nums
    ensures (rowN', colN') == Counters(proot, m + 1)
    ensures ScanState(p, nums, comp0, val0, BoxCells(p.table, p.size, proot, p.row, p.col)[..m + 1])
  {
    var x;
    rowN', colN', x := NextBoxCell(p.table, p.size, proot, p.row, p.col, m, rowN, colN);
    Visit(p, nums, x, comp0, val0, BoxCells(p.table, p.size, proot, p.row, p.col)[..m]);
  }

  /** Scans the root x root box whose cells are (p.row + a, p.col + b) for
      1 <= a, b <= root, stepping the counters rowN (fastest) and colN; the
      verdicts are those of RowCheck, over BoxCells. */
  method SqrCheck(p: Params) returns (ret: bool)
    requires 0 <= p.size && Shaped(p.table, p.size) && IsSquare(p.size)
    requires BoxInGrid(p.size, Sqrt(p.size), p.row, p.col)
    requires Within(BoxCells(p.table, p.size, Sqrt(p.size), p.row, p.col), p.size)
    modifies p`comp, p`val
    ensures p.comp == (old(p.comp) && 0 !in BoxCells(p.table, p.size, Sqrt(p.size), p.row, p.col))
    ensures p.val == (old(p.val) && !HasRepeat(BoxCells(p.table, p.size, Sqrt(p.size), p.row, p.col)))
    ensures ret == (p.size == 0 || p.comp || p.val)
  {
    ret := true;
    var proot := Sqrt(p.size);
    var rowN := 0;
    var colN := 1;
    var nums := NewSeen(p.size);
    ghost var cells := BoxCells(p.table, p.size, proot, p.row, p.col);
    var i := 1;
    while i <= p.size
      invariant 1 <= i <= p.size + 1
      invariant (rowN, colN) == Counters(proot, i - 1)
      invariant ScanState(p, nums, old(p.comp), old(p.val), cells[..i - 1])
      invariant ret && (i > 1 ==> p.comp || p.val)
    {
      rowN, colN := BoxStep(p, nums, proot, i - 1, rowN, colN, old(p.comp), old(p.val));
      if !p.val && !p.comp {
        PrefixFacts(cells, i);
        ret := false;
        break;
      }
      i := i + 1;
    }
    assert i > p.size ==> cells[..i - 1] == cells;
  }
}
