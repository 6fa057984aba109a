/** The shared grid read by every check task, the cells each task reads in
    the order it reads them, and the Sudoku rules those reads decide. */
module Grid {

  /** A grid of size n is stored with rows and columns 0..n; row 0 and
      column 0 are never read, so (1, 1) is the top-left cell and (n, n)
      the bottom-right one. */
  predicate Shaped(g: seq<seq<int>>, n: nat)
  {
    |g| > n && forall i :: 1 <= i <= n ==> |g[i]| > n
  }

  /** Every cell holds 0 (empty) or a symbol 1..n. */
  predicate InRange(g: seq<seq<int>>, n: nat)
    requires Shaped(g, n)
  {
    forall i, j :: 1 <= i <= n && 1 <= j <= n ==> 0 <= g[i][j] <= n
  }

  /** Every value of a unit can index a "seen" table of n + 1 entries. */
  predicate Within(s: seq<int>, n: nat)
  {
    forall x :: x in s ==> 0 <= x <= n
  }

  /** Reading the values of s in order, some non-zero value is met a
      second time: either while reading all but the last value, or the last
      value is a symbol already read. */
  predicate HasRepeat(s: seq<int>)
  {
    if s == [] then false
    else HasRepeat(s[..|s| - 1]) || (s[|s| - 1] != 0 && s[|s| - 1] in s[..|s| - 1])
  }

  /** Reading one more cell creates a repeat exactly when that cell holds a
      symbol already read. */
  lemma {:induction false} HasRepeatSnoc(a: seq<int>, x: int)
    ensures HasRepeat(a + [x]) <==> HasRepeat(a) || (x != 0 && x in a)
  {
    assert (a + [x])[..|a|] == a;
  }

  /** HasRepeat holds exactly when some non-zero value occurs at two
      different positions. */
  lemma {:induction false} HasRepeatIff(s: seq<int>)
    ensures HasRepeat(s) <==> exists i, j :: 0 <= i < j < |s| && s[i] != 0 && s[i] == s[j]
  {
    if s != [] {
      var a, x := s[..|s| - 1], s[|s| - 1];
      assert s == a + [x];
      HasRepeatIff(a);
      if HasRepeat(s) {
        if HasRepeat(a) {
          var i, j :| 0 <= i < j < |a| && a[i] != 0 && a[i] == a[j];
          assert s[i] == s[j];
        } else {
          var i :| 0 <= i < |a| && a[i] == x;
          assert s[i] == s[|a|];
        }
      }
      if exists i, j :: 0 <= i < j < |s| && s[i] != 0 && s[i] == s[j] {
        var i, j :| 0 <= i < j < |s| && s[i] != 0 && s[i] == s[j];
        if j < |a| {
          assert a[i] == a[j];
        } else {
          assert a[i] == x;
        }
      }
    }
  }

  /** Two positions holding the same symbol make a repeat. */
  lemma {:induction false} RepeatAt(s: seq<int>, a: nat, b: nat)
    requires a < |s| && b < |s| && a != b && s[a] != 0 && s[a] == s[b]
    ensures HasRepeat(s)
  {
    HasRepeatIff(s);
    if b < a {
      assert s[b] == s[a];
    }
  }

  /** A repeat names two positions holding the same symbol. */
  lemma {:induction false} RepeatWitness(s: seq<int>) returns (a: nat, b: nat)
    requires HasRepeat(s)
    ensures a < b < |s| && s[a] != 0 && s[a] == s[b]
  {
    HasRepeatIff(s);
    a, b :| 0 <= a < b < |s| && s[a] != 0 && s[a] == s[b];
  }

  /** Reading one more value of s extends the prefix read so far by it. */
  lemma {:induction false} PrefixSnoc(s: seq<int>, i: nat)
    requires 0 < i <= |s|
    ensures s[..i] == s[..i - 1] + [s[i - 1]] && s[i - 1] in s
  {
  }

  /** A prefix never holds a repeat or a value its sequence lacks. */
  lemma {:induction false} PrefixFacts(s: seq<int>, k: nat)
    requires k <= |s|
    ensures HasRepeat(s[..k]) ==> HasRepeat(s)
    ensures forall x :: x in s[..k] ==> x in s
  {
    if HasRepeat(s[..k]) {
      HasRepeatIff(s[..k]);
      HasRepeatIff(s);
      var i, j :| 0 <= i < j < k && s[..k][i] != 0 && s[..k][i] == s[..k][j];
      assert s[i] == s[j];
    }
  }

  // ---------------------------------------------------------------------
  // Products, square roots and the (row, column) counters

  /** a * b as a repeated sum. Sizes and anchors are stated with Mul, so
      that what the model says about them stays in linear arithmetic;
      MulIsProduct relates Mul to `*`, which the checker's code uses. */
  function Mul(a: nat, b: nat): nat
  {
    if a == 0 then 0 else Mul(a - 1, b) + b
  }

  lemma {:induction false} MulIsProduct(a: nat, b: nat)
    ensures Mul(a, b) == a * b
  {
    if a > 0 {
      MulIsProduct(a - 1, b);
      assert (a - 1) * b + b == a * b;
    }
  }

  lemma {:induction false} MulMonotone(a: nat, c: nat, b: nat)
    requires a <= c
    ensures Mul(a, b) <= Mul(c, b)
  {
    if a < c {
      MulMonotone(a, c - 1, b);
    }
  }

  lemma {:induction false} MulSucc(a: nat, b: nat)
    ensures Mul(a, b + 1) == Mul(a, b) + a
  {
    if a > 0 {
      MulSucc(a - 1, b);
    }
  }

  lemma {:induction false} MulMonotoneRight(a: nat, b: nat, c: nat)
    requires b <= c
    ensures Mul(a, b) <= Mul(a, c)
  {
    if a > 0 {
      MulMonotoneRight(a - 1, b, c);
    }
  }

  /** The squares of consecutive numbers differ by 2s + 1. */
  lemma {:induction false} SquareStep(s: nat)
    ensures Mul(s + 1, s + 1) == Mul(s, s) + 2 * s + 1
  {
    MulSucc(s, s);
  }

  lemma {:induction false} SquareMonotone(a: nat, b: nat)
    requires a <= b
    ensures Mul(a, a) <= Mul(b, b)
  {
    MulMonotone(a, b, a);
    MulMonotoneRight(b, a, b);
  }

  /** The square root of n, rounded down (the checker's `(int) sqrt(psize)`;
      see SqrtBounds). */
  function Sqrt(n: nat): nat
  {
    if n == 0 then 0
    else
      var s := Sqrt(n - 1);
      if Mul(s + 1, s + 1) <= n then s + 1 else s
  }

  /** Sqrt(n) is the floor of the square root of n. */
  lemma {:induction false} SqrtBounds(n: nat)
    ensures Mul(Sqrt(n), Sqrt(n)) <= n < Mul(Sqrt(n) + 1, Sqrt(n) + 1)
  {
    if n > 0 {
      SqrtBounds(n - 1);
      var s := Sqrt(n - 1);
      if Mul(s + 1, s + 1) <= n {
        assert Sqrt(n) == s + 1;
        SquareStep(Sqrt(n));
      } else {
        assert Sqrt(n) == s;
      }
    }
  }

  /** n is the square of its root: the puzzle sizes the checker's boxes
      tile exactly. */
  predicate IsSquare(n: nat)
  {
    Mul(Sqrt(n), Sqrt(n)) == n
  }

  /** On a perfect square the root is exact, as the floating-point root of
      a perfect square is. */
  lemma {:induction false} SqrtOfSquare(r: nat)
    ensures Sqrt(Mul(r, r)) == r
    ensures IsSquare(Mul(r, r))
  {
    var n := Mul(r, r);
    SqrtBounds(n);
    var s := Sqrt(n);
    if s < r {
      SquareMonotone(s + 1, r);
    } else if s > r {
      SquareStep(r);
      SquareMonotone(r + 1, s);
    }
  }

  /** q * root + m splits back into the quotient q and the remainder m. */
  lemma {:induction false} DivModParts(q: int, m: int, root: int)
    requires root > 0 && 0 <= m < root
    ensures (q * root + m) / root == q && (q * root + m) % root == m
  {
    var x := q * root + m;
    var d := x / root - q;
    assert root * d == m - x % root;
    assert d == 0 by {
      if d >= 1 {
      } else if d <= -1 {
      }
    }
  }

  /** One step of a (row, column) counter pair over a root x root block:
      the row counter advances, and once it has reached root it wraps to 1
      while the column counter advances. The box scan steps (rowN, colN)
      so over the cells of a box, and the anchor loop steps (rowNum,
      colNum) so over the boxes of the grid. */
  function CounterStep(root: nat, c: (nat, nat)): (nat, nat)
  {
    if c.0 >= root then (1, c.1 + 1) else (c.0 + 1, c.1)
  }

  /** The counters after k steps from their initial value (0, 1). */
  function Counters(root: nat, k: nat): (nat, nat)
  {
    if k == 0 then (0, 1) else CounterStep(root, Counters(root, k - 1))
  }

  /** After k steps the counters have counted k: colN - 1 full columns of
      root and rowN more. */
  lemma {:induction false} CountersCount(root: nat, k: nat)
    requires root > 0
    ensures 1 <= Counters(root, k).1
    ensures Mul(Counters(root, k).1 - 1, root) + Counters(root, k).0 == k
    ensures Counters(root, k).0 <= root && (k > 0 ==> 1 <= Counters(root, k).0)
  {
    if k > 0 {
      CountersCount(root, k - 1);
    }
  }

  /** The first root * root steps stay inside the block: both counters
      lie in 1..root. */
  lemma {:induction false} CountersInBlock(root: nat, m: nat)
    requires m < Mul(root, root)
    ensures root > 0
    ensures 1 <= Counters(root, m + 1).0 <= root && 1 <= Counters(root, m + 1).1 <= root
  {
    CountersCount(root, m + 1);
    var c := Counters(root, m + 1);
    if c.1 > root {
      MulMonotone(root, c.1 - 1, root);
    }
  }

  /** Different steps give different counter values. */
  lemma {:induction false} CountersInjective(root: nat, a: nat, b: nat)
    requires root > 0 && a != b
    ensures Counters(root, a) != Counters(root, b)
  {
    CountersCount(root, a);
    CountersCount(root, b);
  }

  /** After m + 1 steps the row counter is m % root + 1 and the column
      counter m / root + 1: the row counter runs fastest. */
  lemma {:induction false} CountersDivMod(root: nat, m: nat)
    requires root > 0
    ensures Counters(root, m + 1) == (m % root + 1, m / root + 1)
  {
    CountersCount(root, m + 1);
    var c := Counters(root, m + 1);
    MulIsProduct(c.1 - 1, root);
    DivModParts(c.1 - 1, c.0 - 1, root);
  }

  /** After Mul(y - 1, root) + x steps, with x in 1..root, the counters
      are (x, y). */
  lemma {:induction false} CountersAt(root: nat, x: nat, y: nat)
    requires 1 <= x <= root && 1 <= y
    ensures Counters(root, Mul(y - 1, root) + x) == (x, y)
  {
    var k := Mul(y - 1, root) + x;
    CountersCount(root, k);
    var c := Counters(root, k);
    BandOf(root, c.1 - 1, c.0);
    BandOf(root, y - 1, x);
  }

  /** The band of a row (or column) i >= 1: rows 1..root form band 0,
      rows root + 1..2 * root band 1, and so on. */
  function Band(root: nat, i: int): nat
    requires root > 0
    decreases i
  {
    if i <= root then 0 else Band(root, i - root) + 1
  }

  /** The rows Mul(a, root) + 1 .. Mul(a, root) + root form band a. */
  lemma {:induction false} BandOf(root: nat, a: nat, x: int)
    requires 1 <= x <= root
    ensures Band(root, Mul(a, root) + x) == a
  {
    if a > 0 {
      BandOf(root, a - 1, x);
    }
  }

  /** Distinct multiples of root are distinct. */
  lemma {:induction false} MulInjective(a: nat, b: nat, root: nat)
    requires root > 0 && Mul(a, root) == Mul(b, root)
    ensures a == b
  {
    BandOf(root, a, 1);
    BandOf(root, b, 1);
  }

  /** Row i lies at offset 1..root in its band. */
  lemma {:induction false} BandSplit(root: nat, i: int)
    requires root > 0 && 1 <= i
    ensures 1 <= i - Mul(Band(root, i), root) <= root
    decreases i
  {
    if i > root {
      BandSplit(root, i - root);
    }
  }

  /** The rows 1..n of a grid of size n = root * root form root bands. */
  lemma {:induction false} BandBelow(n: nat, root: nat, i: int)
    requires n == Mul(root, root) && 1 <= i <= n
    ensures root > 0 && Band(root, i) < root
  {
    BandSplit(root, i);
    if Band(root, i) >= root {
      MulMonotone(root, Band(root, i), root);
    }
  }

  /** The band of row i is (i - 1) / root. */
  lemma {:induction false} BandIsDiv(root: nat, i: int)
    requires root > 0 && 1 <= i
    ensures Band(root, i) == (i - 1) / root
  {
    BandSplit(root, i);
    var b := Band(root, i);
    MulIsProduct(b, root);
    DivModParts(b, i - 1 - Mul(b, root), root);
  }

  // ---------------------------------------------------------------------
  // The cells of a unit, in scanning order

  /** Column c, top to bottom: the cells `rowCheck` reads. */
  function ColumnCells(g: seq<seq<int>>, n: nat, c: int): seq<int>
    requires Shaped(g, n) && 1 <= c <= n
  {
    seq(n, m requires 0 <= m < n => g[m + 1][c])
  }

  /** Row r, left to right: the cells `colCheck` reads. */
  function RowCells(g: seq<seq<int>>, n: nat, r: int): seq<int>
    requires Shaped(g, n) && 1 <= r <= n
  {
    seq(n, m requires 0 <= m < n => g[r][m + 1])
  }

  /** The box with anchor (top, left) lies inside rows and columns 1..n. */
  predicate BoxInGrid(n: nat, root: nat, top: int, left: int)
  {
    0 <= top && top + root <= n && 0 <= left && left + root <= n
  }

  /** The m-th cell `sqrCheck` reads in the box anchored at (top, left):
      the anchor plus the counters (rowN, colN) after m + 1 steps. */
  function BoxCell(g: seq<seq<int>>, n: nat, root: nat, top: int, left: int, m: nat): int
    requires Shaped(g, n) && n == Mul(root, root) && BoxInGrid(n, root, top, left)
    requires m < n
  {
    CountersInBlock(root, m);
    g[top + Counters(root, m + 1).0][left + Counters(root, m + 1).1]
  }

  /** The root x root box below and to the right of (top, left), read one
      column of the box after another. */
  function BoxCells(g: seq<seq<int>>, n: nat, root: nat, top: int, left: int): seq<int>
    requires Shaped(g, n) && n == Mul(root, root) && BoxInGrid(n, root, top, left)
  {
    seq(n, m requires 0 <= m < n => BoxCell(g, n, root, top, left, m))
  }

  /** When the box scan's counters (rowN, colN) have made m + 1 steps,
      the cell they name lies in the grid and is the m-th cell of the box. */
  lemma {:induction false} BoxCellAt(g: seq<seq<int>>, n: nat, root: nat, top: int, left: int,
                                     m: nat, rowN: int, colN: int)
    requires Shaped(g, n) && n == Mul(root, root) && BoxInGrid(n, root, top, left)
    requires m < n && (rowN, colN) == Counters(root, m + 1)
    ensures 1 <= top + rowN <= n && 1 <= left + colN <= n
    ensures BoxCells(g, n, root, top, left)[m] == g[top + rowN][left + colN]
  {
    CountersInBlock(root, m);
  }

  // ---------------------------------------------------------------------
  // The Sudoku rules, stated cell by cell

  /** No cell is empty. */
  predicate Complete(g: seq<seq<int>>, n: nat)
    requires Shaped(g, n)
  {
    forall i, j :: 1 <= i <= n && 1 <= j <= n ==> g[i][j] != 0
  }

  /** No two cells of one row hold the same symbol. */
  predicate NoRowClash(g: seq<seq<int>>, n: nat)
    requires Shaped(g, n)
  {
    forall i, j1, j2 :: 1 <= i <= n && 1 <= j1 < j2 <= n && g[i][j1] != 0 ==> g[i][j1] != g[i][j2]
  }

  /** No two cells of one column hold the same symbol. */
  predicate NoColumnClash(g: seq<seq<int>>, n: nat)
    requires Shaped(g, n)
  {
    forall i1, i2, j :: 1 <= i1 < i2 <= n && 1 <= j <= n && g[i1][j] != 0 ==> g[i1][j] != g[i2][j]
  }

  /** Cells (i1, j1) and (i2, j2) lie in the same box: their rows lie in
      the same band of root rows and their columns in the same band of
      root columns (see BandIsDiv). */
  predicate SameBox(root: nat, i1: int, j1: int, i2: int, j2: int)
    requires root > 0 && 1 <= i1 && 1 <= j1 && 1 <= i2 && 1 <= j2
  {
    Band(root, i1) == Band(root, i2) && Band(root, j1) == Band(root, j2)
  }

  /** No two different cells of one box hold the same symbol. */
  predicate NoBoxClash(g: seq<seq<int>>, n: nat, root: nat)
    requires Shaped(g, n) && n == Mul(root, root)
  {
    forall i1, j1, i2, j2 ::
      1 <= i1 <= n && 1 <= j1 <= n && 1 <= i2 <= n && 1 <= j2 <= n &&
      (i1 != i2 || j1 != j2) && SameBox(root, i1, j1, i2, j2) && g[i1][j1] != 0
      ==> g[i1][j1] != g[i2][j2]
  }

  /** Locally consistent: no symbol repeats in any row, column or box. */
  predicate Consistent(g: seq<seq<int>>, n: nat, root: nat)
    requires Shaped(g, n) && n == Mul(root, root)
  {
    NoRowClash(g, n) && NoColumnClash(g, n) && NoBoxClash(g, n, root)
  }
}
