// Value-level specification of dense real matrices shared by the two matrix
// classes: a matrix's entries are a sequence of rows. Entries are reals;
// IEEE rounding, infinities and NaN are not part of this model.

module Grids {

  type Grid = seq<seq<real>>

  /** g has m rows of n entries each. */
  predicate IsShape(g: Grid, m: int, n: int)
  {
    |g| == m && forall i :: 0 <= i < |g| ==> |g[i]| == n
  }

  /** The m-by-n grid whose (i, j) entry is f(i, j). */
  function Tabulate(m: nat, n: nat, f: (int, int) -> real): (g: Grid)
    ensures IsShape(g, m, n)
    ensures forall i, j :: 0 <= i < m && 0 <= j < n ==> g[i][j] == f(i, j)
  {
    seq(m, i requires 0 <= i < m => seq(n, j requires 0 <= j < n => f(i, j)))
  }

  /** The n-by-m transpose of an m-by-n grid. */
  function Transposed(g: Grid, m: nat, n: nat): (t: Grid)
    requires IsShape(g, m, n)
    ensures IsShape(t, n, m)
    ensures forall j, i :: 0 <= j < n && 0 <= i < m ==> t[j][i] == g[i][j]
  {
    seq(n, j requires 0 <= j < n => seq(m, i requires 0 <= i < m => g[i][j]))
  }

  /** 1.0 where i == j, 0.0 elsewhere. */
  function IdentityGrid(m: nat, n: nat): (g: Grid)
    ensures IsShape(g, m, n)
    ensures forall i, j :: 0 <= i < m && 0 <= j < n ==> g[i][j] == if i == j then 1.0 else 0.0
  {
    seq(m, i requires 0 <= i < m => seq(n, j requires 0 <= j < n => if i == j then 1.0 else 0.0))
  }

  function ConstantGrid(m: nat, n: nat, c: real): (g: Grid)
    ensures IsShape(g, m, n)
    ensures forall i, j :: 0 <= i < m && 0 <= j < n ==> g[i][j] == c
  {
    seq(m, i requires 0 <= i < m => seq(n, j requires 0 <= j < n => c))
  }

  /** The square grid with v on the diagonal and 0.0 elsewhere. */
  function DiagGrid(v: seq<real>): (g: Grid)
    ensures IsShape(g, |v|, |v|)
    ensures forall i, j :: 0 <= i < |v| && 0 <= j < |v| ==> g[i][j] == if i == j then v[i] else 0.0
  {
    seq(|v|, i requires 0 <= i < |v| => seq(|v|, j requires 0 <= j < |v| => if i == j then v[i] else 0.0))
  }

  /** Entry-wise binary operations. */
  datatype BinOp = Add | Sub | Mul

  function ApplyBin(op: BinOp, a: real, b: real): real
  {
    match op
    case Add => a + b
    case Sub => a - b
    case Mul => a * b
  }

  /** The entry-wise combination of two m-by-n grids. */
  function Zip(g: Grid, h: Grid, m: nat, n: nat, op: BinOp): (r: Grid)
    requires IsShape(g, m, n) && IsShape(h, m, n)
    ensures IsShape(r, m, n)
    ensures forall i, j :: 0 <= i < m && 0 <= j < n ==> r[i][j] == ApplyBin(op, g[i][j], h[i][j])
  {
    seq(m, i requires 0 <= i < m => seq(n, j requires 0 <= j < n => ApplyBin(op, g[i][j], h[i][j])))
  }

  /** Entry-wise operations with a scalar. */
  datatype ScalarOp = Negate | ScaleBy(s: real) | Shift(a: real)

  function ApplyScalar(op: ScalarOp, x: real): real
  {
    match op
    case Negate => -x
    case ScaleBy(s) => s * x
    case Shift(a) => x + a
  }

  function MapGrid(g: Grid, m: nat, n: nat, op: ScalarOp): (r: Grid)
    requires IsShape(g, m, n)
    ensures IsShape(r, m, n)
    ensures forall i, j :: 0 <= i < m && 0 <= j < n ==> r[i][j] == ApplyScalar(op, g[i][j])
  {
    seq(m, i requires 0 <= i < m => seq(n, j requires 0 <= j < n => ApplyScalar(op, g[i][j])))
  }

  /** g[i][0]*h[0][j] + ... + g[i][k-1]*h[k-1][j], summed left to right. */
  function Dot(g: Grid, h: Grid, i: int, j: int, k: nat): real
    requires 0 <= i < |g| && k <= |g[i]| && k <= |h|
    requires 0 <= j && forall t :: 0 <= t < k ==> j < |h[t]|
  {
    if k == 0 then 0.0
    else
      Dot(g, h, i, j, k - 1) + g[i][k - 1] * h[k - 1][j]
  }

  /** The m-by-n product of an m-by-p grid and a p-by-n grid. */
  function Product(g: Grid, h: Grid, m: nat, p: nat, n: nat): (r: Grid)
    requires IsShape(g, m, p) && IsShape(h, p, n)
    ensures IsShape(r, m, n)
    ensures forall i, j :: 0 <= i < m && 0 <= j < n ==> r[i][j] == Dot(g, h, i, j, p)
  {
    seq(m, i requires 0 <= i < m => seq(n, j requires 0 <= j < n => Dot(g, h, i, j, p)))
  }

  /** g[0][0] + ... + g[k-1][k-1]. */
  function DiagSum(g: Grid, k: nat): real
    requires k <= |g| && forall t :: 0 <= t < k ==> t < |g[t]|
  {
    if k == 0 then 0.0 else DiagSum(g, k - 1) + g[k - 1][k - 1]
  }

  /** i0, i0+1, ..., i1 (empty when i1 < i0). */
  function Range(i0: int, i1: int): (r: seq<int>)
    ensures |r| == if i1 < i0 then 0 else i1 - i0 + 1
    ensures forall a :: 0 <= a < |r| ==> r[a] == i0 + a
  {
    if i1 < i0 then [] else seq(i1 - i0 + 1, a requires 0 <= a <= i1 - i0 => i0 + a)
  }

  /** Every index of `idx` lies in [0, bound). */
  predicate AllIn(idx: seq<int>, bound: int)
  {
    forall a :: 0 <= a < |idx| ==> 0 <= idx[a] < bound
  }

  /** Every (rows[a], cols[b]) pair indexes an m-by-n grid. */
  predicate SubIndicesOk(rows: seq<int>, cols: seq<int>, m: int, n: int)
  {
    |rows| == 0 || |cols| == 0 || (AllIn(rows, m) && AllIn(cols, n))
  }

  /** x has an entry for every (a, b) with a < |rows| and b < |cols|. */
  predicate Covers(x: Grid, nRows: int, nCols: int)
  {
    nRows == 0 || nCols == 0 || (0 <= nRows <= |x| && forall a :: 0 <= a < nRows ==> nCols <= |x[a]|)
  }

  /** The last position below k at which x occurs in s, or -1 when there is none. */
  function LastAt(s: seq<int>, x: int, k: int): (r: int)
    requires 0 <= k <= |s|
    ensures -1 <= r < k
    ensures r >= 0 ==> s[r] == x && forall a :: r < a < k ==> s[a] != x
    ensures r < 0 ==> forall a :: 0 <= a < k ==> s[a] != x
    decreases k
  {
    if k == 0 then -1 else if s[k - 1] == x then k - 1 else LastAt(s, x, k - 1)
  }

  /**
   * The entry at (i, j) once x[a][b] has been written at (rows[a], cols[b])
   * for every a < ka and every b, in row-major order: the last write to a
   * position wins, and a position no write reaches keeps g's entry.
   */
  function WrittenAt(g: Grid, rows: seq<int>, cols: seq<int>, x: Grid, ka: int, i: int, j: int): real
    requires 0 <= i < |g| && 0 <= j < |g[i]| && 0 <= ka <= |rows| && Covers(x, ka, |cols|)
  {
    var a, b := LastAt(rows, i, ka), LastAt(cols, j, |cols|);
    if a >= 0 && b >= 0 then x[a][b] else g[i][j]
  }

  /**
   * The entry at (i, j) while row a is being written: the rows before a are
   * done, and row a has been written at the columns cols[..kb].
   */
  function RowPartlyWritten(g: Grid, rows: seq<int>, cols: seq<int>, x: Grid, a: int, kb: int, i: int, j: int): real
    requires 0 <= i < |g| && 0 <= j < |g[i]| && 0 <= a < |rows| && 0 <= kb <= |cols| && Covers(x, a, |cols|)
    requires kb == 0 || (a < |x| && kb <= |x[a]|)
  {
    var b := LastAt(cols, j, kb);
    if i == rows[a] && b >= 0 then x[a][b] else WrittenAt(g, rows, cols, x, a, i, j)
  }

  /** Writing x[a][kb] at (rows[a], cols[kb]) advances the row by one column. */
  lemma RowWriteStep(g: Grid, rows: seq<int>, cols: seq<int>, x: Grid, a: int, kb: int, i: int, j: int)
    requires 0 <= i < |g| && 0 <= j < |g[i]| && 0 <= a < |rows| && 0 <= kb < |cols| && Covers(x, a, |cols|)
    requires a < |x| && kb < |x[a]|
    ensures RowPartlyWritten(g, rows, cols, x, a, kb + 1, i, j) ==
      if i == rows[a] && j == cols[kb] then x[a][kb] else RowPartlyWritten(g, rows, cols, x, a, kb, i, j)
  {
  }

  /** A row written at every column is the next row count of WrittenAt. */
  lemma RowWriteDone(g: Grid, rows: seq<int>, cols: seq<int>, x: Grid, a: int, i: int, j: int)
    requires 0 <= i < |g| && 0 <= j < |g[i]| && 0 <= a < |rows| && Covers(x, a + 1, |cols|)
    ensures Covers(x, a, |cols|)
    ensures RowPartlyWritten(g, rows, cols, x, a, |cols|, i, j) == WrittenAt(g, rows, cols, x, a + 1, i, j)
  {
  }

  /** A position outside the target rows and columns keeps g's entry. */
  lemma RowWriteUntouched(g: Grid, rows: seq<int>, cols: seq<int>, x: Grid, a: int, kb: int, i: int, j: int)
    requires 0 <= i < |g| && 0 <= j < |g[i]| && 0 <= a < |rows| && 0 <= kb <= |cols| && Covers(x, a, |cols|)
    requires kb == 0 || (a < |x| && kb <= |x[a]|)
    requires !(i in rows && j in cols)
    ensures RowPartlyWritten(g, rows, cols, x, a, kb, i, j) == g[i][j]
  {
  }

  /** g after writing x over the rows `rows` and columns `cols`. */
  function Overwritten(g: Grid, rows: seq<int>, cols: seq<int>, x: Grid, m: nat, n: nat): (r: Grid)
    requires IsShape(g, m, n) && Covers(x, |rows|, |cols|)
    ensures IsShape(r, m, n)
    ensures forall i, j :: 0 <= i < m && 0 <= j < n ==> r[i][j] == WrittenAt(g, rows, cols, x, |rows|, i, j)
  {
    seq(m, i requires 0 <= i < m => seq(n, j requires 0 <= j < n => WrittenAt(g, rows, cols, x, |rows|, i, j)))
  }

  /**
   * The rows `rows` and columns `cols` of g, in the order listed. When either
   * list is empty no entry is read, so the other list is unconstrained.
   */
  function Select(g: Grid, rows: seq<int>, cols: seq<int>, m: nat, n: nat): (r: Grid)
    requires IsShape(g, m, n) && SubIndicesOk(rows, cols, m, n)
    ensures IsShape(r, |rows|, |cols|)
    ensures forall a, b :: 0 <= a < |rows| && 0 <= b < |cols| ==> r[a][b] == g[rows[a]][cols[b]]
  {
    seq(|rows|, a requires 0 <= a < |rows| => seq(|cols|, b requires 0 <= b < |cols| => g[rows[a]][cols[b]]))
  }

  /** Two m-by-n grids with the same entries are equal. */
  lemma SameEntries(g: Grid, h: Grid, m: nat, n: nat)
    requires IsShape(g, m, n) && IsShape(h, m, n)
    requires forall i, j :: 0 <= i < m && 0 <= j < n ==> g[i][j] == h[i][j]
    ensures g == h
  {
    forall i | 0 <= i < m
      ensures g[i] == h[i]
    {
    }
  }

  // ---------------------------------------------------------------------
  // Properties

  /** Transposing twice gives back the grid. */
  lemma TransposeInvolution(g: Grid, m: nat, n: nat)
    requires IsShape(g, m, n)
    ensures Transposed(Transposed(g, m, n), n, m) == g
  {
    var t := Transposed(Transposed(g, m, n), n, m);
    assert IsShape(t, m, n);
    forall i | 0 <= i < m
      ensures t[i] == g[i]
    {
      assert forall j :: 0 <= j < n ==> t[i][j] == g[i][j];
    }
  }

  /** Addition is commutative: A + B and B + A have the same entries. */
  lemma ZipAddCommutes(g: Grid, h: Grid, m: nat, n: nat)
    requires IsShape(g, m, n) && IsShape(h, m, n)
    ensures Zip(g, h, m, n, Add) == Zip(h, g, m, n, Add)
  {
    var l := Zip(g, h, m, n, Add);
    var r := Zip(h, g, m, n, Add);
    forall i | 0 <= i < m
      ensures l[i] == r[i]
    {
      assert forall j :: 0 <= j < n ==> l[i][j] == r[i][j];
    }
  }

  /** -A + B is B - A. */
  lemma NegatePlusIsReverseMinus(g: Grid, h: Grid, m: nat, n: nat)
    requires IsShape(g, m, n) && IsShape(h, m, n)
    ensures Zip(MapGrid(g, m, n, ScaleBy(-1.0)), h, m, n, Add) == Zip(h, g, m, n, Sub)
  {
    var l := Zip(MapGrid(g, m, n, ScaleBy(-1.0)), h, m, n, Add);
    var r := Zip(h, g, m, n, Sub);
    forall i | 0 <= i < m
      ensures l[i] == r[i]
    {
      assert forall j :: 0 <= j < n ==> l[i][j] == r[i][j];
    }
  }

  /** Negating twice gives back the grid. */
  lemma NegateTwice(g: Grid, m: nat, n: nat)
    requires IsShape(g, m, n)
    ensures MapGrid(MapGrid(g, m, n, ScaleBy(-1.0)), m, n, ScaleBy(-1.0)) == g
  {
    var t := MapGrid(MapGrid(g, m, n, ScaleBy(-1.0)), m, n, ScaleBy(-1.0));
    forall i | 0 <= i < m
      ensures t[i] == g[i]
    {
      assert forall j :: 0 <= j < n ==> t[i][j] == g[i][j];
    }
  }

  /** Against an identity factor, a dot product picks out one entry. */
  lemma {:induction false} DotWithIdentity(g: Grid, i: int, j: int, k: nat, p: nat)
    requires 0 <= i < |g| && k <= p && |g[i]| == p && 0 <= j < p
    ensures Dot(g, IdentityGrid(p, p), i, j, k) == if j < k then g[i][j] else 0.0
    decreases k
  {
    if k > 0 {
      DotWithIdentity(g, i, j, k - 1, p);
    }
  }

  /** The identity is a right unit of the product. */
  lemma ProductWithIdentity(g: Grid, m: nat, p: nat)
    requires IsShape(g, m, p)
    ensures Product(g, IdentityGrid(p, p), m, p, p) == g
  {
    var r := Product(g, IdentityGrid(p, p), m, p, p);
    forall i | 0 <= i < m
      ensures r[i] == g[i]
    {
      forall j | 0 <= j < p
        ensures r[i][j] == g[i][j]
      {
        DotWithIdentity(g, i, j, p, p);
      }
    }
  }

  /** A grid and its transpose have the same diagonal sum. */
  lemma {:induction false} DiagSumOfTranspose(g: Grid, m: nat, n: nat, k: nat)
    requires IsShape(g, m, n) && k <= m && k <= n
    ensures DiagSum(Transposed(g, m, n), k) == DiagSum(g, k)
    decreases k
  {
    if k > 0 {
      DiagSumOfTranspose(g, m, n, k - 1);
    }
  }

  /** The diagonal sum of an m-by-n identity over min(m, n) is min(m, n). */
  lemma {:induction false} DiagSumOfIdentity(m: nat, n: nat, k: nat)
    requires k <= m && k <= n
    ensures DiagSum(IdentityGrid(m, n), k) == k as real
    decreases k
  {
    if k > 0 {
      DiagSumOfIdentity(m, n, k - 1);
    }
  }

  /** In a sequence without repeats, the last occurrence of s[a] is a itself. */
  lemma LastOfDistinct(s: seq<int>, a: int)
    requires 0 <= a < |s|
    requires forall p, q :: 0 <= p < q < |s| ==> s[p] != s[q]
    ensures LastAt(s, s[a], |s|) == a
  {
  }

  /** Range(i0, i1) has no repeats and holds exactly the integers from i0 to i1. */
  lemma RangeMembers(i0: int, i1: int, i: int)
    ensures i in Range(i0, i1) <==> i0 <= i <= i1
    ensures i0 <= i <= i1 ==> LastAt(Range(i0, i1), i, |Range(i0, i1)|) == i - i0
  {
    var r := Range(i0, i1);
    if i0 <= i <= i1 {
      assert r[i - i0] == i;
      LastOfDistinct(r, i - i0);
    }
  }

  /**
   * Writing x over a rectangle: setMatrix(i0, i1, j0, j1, X) puts X[i-i0][j-j0]
   * at every (i, j) of the rectangle and leaves every other entry unchanged.
   */
  lemma OverwriteRectangle(g: Grid, x: Grid, m: nat, n: nat, i0: int, i1: int, j0: int, j1: int, i: int, j: int)
    requires IsShape(g, m, n) && Covers(x, |Range(i0, i1)|, |Range(j0, j1)|)
    requires 0 <= i < m && 0 <= j < n
    ensures Overwritten(g, Range(i0, i1), Range(j0, j1), x, m, n)[i][j] ==
      if i0 <= i <= i1 && j0 <= j <= j1 then x[i - i0][j - j0] else g[i][j]
  {
    RangeMembers(i0, i1, i);
    RangeMembers(j0, j1, j);
  }

  /**
   * Reading back what was written: after writing x (exactly |rows| by |cols|)
   * over index lists without repeats, selecting the same rows and columns
   * gives x.
   */
  lemma SelectAfterOverwrite(g: Grid, rows: seq<int>, cols: seq<int>, x: Grid, m: nat, n: nat)
    requires IsShape(g, m, n) && IsShape(x, |rows|, |cols|)
    requires AllIn(rows, m) && AllIn(cols, n)
    requires forall p, q :: 0 <= p < q < |rows| ==> rows[p] != rows[q]
    requires forall p, q :: 0 <= p < q < |cols| ==> cols[p] != cols[q]
    ensures Select(Overwritten(g, rows, cols, x, m, n), rows, cols, m, n) == x
  {
    var w := Overwritten(g, rows, cols, x, m, n);
    var s := Select(w, rows, cols, m, n);
    forall a, b | 0 <= a < |rows| && 0 <= b < |cols|
      ensures s[a][b] == x[a][b]
    {
      LastOfDistinct(rows, a);
      LastOfDistinct(cols, b);
    }
    SameEntries(s, x, |rows|, |cols|);
  }

  /** A range of indices lies in [0, bound) exactly when it is empty or its ends do. */
  lemma RangeAllIn(i0: int, i1: int, bound: int)
    ensures AllIn(Range(i0, i1), bound) <==> i1 < i0 || (0 <= i0 && i1 < bound)
  {
    var r := Range(i0, i1);
    if i0 <= i1 && AllIn(r, bound) {
      assert r[0] == i0 && r[|r| - 1] == i1;
    }
  }

  /** Against a p-by-q grid, covering nRows by nCols is fitting inside p by q. */
  lemma CoversShape(x: Grid, p: nat, q: nat, nRows: nat, nCols: nat)
    requires IsShape(x, p, q)
    ensures Covers(x, nRows, nCols) <==> nRows == 0 || nCols == 0 || (nRows <= p && nCols <= q)
  {
    if nRows > 0 && nCols > 0 && nRows <= p {
      assert |x[0]| == q;
    }
  }
}
