// The dense matrix of the math library (`mathLib.matrix.Matrix`): an M-by-N
// matrix stored as an array of rows. Each row is a sequence value, so `swap`
// exchanges two rows the way the Java method exchanges two row references,
// and every other write replaces the one entry it updates.

module DenseMatrix {
  import opened Common
  import opened Grids

  /** `Math.abs` on a real. */
  function AbsReal(x: real): (r: real)
    ensures r >= 0.0 && (r == x || r == -x)
  {
    if x < 0.0 then -x else x
  }

  /** g with rows i and j exchanged. */
  function SwapRows(g: Grid, i: int, j: int): (r: Grid)
    requires 0 <= i < |g| && 0 <= j < |g|
    ensures |r| == |g| && r[i] == g[j] && r[j] == g[i]
    ensures forall k :: 0 <= k < |g| && k != i && k != j ==> r[k] == g[k]
  {
    g[i := g[j]][j := g[i]]
  }

  /** Column c of g, top to bottom. */
  function Column(g: Grid, c: int): (col: seq<real>)
    requires 0 <= c && forall i :: 0 <= i < |g| ==> c < |g[i]|
    ensures |col| == |g| && forall i :: 0 <= i < |g| ==> col[i] == g[i][c]
  {
    seq(|g|, i requires 0 <= i < |g| => g[i][c])
  }

  /** Every entry of g lies within tol of the matching entry of h. */
  predicate WithinTol(g: Grid, h: Grid, m: nat, n: nat, tol: real)
    requires IsShape(g, m, n) && IsShape(h, m, n)
  {
    forall i, j :: 0 <= i < m && 0 <= j < n ==> AbsReal(g[i][j] - h[i][j]) <= tol
  }

  // ---------------------------------------------------------------------
  // Properties of the specification functions
  // ---------------------------------------------------------------------

  /** Swapping the same two rows twice restores the matrix. */
  lemma {:induction false} SwapTwice(g: Grid, i: int, j: int)
    requires 0 <= i < |g| && 0 <= j < |g|
    ensures SwapRows(SwapRows(g, i, j), i, j) == g
  {
    var s := SwapRows(SwapRows(g, i, j), i, j);
    forall k | 0 <= k < |g|
      ensures s[k] == g[k]
    {
    }
  }

  /** A swap keeps the shape and only reorders the rows. */
  lemma SwapPermutes(g: Grid, m: nat, n: nat, i: int, j: int)
    requires IsShape(g, m, n) && 0 <= i < m && 0 <= j < m
    ensures IsShape(SwapRows(g, i, j), m, n)
    ensures multiset(SwapRows(g, i, j)) == multiset(g)
  {
    ExchangeKeepsMultiset(g, i, j);
  }

  /** Exchanging two entries of a sequence keeps its multiset. */
  lemma ExchangeKeepsMultiset<T>(s: seq<T>, i: int, j: int)
    requires 0 <= i < |s| && 0 <= j < |s|
    ensures multiset(s[i := s[j]][j := s[i]]) == multiset(s)
  {
    if i != j {
      var t := s[i := s[j]];
      assert multiset(t) == multiset(s) - multiset{s[i]} + multiset{s[j]};
      assert t[j] == s[j];
      assert s[i] in multiset(s);
    }
  }

  /** Column c of an m-by-n matrix is row c of its transpose. */
  lemma ColumnIsTransposedRow(g: Grid, m: nat, n: nat, c: int)
    requires IsShape(g, m, n) && 0 <= c < n
    ensures Column(g, c) == Transposed(g, m, n)[c]
  {
    var t := Transposed(g, m, n);
    assert |t[c]| == m;
    forall i | 0 <= i < m
      ensures Column(g, c)[i] == t[c][i]
    {
    }
  }

  /** Comparing with tolerance zero is exact comparison. */
  lemma ZeroTolIsEquality(g: Grid, h: Grid, m: nat, n: nat)
    requires IsShape(g, m, n) && IsShape(h, m, n)
    ensures WithinTol(g, h, m, n, 0.0) <==> g == h
  {
    if WithinTol(g, h, m, n, 0.0) {
      forall i, j | 0 <= i < m && 0 <= j < n
        ensures g[i][j] == h[i][j]
      {
        assert AbsReal(g[i][j] - h[i][j]) <= 0.0;
      }
      SameEntries(g, h, m, n);
    }
  }

  /** `identity(N)` is `diag` of N ones. */
  lemma IdentityIsDiagOfOnes(n: nat)
    ensures DiagGrid(seq(n, _ => 1.0)) == IdentityGrid(n, n)
  {
    SameEntries(DiagGrid(seq(n, _ => 1.0)), IdentityGrid(n, n), n, n);
  }

  /** Java's integer `1/v` is 1 or -1 for v = 1 or -1 and 0 for every other nonzero v. */
  lemma IntegerReciprocal(v: int)
    requires v != 0
    ensures JavaDiv(1, v) == if v == 1 then 1 else if v == -1 then -1 else 0
  {
    if Abs(v) >= 2 {
      assert 1 / Abs(v) == 0;
    }
  }

  /** As written, `divide(v)` for |v| >= 2 multiplies by the integer 0: the result is all zeros. */
  lemma DivideIntCollapses(g: Grid, m: nat, n: nat, v: int)
    requires IsShape(g, m, n) && Abs(v) >= 2
    ensures MapGrid(g, m, n, ScaleBy(JavaDiv(1, v) as real)) == ConstantGrid(m, n, 0.0)
  {
    IntegerReciprocal(v);
    SameEntries(MapGrid(g, m, n, ScaleBy(JavaDiv(1, v) as real)), ConstantGrid(m, n, 0.0), m, n);
  }

  /** A concrete instance: dividing [[2]] by 2 as written gives [[0]], not [[1]]. */
  lemma DivideTwoByTwo()
    ensures MapGrid([[2.0]], 1, 1, ScaleBy(JavaDiv(1, 2) as real)) == [[0.0]]
    ensures MapGrid([[2.0]], 1, 1, ScaleBy(1.0 / 2.0)) == [[1.0]]
  {
    DivideIntCollapses([[2.0]], 1, 1, 2);
    SameEntries(ConstantGrid(1, 1, 0.0), [[0.0]], 1, 1);
    SameEntries(MapGrid([[2.0]], 1, 1, ScaleBy(1.0 / 2.0)), [[1.0]], 1, 1);
  }

  /** The corrected division is undone by multiplying back by v. */
  lemma ExactDivisionInverts(g: Grid, m: nat, n: nat, v: int)
    requires IsShape(g, m, n) && v != 0
    ensures MapGrid(MapGrid(g, m, n, ScaleBy(1.0 / (v as real))), m, n, ScaleBy(v as real)) == g
  {
    var d := MapGrid(g, m, n, ScaleBy(1.0 / (v as real)));
    var r := MapGrid(d, m, n, ScaleBy(v as real));
    forall i, j | 0 <= i < m && 0 <= j < n
      ensures r[i][j] == g[i][j]
    {
      var x, w := g[i][j], v as real;
      assert r[i][j] == w * ((1.0 / w) * x);
      assert w * (1.0 / w) == 1.0;
      assert w * ((1.0 / w) * x) == (w * (1.0 / w)) * x;
    }
    SameEntries(r, g, m, n);
  }

  // ---------------------------------------------------------------------
  // Loops over arrays of rows
  // ---------------------------------------------------------------------

  /**
   * dst[i][j] := row[j] for j = 0..n-1 in turn; it stops at the first j past
   * the end of row, having written the entries before it.
   */
  method CopyRowPrefix(row: seq<real>, dst: array<seq<real>>, i: int, n: nat) returns (ok: bool)
    requires 0 <= i < dst.Length && |dst[i]| == n
    modifies dst
    ensures ok <==> n <= |row|
    ensures ok ==> dst[i] == row[..n]
    ensures |dst[i]| == n
    ensures forall k :: 0 <= k < dst.Length && k != i ==> dst[k] == old(dst[k])
  {
    for j := 0 to n
      invariant |dst[i]| == n
      invariant j <= |row| && dst[i][..j] == row[..j]
      invariant forall k :: 0 <= k < dst.Length && k != i ==> dst[k] == old(dst[k])
    {
      if j >= |row| {
        return false;
      }
      dst[i] := dst[i][j := row[j]];
    }
    assert dst[i] == dst[i][..n];
    ok := true;
  }

  /** dst[i][j] := op(src[i][j]) for every entry, row by row. */
  method MapRowsInto(src: array<seq<real>>, dst: array<seq<real>>, n: nat, op: ScalarOp)
    requires src != dst && dst.Length == src.Length
    requires IsShape(src[..], src.Length, n) && IsShape(dst[..], dst.Length, n)
    modifies dst
    ensures dst[..] == MapGrid(src[..], src.Length, n, op)
  {
    var m := src.Length;
    for i := 0 to m
      invariant IsShape(dst[..], m, n)
      invariant forall r, c :: 0 <= r < i && 0 <= c < n ==> dst[r][c] == ApplyScalar(op, src[r][c])
    {
      for j := 0 to n
        invariant IsShape(dst[..], m, n)
        invariant forall r, c :: 0 <= r < i && 0 <= c < n ==> dst[r][c] == ApplyScalar(op, src[r][c])
        invariant forall c :: 0 <= c < j ==> dst[i][c] == ApplyScalar(op, src[i][c])
      {
        dst[i] := dst[i][j := ApplyScalar(op, src[i][j])];
      }
    }
    SameEntries(dst[..], MapGrid(src[..], m, n, op), m, n);
  }

  /**
   * dst[i][j] := op(a[i][j], b[i][j]) over the shape of a; b only has to be
   * at least as large.
   */
  method ZipRowsInto(a: array<seq<real>>, b: array<seq<real>>, dst: array<seq<real>>, n: nat, op: BinOp)
    requires dst != a && dst != b && dst.Length == a.Length && a.Length <= b.Length
    requires IsShape(a[..], a.Length, n) && IsShape(dst[..], dst.Length, n)
    requires forall r :: 0 <= r < a.Length ==> n <= |b[r]|
    modifies dst
    ensures IsShape(dst[..], dst.Length, n)
    ensures forall r, c :: 0 <= r < a.Length && 0 <= c < n ==> dst[r][c] == ApplyBin(op, a[r][c], b[r][c])
  {
    var m := a.Length;
    for i := 0 to m
      invariant IsShape(dst[..], m, n)
      invariant forall r, c :: 0 <= r < i && 0 <= c < n ==> dst[r][c] == ApplyBin(op, a[r][c], b[r][c])
    {
      for j := 0 to n
        invariant IsShape(dst[..], m, n)
        invariant forall r, c :: 0 <= r < i && 0 <= c < n ==> dst[r][c] == ApplyBin(op, a[r][c], b[r][c])
        invariant forall c :: 0 <= c < j ==> dst[i][c] == ApplyBin(op, a[i][c], b[i][c])
      {
        dst[i] := dst[i][j := ApplyBin(op, a[i][j], b[i][j])];
      }
    }
  }

  /** dst[j][i] := src[i][j] for the m-by-n src and the n-by-m dst. */
  method TransposeRowsInto(src: array<seq<real>>, dst: array<seq<real>>, m: nat, n: nat)
    requires src != dst && IsShape(src[..], m, n) && IsShape(dst[..], n, m)
    modifies dst
    ensures dst[..] == Transposed(src[..], m, n)
  {
    for i := 0 to m
      invariant IsShape(dst[..], n, m)
      invariant forall c, r :: 0 <= c < n && 0 <= r < i ==> dst[c][r] == src[r][c]
    {
      for j := 0 to n
        invariant IsShape(dst[..], n, m)
        invariant forall c, r :: 0 <= c < n && 0 <= r < i ==> dst[c][r] == src[r][c]
        invariant forall c :: 0 <= c < j ==> dst[c][i] == src[i][c]
      {
        dst[j] := dst[j][i := src[i][j]];
      }
    }
    SameEntries(dst[..], Transposed(src[..], m, n), n, m);
  }

  /** c[i][j] += a[i][k] * b[k][j] for k = 0 .. p-1 in order, starting from 0. */
  method AccumulateDot(a: array<seq<real>>, b: array<seq<real>>, c: array<seq<real>>, i: nat, j: nat, p: nat, n: nat)
    requires c != a && c != b
    requires i < a.Length && i < c.Length && p <= |a[i]| && b.Length == p && j < n
    requires forall k :: 0 <= k < p ==> n <= |b[k]|
    requires IsShape(c[..], c.Length, n) && c[i][j] == 0.0
    modifies c
    ensures IsShape(c[..], c.Length, n)
    ensures c[i][j] == Dot(a[..], b[..], i, j, p)
    ensures forall r :: 0 <= r < c.Length && r != i ==> c[r] == old(c[r])
    ensures forall s :: 0 <= s < n && s != j ==> c[i][s] == old(c[i][s])
  {
    for k := 0 to p
      invariant IsShape(c[..], c.Length, n)
      invariant c[i][j] == Dot(a[..], b[..], i, j, k)
      invariant forall r :: 0 <= r < c.Length && r != i ==> c[r] == old(c[r])
      invariant forall s :: 0 <= s < n && s != j ==> c[i][s] == old(c[i][s])
    {
      c[i] := c[i][j := c[i][j] + a[i][k] * b[k][j]];
    }
  }

  /** c := a * b for the m-by-p a, the p-by-n b and the zero m-by-n c. */
  method ProductRowsInto(a: array<seq<real>>, b: array<seq<real>>, c: array<seq<real>>, p: nat, n: nat)
    requires c != a && c != b && c.Length == a.Length && b.Length == p
    requires IsShape(a[..], a.Length, p) && IsShape(b[..], p, n)
    requires c[..] == ConstantGrid(a.Length, n, 0.0)
    modifies c
    ensures c[..] == Product(a[..], b[..], a.Length, p, n)
  {
    var m := a.Length;
    ghost var g, h := a[..], b[..];
    for i := 0 to m
      invariant IsShape(c[..], m, n)
      invariant forall r, s :: 0 <= r < i && 0 <= s < n ==> c[r][s] == Dot(g, h, r, s, p)
      invariant forall r :: i <= r < m ==> c[r] == ConstantGrid(m, n, 0.0)[r]
    {
      for j := 0 to n
        invariant IsShape(c[..], m, n)
        invariant forall r, s :: 0 <= r < i && 0 <= s < n ==> c[r][s] == Dot(g, h, r, s, p)
        invariant forall r :: i < r < m ==> c[r] == ConstantGrid(m, n, 0.0)[r]
        invariant forall s :: 0 <= s < j ==> c[i][s] == Dot(g, h, i, s, p)
        invariant forall s :: j <= s < n ==> c[i][s] == 0.0
      {
        AccumulateDot(a, b, c, i, j, p, n);
      }
    }
    SameEntries(c[..], Product(g, h, m, p, n), m, n);
  }

  class Matrix {
    const M: nat
    const N: nat
    const data: array<seq<real>>

    ghost predicate Valid()
      reads data
    {
      data.Length == M && IsShape(data[..], M, N)
    }

    /** The entries, row by row. */
    function Entries(): Grid
      reads data
    {
      data[..]
    }

    /** `Matrix(M, N)`: the M-by-N zero matrix. */
    constructor (M: nat, N: nat)
      ensures this.M == M && this.N == N && Valid() && fresh(data)
      ensures Entries() == ConstantGrid(M, N, 0.0)
    {
      this.M, this.N := M, N;
      data := new seq<real>[M](_ => seq(N, _ => 0.0));
      new;
      SameEntries(data[..], ConstantGrid(M, N, 0.0), M, N);
    }

    /**
     * `Matrix(double[][])`: copies the first |src[0]| entries of every row
     * into fresh storage. An empty array has no row 0, and the first row
     * shorter than row 0 runs out of entries at its own length.
     */
    static method FromArray(src: array<seq<real>>) returns (r: Result<Matrix>)
      ensures src.Length == 0 ==> r == Err(OutOfBounds(0, 0))
      ensures r.Ok? <==> src.Length > 0 && forall i :: 0 <= i < src.Length ==> |src[0]| <= |src[i]|
      ensures src.Length > 0 && r.Err? ==>
        exists i :: 0 <= i < src.Length && |src[i]| < |src[0]| && r.error == OutOfBounds(|src[i]|, |src[i]|)
          && forall k :: 0 <= k < i ==> |src[0]| <= |src[k]|
      ensures r.Ok? ==> fresh(r.value) && fresh(r.value.data) && r.value.Valid()
      ensures r.Ok? ==> r.value.M == src.Length && r.value.N == |src[0]|
      ensures r.Ok? ==> forall i :: 0 <= i < src.Length ==> r.value.Entries()[i] == src[i][..|src[0]|]
    {
      if src.Length == 0 {
        return Err(OutOfBounds(0, 0));
      }
      var m, n := src.Length, |src[0]|;
      var X := new Matrix(m, n);
      for i := 0 to m
        invariant X.Valid()
        invariant forall k :: 0 <= k < i ==> n <= |src[k]| && X.data[k] == src[k][..n]
      {
        var ok := CopyRowPrefix(src[i], X.data, i, n);
        if !ok {
          return Err(OutOfBounds(|src[i]|, |src[i]|));
        }
      }
      r := Ok(X);
    }

    /** `Matrix(double[])`: a fresh 1-by-N row holding a copy of src. */
    static method FromRow(src: array<real>) returns (X: Matrix)
      ensures fresh(X) && fresh(X.data) && X.Valid() && X.M == 1 && X.N == src.Length
      ensures X.Entries() == [src[..]]
    {
      var n := src.Length;
      X := new Matrix(1, n);
      for j := 0 to n
        invariant X.Valid()
        invariant X.data[0][..j] == src[..j]
      {
        X.data[0] := X.data[0][j := src[j]];
      }
      assert X.data[0] == X.data[0][..n] && src[..] == src[..n];
      assert X.data[..] == [X.data[0]];
    }

    /** `identity(N)`: 1 exactly on the diagonal. */
    static method Identity(N: nat) returns (X: Matrix)
      ensures fresh(X) && X.Valid() && X.M == N && X.N == N
      ensures X.Entries() == IdentityGrid(N, N)
    {
      X := new Matrix(N, N);
      for i := 0 to N
        invariant IsShape(X.data[..], N, N)
        invariant forall r, c :: 0 <= r < N && 0 <= c < N ==> X.data[r][c] == if r == c && r < i then 1.0 else 0.0
      {
        X.data[i] := X.data[i][i := 1.0];
      }
      SameEntries(X.Entries(), IdentityGrid(N, N), N, N);
    }

    /** `constant(M, N, c)`: every entry is c. */
    static method Constant(M: nat, N: nat, c: real) returns (X: Matrix)
      ensures fresh(X) && X.Valid() && X.M == M && X.N == N
      ensures X.Entries() == ConstantGrid(M, N, c)
    {
      X := new Matrix(M, N);
      for i := 0 to M
        invariant IsShape(X.data[..], M, N)
        invariant forall r, s :: 0 <= r < i && 0 <= s < N ==> X.data[r][s] == c
      {
        for j := 0 to N
          invariant IsShape(X.data[..], M, N)
          invariant forall r, s :: 0 <= r < i && 0 <= s < N ==> X.data[r][s] == c
          invariant forall s :: 0 <= s < j ==> X.data[i][s] == c
        {
          X.data[i] := X.data[i][j := c];
        }
      }
      SameEntries(X.Entries(), ConstantGrid(M, N, c), M, N);
    }

    /** `diag(var)`: |v|-by-|v|, v on the diagonal and 0 elsewhere. */
    static method Diag(v: seq<real>) returns (X: Matrix)
      ensures fresh(X) && X.Valid() && X.M == |v| && X.N == |v|
      ensures X.Entries() == DiagGrid(v)
    {
      var m := |v|;
      X := new Matrix(m, m);
      for i := 0 to m
        invariant IsShape(X.data[..], m, m)
        invariant forall r, c :: 0 <= r < m && 0 <= c < m ==> X.data[r][c] == if r == c && r < i then v[r] else 0.0
      {
        X.data[i] := X.data[i][i := v[i]];
      }
      SameEntries(X.Entries(), DiagGrid(v), m, m);
    }

    /**
     * `swap(i, j)`: exchanges rows i and j in place. Reading row i, then
     * row j, fails before anything is stored.
     */
    method Swap(i: int, j: int) returns (r: Result<()>)
      requires Valid()
      modifies data
      ensures Valid()
      ensures r.Ok? <==> 0 <= i < M && 0 <= j < M
      ensures r.Err? ==> r.error == OutOfBounds(if 0 <= i < M then j else i, M)
      ensures r.Err? ==> Entries() == old(Entries())
      ensures r.Ok? ==> Entries() == SwapRows(old(Entries()), i, j)
    {
      if !(0 <= i < M) {
        return Err(OutOfBounds(i, M));
      }
      var temp := data[i];
      if !(0 <= j < M) {
        return Err(OutOfBounds(j, M));
      }
      data[i] := data[j];
      data[j] := temp;
      SwapPermutes(old(Entries()), M, N, i, j);
      r := Ok(());
    }

    /** `transpose()`: the N-by-M matrix with C[j][i] = A[i][j]. */
    method Transpose() returns (X: Matrix)
      requires Valid()
      ensures fresh(X) && X.Valid() && X.M == N && X.N == M
      ensures X.Entries() == Transposed(Entries(), M, N)
    {
      X := new Matrix(N, M);
      TransposeRowsInto(data, X.data, M, N);
    }

    /** The entry-wise combination of `plus(B)` and `minus(B)`. */
    method Combine(B: Matrix, op: BinOp) returns (r: Result<Matrix>)
      requires Valid() && B.Valid()
      ensures r.Ok? <==> B.M == M && B.N == N
      ensures r.Err? ==> r.error == Runtime("Illegal matrix dimensions.")
      ensures r.Ok? ==> fresh(r.value) && r.value.Valid() && r.value.M == M && r.value.N == N
      ensures r.Ok? ==> r.value.Entries() == Zip(Entries(), B.Entries(), M, N, op)
    {
      if B.M != M || B.N != N {
        return Err(Runtime("Illegal matrix dimensions."));
      }
      var X := new Matrix(M, N);
      ZipRowsInto(data, B.data, X.data, N, op);
      SameEntries(X.Entries(), Zip(Entries(), B.Entries(), M, N, op), M, N);
      r := Ok(X);
    }

    /** The entry-wise operation with a scalar shared by `plus(a)`, `minus(a)` and `times(a)`. */
    method MapEntries(op: ScalarOp) returns (X: Matrix)
      requires Valid()
      ensures fresh(X) && X.Valid() && X.M == M && X.N == N
      ensures X.Entries() == MapGrid(Entries(), M, N, op)
    {
      X := new Matrix(M, N);
      MapRowsInto(data, X.data, N, op);
    }

    /** `plus(B)`: A + B; a shape mismatch raises a RuntimeException. */
    method Plus(B: Matrix) returns (r: Result<Matrix>)
      requires Valid() && B.Valid()
      ensures r.Ok? <==> B.M == M && B.N == N
      ensures r.Err? ==> r.error == Runtime("Illegal matrix dimensions.")
      ensures r.Ok? ==> fresh(r.value) && r.value.Valid() && r.value.M == M && r.value.N == N
      ensures r.Ok? ==> r.value.Entries() == Zip(Entries(), B.Entries(), M, N, BinOp.Add)
    {
      r := Combine(B, BinOp.Add);
    }

    /** `plus(a)`: a added to every entry. */
    method PlusScalar(a: real) returns (X: Matrix)
      requires Valid()
      ensures fresh(X) && X.Valid() && X.M == M && X.N == N
      ensures X.Entries() == MapGrid(Entries(), M, N, Shift(a))
    {
      X := MapEntries(Shift(a));
    }

    /** `minus(B)`: A - B; a shape mismatch raises a RuntimeException. */
    method Minus(B: Matrix) returns (r: Result<Matrix>)
      requires Valid() && B.Valid()
      ensures r.Ok? <==> B.M == M && B.N == N
      ensures r.Err? ==> r.error == Runtime("Illegal matrix dimensions.")
      ensures r.Ok? ==> fresh(r.value) && r.value.Valid() && r.value.M == M && r.value.N == N
      ensures r.Ok? ==> r.value.Entries() == Zip(Entries(), B.Entries(), M, N, Sub)
    {
      r := Combine(B, Sub);
    }

    /** `minus(a)`: a subtracted from every entry. */
    method MinusScalar(a: real) returns (X: Matrix)
      requires Valid()
      ensures fresh(X) && X.Valid() && X.M == M && X.N == N
      ensures X.Entries() == MapGrid(Entries(), M, N, Shift(-a))
    {
      X := MapEntries(Shift(-a));
    }

    /**
     * `equals(B)`: whether every entry agrees exactly. A shape mismatch
     * raises a RuntimeException rather than answering false.
     */
    method Equals(B: Matrix) returns (r: Result<bool>)
      requires Valid() && B.Valid()
      ensures r.Ok? <==> B.M == M && B.N == N
      ensures r.Err? ==> r.error == Runtime("Illegal matrix dimensions.")
      ensures r.Ok? ==> (r.value <==> Entries() == B.Entries())
    {
      if B.M != M || B.N != N {
        return Err(Runtime("Illegal matrix dimensions."));
      }
      for i := 0 to M
        invariant forall k, c :: 0 <= k < i && 0 <= c < N ==> data[k][c] == B.data[k][c]
      {
        for j := 0 to N
          invariant forall k, c :: 0 <= k < i && 0 <= c < N ==> data[k][c] == B.data[k][c]
          invariant forall c :: 0 <= c < j ==> data[i][c] == B.data[i][c]
        {
          if data[i][j] != B.data[i][j] {
            assert Entries()[i][j] != B.Entries()[i][j];
            return Ok(false);
          }
        }
      }
      SameEntries(Entries(), B.Entries(), M, N);
      r := Ok(true);
    }

    /** `equals(B, tol)`: whether every entry agrees within tol. */
    method EqualsTol(B: Matrix, tol: real) returns (r: Result<bool>)
      requires Valid() && B.Valid()
      ensures r.Ok? <==> B.M == M && B.N == N
      ensures r.Err? ==> r.error == Runtime("Illegal matrix dimensions.")
      ensures r.Ok? ==> (r.value <==> WithinTol(Entries(), B.Entries(), M, N, tol))
    {
      if B.M != M || B.N != N {
        return Err(Runtime("Illegal matrix dimensions."));
      }
      for i := 0 to M
        invariant forall k, c :: 0 <= k < i && 0 <= c < N ==> AbsReal(data[k][c] - B.data[k][c]) <= tol
      {
        for j := 0 to N
          invariant forall k, c :: 0 <= k < i && 0 <= c < N ==> AbsReal(data[k][c] - B.data[k][c]) <= tol
          invariant forall c :: 0 <= c < j ==> AbsReal(data[i][c] - B.data[i][c]) <= tol
        {
          if AbsReal(data[i][j] - B.data[i][j]) > tol {
            assert AbsReal(Entries()[i][j] - B.Entries()[i][j]) > tol;
            return Ok(false);
          }
        }
      }
      r := Ok(true);
    }

    /** `times(B)`: the M-by-B.N product, each entry summed k = 0 .. N-1 in order. */
    method Times(B: Matrix) returns (r: Result<Matrix>)
      requires Valid() && B.Valid()
      ensures r.Ok? <==> B.M == N
      ensures r.Err? ==> r.error == Runtime("Illegal matrix dimensions.")
      ensures r.Ok? ==> fresh(r.value) && r.value.Valid() && r.value.M == M && r.value.N == B.N
      ensures r.Ok? ==> r.value.Entries() == Product(Entries(), B.Entries(), M, N, B.N)
    {
      if N != B.M {
        return Err(Runtime("Illegal matrix dimensions."));
      }
      var X := new Matrix(M, B.N);
      ProductRowsInto(data, B.data, X.data, N, B.N);
      r := Ok(X);
    }

    /** `times(a)`: every entry multiplied by a. */
    method TimesScalar(a: real) returns (X: Matrix)
      requires Valid()
      ensures fresh(X) && X.Valid() && X.M == M && X.N == N
      ensures X.Entries() == MapGrid(Entries(), M, N, ScaleBy(a))
    {
      X := MapEntries(ScaleBy(a));
    }

    /**
     * `timesElement(B)`: the entry-wise product over this matrix's shape,
     * with no shape check; B may be larger, and the first entry B lacks, in
     * the loop's row-then-column order, raises the out-of-bounds exception:
     * row 0 when B has no rows, else column B.N of row 0 when B's rows are
     * shorter, else row B.M.
     */
    method TimesElement(B: Matrix) returns (r: Result<Matrix>)
      requires Valid() && B.Valid()
      ensures r.Ok? <==> M == 0 || N == 0 || (M <= B.M && N <= B.N)
      ensures r.Err? ==> r.error == if B.M > 0 && N > B.N then OutOfBounds(B.N, B.N) else OutOfBounds(B.M, B.M)
      ensures r.Ok? ==> fresh(r.value) && r.value.Valid() && r.value.M == M && r.value.N == N
      ensures r.Ok? ==> forall i, j :: 0 <= i < M && 0 <= j < N ==>
        r.value.Entries()[i][j] == Entries()[i][j] * B.Entries()[i][j]
    {
      if M > 0 && N > 0 && B.M == 0 {
        return Err(OutOfBounds(0, 0));
      }
      if M > 0 && N > 0 && N > B.N {
        return Err(OutOfBounds(B.N, B.N));
      }
      if M > 0 && N > 0 && M > B.M {
        return Err(OutOfBounds(B.M, B.M));
      }
      var X := new Matrix(M, N);
      if N > 0 {
        ZipRowsInto(data, B.data, X.data, N, Mul);
      }
      r := Ok(X);
    }

    /** `getElement(i, j)`: data[i][j], the row index checked first. */
    function GetElement(i: int, j: int): (r: Result<real>)
      requires Valid()
      reads data
      ensures r.Ok? <==> 0 <= i < M && 0 <= j < N
      ensures r.Ok? ==> r.value == Entries()[i][j]
      ensures r.Err? ==> r.error == if 0 <= i < M then OutOfBounds(j, N) else OutOfBounds(i, M)
    {
      if !(0 <= i < M) then Err(OutOfBounds(i, M))
      else if !(0 <= j < N) then Err(OutOfBounds(j, N))
      else Ok(data[i][j])
    }

    /** `getRow(row)`: a copy of the row; with N = 0 the row is never read. */
    method GetRow(row: int) returns (r: Result<seq<real>>)
      requires Valid()
      ensures r.Ok? <==> N == 0 || 0 <= row < M
      ensures r.Err? ==> r.error == OutOfBounds(row, M)
      ensures r.Ok? ==> |r.value| == N && (N > 0 ==> r.value == Entries()[row])
    {
      var selected: seq<real> := [];
      for i := 0 to N
        invariant i > 0 ==> 0 <= row < M
        invariant 0 <= row < M ==> selected == data[row][..i]
        invariant |selected| == i
      {
        if !(0 <= row < M) {
          return Err(OutOfBounds(row, M));
        }
        selected := selected + [data[row][i]];
      }
      if N > 0 {
        assert data[row] == data[row][..N];
      }
      r := Ok(selected);
    }

    /** `getColumn(column)`: column `column`, top to bottom; with M = 0 nothing is read. */
    method GetColumn(column: int) returns (r: Result<seq<real>>)
      requires Valid()
      ensures r.Ok? <==> M == 0 || 0 <= column < N
      ensures r.Err? ==> r.error == OutOfBounds(column, N)
      ensures r.Ok? ==> |r.value| == M && (M > 0 ==> r.value == Column(Entries(), column))
    {
      var selected: seq<real> := [];
      for i := 0 to M
        invariant |selected| == i
        invariant i > 0 ==> 0 <= column < N
        invariant 0 <= column < N ==> forall k :: 0 <= k < i ==> selected[k] == data[k][column]
      {
        if !(0 <= column < N) {
          return Err(OutOfBounds(column, N));
        }
        selected := selected + [data[i][column]];
      }
      r := Ok(selected);
    }

    // -------------------------------------------------------------------
    // Operator-overload delegations
    // -------------------------------------------------------------------

    /** `add(v)`: this.plus(v). */
    method Add(B: Matrix) returns (r: Result<Matrix>)
      requires Valid() && B.Valid()
      ensures r.Ok? <==> B.M == M && B.N == N
      ensures r.Err? ==> r.error == Runtime("Illegal matrix dimensions.")
      ensures r.Ok? ==> fresh(r.value) && r.value.Valid() && r.value.M == M && r.value.N == N
      ensures r.Ok? ==> r.value.Entries() == Zip(Entries(), B.Entries(), M, N, BinOp.Add)
    {
      r := Plus(B);
    }

    /** `addRev(v)`: v.plus(this), which has the same entries as this.plus(v). */
    method AddRev(B: Matrix) returns (r: Result<Matrix>)
      requires Valid() && B.Valid()
      ensures r.Ok? <==> B.M == M && B.N == N
      ensures r.Err? ==> r.error == Runtime("Illegal matrix dimensions.")
      ensures r.Ok? ==> fresh(r.value) && r.value.Valid() && r.value.M == M && r.value.N == N
      ensures r.Ok? ==> r.value.Entries() == Zip(Entries(), B.Entries(), M, N, BinOp.Add)
    {
      r := B.Plus(this);
      if r.Ok? {
        ZipAddCommutes(B.Entries(), Entries(), M, N);
      }
    }

    /** `add(v)` and `addRev(v)` for a number v: this.plus(v). */
    method AddScalar(v: real) returns (X: Matrix)
      requires Valid()
      ensures fresh(X) && X.Valid() && X.M == M && X.N == N
      ensures forall i, j :: 0 <= i < M && 0 <= j < N ==> X.Entries()[i][j] == Entries()[i][j] + v
    {
      X := PlusScalar(v);
    }

    /** `subtract(v)`: this.minus(v). */
    method Subtract(B: Matrix) returns (r: Result<Matrix>)
      requires Valid() && B.Valid()
      ensures r.Ok? <==> B.M == M && B.N == N
      ensures r.Err? ==> r.error == Runtime("Illegal matrix dimensions.")
      ensures r.Ok? ==> fresh(r.value) && r.value.Valid() && r.value.M == M && r.value.N == N
      ensures r.Ok? ==> r.value.Entries() == Zip(Entries(), B.Entries(), M, N, Sub)
    {
      r := Minus(B);
    }

    /** `subtract(v)` for a number v: this.minus(v). */
    method SubtractScalar(v: real) returns (X: Matrix)
      requires Valid()
      ensures fresh(X) && X.Valid() && X.M == M && X.N == N
      ensures forall i, j :: 0 <= i < M && 0 <= j < N ==> X.Entries()[i][j] == Entries()[i][j] - v
    {
      X := MinusScalar(v);
    }

    /** `subtractRev(v)`: this.times(-1).plus(v), which is v - A. */
    method SubtractRev(B: Matrix) returns (r: Result<Matrix>)
      requires Valid() && B.Valid()
      ensures r.Ok? <==> B.M == M && B.N == N
      ensures r.Err? ==> r.error == Runtime("Illegal matrix dimensions.")
      ensures r.Ok? ==> fresh(r.value) && r.value.Valid() && r.value.M == M && r.value.N == N
      ensures r.Ok? ==> r.value.Entries() == Zip(B.Entries(), Entries(), M, N, Sub)
    {
      var negated := TimesScalar(-1.0);
      r := negated.Plus(B);
      if r.Ok? {
        NegatePlusIsReverseMinus(Entries(), B.Entries(), M, N);
      }
    }

    /** `subtractRev(v)` for a number v: this.times(-1).plus(v), which is v - A. */
    method SubtractRevScalar(v: real) returns (X: Matrix)
      requires Valid()
      ensures fresh(X) && X.Valid() && X.M == M && X.N == N
      ensures forall i, j :: 0 <= i < M && 0 <= j < N ==> X.Entries()[i][j] == v - Entries()[i][j]
    {
      var negated := TimesScalar(-1.0);
      X := negated.PlusScalar(v);
    }

    /** `multiply(v)`: this.times(v). */
    method Multiply(B: Matrix) returns (r: Result<Matrix>)
      requires Valid() && B.Valid()
      ensures r.Ok? <==> B.M == N
      ensures r.Err? ==> r.error == Runtime("Illegal matrix dimensions.")
      ensures r.Ok? ==> fresh(r.value) && r.value.Valid() && r.value.M == M && r.value.N == B.N
      ensures r.Ok? ==> r.value.Entries() == Product(Entries(), B.Entries(), M, N, B.N)
    {
      r := Times(B);
    }

    /** `multiplyRev(v)`: v.times(this), the product with the factors exchanged. */
    method MultiplyRev(B: Matrix) returns (r: Result<Matrix>)
      requires Valid() && B.Valid()
      ensures r.Ok? <==> B.N == M
      ensures r.Err? ==> r.error == Runtime("Illegal matrix dimensions.")
      ensures r.Ok? ==> fresh(r.value) && r.value.Valid() && r.value.M == B.M && r.value.N == N
      ensures r.Ok? ==> r.value.Entries() == Product(B.Entries(), Entries(), B.M, M, N)
    {
      r := B.Times(this);
    }

    /** `multiply(v)` and `multiplyRev(v)` for a number v: this.times(v). */
    method MultiplyScalar(v: real) returns (X: Matrix)
      requires Valid()
      ensures fresh(X) && X.Valid() && X.M == M && X.N == N
      ensures forall i, j :: 0 <= i < M && 0 <= j < N ==> X.Entries()[i][j] == Entries()[i][j] * v
    {
      X := TimesScalar(v);
    }

    /** `negate()`: this.times(-1). */
    method Negate() returns (X: Matrix)
      requires Valid()
      ensures fresh(X) && X.Valid() && X.M == M && X.N == N
      ensures X.Entries() == MapGrid(Entries(), M, N, ScaleBy(-1.0))
    {
      X := TimesScalar(-1.0);
    }

    /**
     * `divide(int v)` and `divide(long v)` as written: this.times(1/v) with
     * Java's integer division, so v = 0 raises "/ by zero".
     */
    method DivideInt(v: int) returns (r: Result<Matrix>)
      requires Valid()
      ensures r.Err? <==> v == 0
      ensures r.Err? ==> r.error == Arithmetic("/ by zero")
      ensures r.Ok? ==> fresh(r.value) && r.value.Valid() && r.value.M == M && r.value.N == N
      ensures r.Ok? ==> r.value.Entries() == MapGrid(Entries(), M, N, ScaleBy(JavaDiv(1, v) as real))
    {
      if v == 0 {
        return Err(Arithmetic("/ by zero"));
      }
      var X := TimesScalar(JavaDiv(1, v) as real);
      r := Ok(X);
    }

    /** `divide(int v)` as intended: every entry divided by v. */
    method DivideIntExact(v: int) returns (r: Result<Matrix>)
      requires Valid()
      ensures r.Err? <==> v == 0
      ensures r.Err? ==> r.error == Arithmetic("/ by zero")
      ensures r.Ok? ==> fresh(r.value) && r.value.Valid() && r.value.M == M && r.value.N == N
      ensures r.Ok? ==> forall i, j :: 0 <= i < M && 0 <= j < N ==>
        r.value.Entries()[i][j] * (v as real) == Entries()[i][j]
    {
      if v == 0 {
        return Err(Arithmetic("/ by zero"));
      }
      var X := TimesScalar(1.0 / (v as real));
      ExactDivisionInverts(Entries(), M, N, v);
      assert forall i, j :: 0 <= i < M && 0 <= j < N ==>
        MapGrid(X.Entries(), M, N, ScaleBy(v as real))[i][j] == Entries()[i][j];
      r := Ok(X);
    }
  }
}
