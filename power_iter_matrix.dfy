// The dense matrix of the power-iteration utilities: an m-by-n array A of
// doubles (reals here) with constructors from a scalar, a 2-D array and a
// column-packed array; packed copies; sub-matrix reads and writes over index
// ranges or index lists; and entry-wise and matrix arithmetic, both into a
// fresh matrix and in place on A.

module PowerIterMatrix {
  import opened Common
  import opened Grids

  /** The entries of a 2-D array, row by row. */
  function Snapshot(a: array2<real>): (g: Grid)
    reads a
    ensures IsShape(g, a.Length0, a.Length1)
    ensures forall i, j :: 0 <= i < a.Length0 && 0 <= j < a.Length1 ==> g[i][j] == a[i, j]
  {
    seq(a.Length0, i requires 0 <= i < a.Length0 reads a =>
      seq(a.Length1, j requires 0 <= j < a.Length1 reads a => a[i, j]))
  }

  // ---------------------------------------------------------------------
  // Column packing: entry (i, j) of an m-row matrix sits at i + j*m.

  /** The entry at packed index i + j*m, or 0.0 off the end. */
  function PackedAt(vals: seq<real>, i: int, j: int, m: int): real
  {
    var k := i + j * m;
    if 0 <= k < |vals| then vals[k] else 0.0
  }

  /** v lists the entries of the m-by-n grid g column by column. */
  predicate IsColumnPacking(v: seq<real>, g: Grid, m: nat, n: nat)
  {
    |v| == m * n && IsShape(g, m, n) &&
    forall i, j :: 0 <= i < m && 0 <= j < n ==> PackedAt(v, i, j, m) == g[i][j]
  }

  /** v lists the entries of the m-by-n grid g row by row. */
  predicate IsRowPacking(v: seq<real>, g: Grid, m: nat, n: nat)
  {
    |v| == m * n && IsShape(g, m, n) &&
    forall i, j :: 0 <= i < m && 0 <= j < n ==> PackedAt(v, j, i, n) == g[i][j]
  }

  /** a*m is at least m when a and m are positive. */
  lemma MulAtLeast(a: int, m: int)
    requires a >= 1 && m >= 0
    ensures a * m >= m
  {
    var k := a - 1;
    assert k * m >= 0;
    assert a * m == k * m + m;
  }

  lemma PackedIndex(i: int, j: int, m: int, n: int)
    requires 0 <= i < m && 0 <= j < n
    ensures 0 <= j * m && 0 <= i + j * m < m * n
  {
    var k := n - 1 - j;
    assert k * m >= 0;
    assert j * m >= 0;
    assert m * n == j * m + k * m + m;
  }

  /** Euclidean division facts for the packed index i + j*m of an m-row grid. */
  lemma PackedDivMod(i: int, j: int, m: int)
    requires 0 <= i < m && 0 <= j
    ensures (i + j * m) / m == j && (i + j * m) % m == i
  {
    var k := i + j * m;
    var q, r := k / m, k % m;
    assert k == q * m + r && 0 <= r < m;
    assert (q - j) * m == i - r by {
      assert q * m - j * m == (q - j) * m;
    }
    if q > j {
      MulAtLeast(q - j, m);
    } else if q < j {
      MulAtLeast(j - q, m);
    }
  }

  /**
   * The column count `Matrix(vals, m)` derives from the array length (Java
   * integer division), or the exception it raises: a length that is not
   * m times that count, then a negative dimension.
   */
  function PackedWidth(len: nat, m: int): Result<nat>
  {
    var n := if m != 0 then JavaDiv(len, m) else 0;
    if m * n != len then Err(IllegalArgument("Array length must be a multiple of m."))
    else if m < 0 || n < 0 then Err(NegativeArraySize)
    else Ok(n)
  }

  /**
   * `Matrix(vals, m)` accepts exactly the lengths that a positive m divides,
   * and the empty array when m is 0; the column count is then len / m.
   */
  lemma PackedWidthCases(len: nat, m: int)
    ensures PackedWidth(len, m).Ok? <==> (m > 0 && len % m == 0) || (m == 0 && len == 0)
    ensures PackedWidth(len, m).Ok? && m > 0 ==> PackedWidth(len, m).value == len / m
    ensures PackedWidth(len, m).Ok? && m == 0 ==> PackedWidth(len, m).value == 0
  {
    if m > 0 {
      assert JavaDiv(len, m) == len / m;
      assert len == m * (len / m) + len % m;
    } else if m < 0 {
      var q := len / (-m);
      assert JavaDiv(len, m) == -q;
      if m * (-q) == len && len > 0 {
        assert q > 0;
      }
    }
  }

  /**
   * The column-packed round trip: when v packs g and `Matrix(v, m)` accepts v
   * and yields h, then h is g, and for m > 0 it has g's column count.
   */
  lemma ColumnPackedRoundTrip(v: seq<real>, g: Grid, h: Grid, m: nat, n: nat, n2: nat)
    requires IsColumnPacking(v, g, m, n)
    requires PackedWidth(|v|, m) == Ok(n2) && IsColumnPacking(v, h, m, n2)
    ensures h == g
    ensures m > 0 ==> n2 == n
  {
    PackedWidthCases(|v|, m);
    if m > 0 {
      PackedDivMod(0, n, m);
      assert n2 == n;
      forall i, j | 0 <= i < m && 0 <= j < n
        ensures h[i][j] == g[i][j]
      {
        assert h[i][j] == PackedAt(v, i, j, m);
      }
      SameEntries(h, g, m, n);
    }
  }

  /** Every packed array of an m-by-n grid is accepted back with the same m. */
  lemma ColumnPackingAccepted(v: seq<real>, g: Grid, m: nat, n: nat)
    requires IsColumnPacking(v, g, m, n)
    ensures PackedWidth(|v|, m) == Ok(if m > 0 then n else 0)
  {
    PackedWidthCases(|v|, m);
    if m > 0 {
      PackedDivMod(0, n, m);
    }
  }

  /** Packing by rows is packing the transpose by columns. */
  lemma RowPackingIsTransposedColumnPacking(v: seq<real>, g: Grid, m: nat, n: nat)
    requires IsShape(g, m, n)
    ensures IsRowPacking(v, g, m, n) <==> IsColumnPacking(v, Transposed(g, m, n), n, m)
  {
    assert m * n == n * m;
  }

  // ---------------------------------------------------------------------
  // The nested loops of the source, each over a whole array.

  /** dst[i][j] := s everywhere. */
  method FillConstant(dst: array2<real>, s: real)
    modifies dst
    ensures Snapshot(dst) == ConstantGrid(dst.Length0, dst.Length1, s)
  {
    var m, n := dst.Length0, dst.Length1;
    for i := 0 to m
      invariant forall i', j' :: 0 <= i' < i && 0 <= j' < n ==> dst[i', j'] == s
    {
      for j := 0 to n
        invariant forall i', j' :: 0 <= i' < i && 0 <= j' < n ==> dst[i', j'] == s
        invariant forall j' :: 0 <= j' < j ==> dst[i, j'] == s
      {
        dst[i, j] := s;
      }
    }
    SameEntries(Snapshot(dst), ConstantGrid(m, n, s), m, n);
  }

  /** dst[i][j] := (i == j ? 1.0 : 0.0) everywhere. */
  method FillIdentity(dst: array2<real>)
    modifies dst
    ensures Snapshot(dst) == IdentityGrid(dst.Length0, dst.Length1)
  {
    var m, n := dst.Length0, dst.Length1;
    for i := 0 to m
      invariant forall i', j' :: 0 <= i' < i && 0 <= j' < n ==> dst[i', j'] == if i' == j' then 1.0 else 0.0
    {
      for j := 0 to n
        invariant forall i', j' :: 0 <= i' < i && 0 <= j' < n ==> dst[i', j'] == if i' == j' then 1.0 else 0.0
        invariant forall j' :: 0 <= j' < j ==> dst[i, j'] == if i == j' then 1.0 else 0.0
      {
        dst[i, j] := if i == j then 1.0 else 0.0;
      }
    }
    SameEntries(Snapshot(dst), IdentityGrid(m, n), m, n);
  }

  /** dst[i][j] := op(src[i][j]) everywhere. */
  method MapInto(src: array2<real>, dst: array2<real>, op: ScalarOp)
    requires src != dst && dst.Length0 == src.Length0 && dst.Length1 == src.Length1
    modifies dst
    ensures Snapshot(dst) == MapGrid(Snapshot(src), src.Length0, src.Length1, op)
  {
    var m, n := src.Length0, src.Length1;
    for i := 0 to m
      invariant forall i', j' :: 0 <= i' < i && 0 <= j' < n ==> dst[i', j'] == ApplyScalar(op, src[i', j'])
    {
      for j := 0 to n
        invariant forall i', j' :: 0 <= i' < i && 0 <= j' < n ==> dst[i', j'] == ApplyScalar(op, src[i', j'])
        invariant forall j' :: 0 <= j' < j ==> dst[i, j'] == ApplyScalar(op, src[i, j'])
      {
        dst[i, j] := ApplyScalar(op, src[i, j]);
      }
    }
    SameEntries(Snapshot(dst), MapGrid(Snapshot(src), m, n, op), m, n);
  }

  /** dst[i][j] := src[i][j] everywhere. */
  method CopyInto(src: array2<real>, dst: array2<real>)
    requires src != dst && dst.Length0 == src.Length0 && dst.Length1 == src.Length1
    modifies dst
    ensures Snapshot(dst) == Snapshot(src)
  {
    var m, n := src.Length0, src.Length1;
    for i := 0 to m
      invariant forall i', j' :: 0 <= i' < i && 0 <= j' < n ==> dst[i', j'] == src[i', j']
    {
      for j := 0 to n
        invariant forall i', j' :: 0 <= i' < i && 0 <= j' < n ==> dst[i', j'] == src[i', j']
        invariant forall j' :: 0 <= j' < j ==> dst[i, j'] == src[i, j']
      {
        dst[i, j] := src[i, j];
      }
    }
    SameEntries(Snapshot(dst), Snapshot(src), m, n);
  }

  /** dst[j][i] := src[i][j] everywhere. */
  method TransposeInto(src: array2<real>, dst: array2<real>)
    requires src != dst && dst.Length0 == src.Length1 && dst.Length1 == src.Length0
    modifies dst
    ensures Snapshot(dst) == Transposed(Snapshot(src), src.Length0, src.Length1)
  {
    var m, n := src.Length0, src.Length1;
    for i := 0 to m
      invariant forall i', j' :: 0 <= i' < i && 0 <= j' < n ==> dst[j', i'] == src[i', j']
    {
      for j := 0 to n
        invariant forall i', j' :: 0 <= i' < i && 0 <= j' < n ==> dst[j', i'] == src[i', j']
        invariant forall j' :: 0 <= j' < j ==> dst[j', i] == src[i, j']
      {
        dst[j, i] := src[i, j];
      }
    }
    SameEntries(Snapshot(dst), Transposed(Snapshot(src), m, n), n, m);
  }

  /** dst[i][j] := op(a[i][j], b[i][j]) everywhere; a and b may be one array. */
  method ZipInto(a: array2<real>, b: array2<real>, dst: array2<real>, op: BinOp)
    requires dst != a && dst != b
    requires b.Length0 == a.Length0 && b.Length1 == a.Length1
    requires dst.Length0 == a.Length0 && dst.Length1 == a.Length1
    modifies dst
    ensures Snapshot(dst) == Zip(Snapshot(a), Snapshot(b), a.Length0, a.Length1, op)
  {
    var m, n := a.Length0, a.Length1;
    for i := 0 to m
      invariant forall i', j' :: 0 <= i' < i && 0 <= j' < n ==> dst[i', j'] == ApplyBin(op, a[i', j'], b[i', j'])
    {
      for j := 0 to n
        invariant forall i', j' :: 0 <= i' < i && 0 <= j' < n ==> dst[i', j'] == ApplyBin(op, a[i', j'], b[i', j'])
        invariant forall j' :: 0 <= j' < j ==> dst[i, j'] == ApplyBin(op, a[i, j'], b[i, j'])
      {
        dst[i, j] := ApplyBin(op, a[i, j], b[i, j]);
      }
    }
    SameEntries(Snapshot(dst), Zip(Snapshot(a), Snapshot(b), m, n, op), m, n);
  }

  /**
   * a[i][j] := op(a[i][j], b[i][j]) everywhere, in row-major order. b may be
   * a itself: each entry of b is read before that entry is overwritten.
   */
  method ZipInPlace(a: array2<real>, b: array2<real>, op: BinOp)
    requires b.Length0 == a.Length0 && b.Length1 == a.Length1
    modifies a
    ensures Snapshot(a) == Zip(old(Snapshot(a)), old(Snapshot(b)), a.Length0, a.Length1, op)
  {
    var m, n := a.Length0, a.Length1;
    for i := 0 to m
      invariant forall i', j' :: 0 <= i' < i && 0 <= j' < n ==> a[i', j'] == ApplyBin(op, old(a[i', j']), old(b[i', j']))
      invariant forall i', j' :: i <= i' < m && 0 <= j' < n ==> a[i', j'] == old(a[i', j']) && b[i', j'] == old(b[i', j'])
    {
      for j := 0 to n
        invariant forall i', j' :: 0 <= i' < i && 0 <= j' < n ==> a[i', j'] == ApplyBin(op, old(a[i', j']), old(b[i', j']))
        invariant forall j' :: 0 <= j' < j ==> a[i, j'] == ApplyBin(op, old(a[i, j']), old(b[i, j']))
        invariant forall j' :: j <= j' < n ==> a[i, j'] == old(a[i, j']) && b[i, j'] == old(b[i, j'])
        invariant forall i', j' :: i < i' < m && 0 <= j' < n ==> a[i', j'] == old(a[i', j']) && b[i', j'] == old(b[i', j'])
      {
        a[i, j] := ApplyBin(op, a[i, j], b[i, j]);
      }
    }
    SameEntries(Snapshot(a), Zip(old(Snapshot(a)), old(Snapshot(b)), m, n, op), m, n);
  }

  /** a[i][j] := op(a[i][j]) everywhere. */
  method MapInPlace(a: array2<real>, op: ScalarOp)
    modifies a
    ensures Snapshot(a) == MapGrid(old(Snapshot(a)), a.Length0, a.Length1, op)
  {
    var m, n := a.Length0, a.Length1;
    for i := 0 to m
      invariant forall i', j' :: 0 <= i' < i && 0 <= j' < n ==> a[i', j'] == ApplyScalar(op, old(a[i', j']))
      invariant forall i', j' :: i <= i' < m && 0 <= j' < n ==> a[i', j'] == old(a[i', j'])
    {
      for j := 0 to n
        invariant forall i', j' :: 0 <= i' < i && 0 <= j' < n ==> a[i', j'] == ApplyScalar(op, old(a[i', j']))
        invariant forall j' :: 0 <= j' < j ==> a[i, j'] == ApplyScalar(op, old(a[i, j']))
        invariant forall i', j' :: i <= i' < m && 0 <= j' < n && (i' > i || j' >= j) ==> a[i', j'] == old(a[i', j'])
      {
        a[i, j] := ApplyScalar(op, a[i, j]);
      }
    }
    SameEntries(Snapshot(a), MapGrid(old(Snapshot(a)), m, n, op), m, n);
  }

  /** dst[i][j] := vals[i + j*m] everywhere. */
  method UnpackInto(vals: seq<real>, dst: array2<real>)
    requires |vals| == dst.Length0 * dst.Length1
    modifies dst
    ensures IsColumnPacking(vals, Snapshot(dst), dst.Length0, dst.Length1)
  {
    var m, n := dst.Length0, dst.Length1;
    for i := 0 to m
      invariant forall i', j' :: 0 <= i' < i && 0 <= j' < n ==> dst[i', j'] == PackedAt(vals, i', j', m)
    {
      for j := 0 to n
        invariant forall i', j' :: 0 <= i' < i && 0 <= j' < n ==> dst[i', j'] == PackedAt(vals, i', j', m)
        invariant forall j' :: 0 <= j' < j ==> dst[i, j'] == PackedAt(vals, i, j', m)
      {
        PackedIndex(i, j, m, n);
        dst[i, j] := vals[i + j * m];
      }
    }
  }

  /** A position (i, j) of an m-row grid packs to the same index as (i', j') only if they are equal. */
  lemma PackedInjective(i: int, j: int, i': int, j': int, m: int)
    requires 0 <= i < m && 0 <= i' < m && 0 <= j && 0 <= j'
    requires i + j * m == i' + j' * m
    ensures i == i' && j == j'
  {
    PackedDivMod(i, j, m);
    PackedDivMod(i', j', m);
  }

  /** A position (i, j) of an n-column grid packs by rows to the same index as (i', j') only if they are equal. */
  lemma RowPackedInjective(i: int, j: int, i': int, j': int, n: int)
    requires 0 <= j < n && 0 <= j' < n && 0 <= i && 0 <= i'
    requires i * n + j == i' * n + j'
    ensures i == i' && j == j'
  {
    assert j + i * n == j' + i' * n;
    PackedInjective(j, i, j', i', n);
  }

  /** vals[i + j*m] := src[i][j] everywhere. */
  method ColumnPackInto(src: array2<real>, vals: array<real>)
    requires vals.Length == src.Length0 * src.Length1
    modifies vals
    ensures IsColumnPacking(vals[..], Snapshot(src), src.Length0, src.Length1)
  {
    var m, n := src.Length0, src.Length1;
    for i := 0 to m
      invariant forall i', j' :: 0 <= i' < i && 0 <= j' < n ==> PackedAt(vals[..], i', j', m) == src[i', j']
    {
      for j := 0 to n
        invariant forall i', j' :: 0 <= i' < i && 0 <= j' < n ==> PackedAt(vals[..], i', j', m) == src[i', j']
        invariant forall j' :: 0 <= j' < j ==> PackedAt(vals[..], i, j', m) == src[i, j']
      {
        PackedIndex(i, j, m, n);
        ghost var before := vals[..];
        vals[i + j * m] := src[i, j];
        forall i', j' | 0 <= i' < m && 0 <= j' < n && (i' != i || j' != j)
          ensures PackedAt(vals[..], i', j', m) == PackedAt(before, i', j', m)
        {
          if i' + j' * m == i + j * m {
            PackedInjective(i, j, i', j', m);
          }
        }
      }
    }
  }

  /** vals[i*n + j] := src[i][j] everywhere. */
  method RowPackInto(src: array2<real>, vals: array<real>)
    requires vals.Length == src.Length0 * src.Length1
    modifies vals
    ensures IsRowPacking(vals[..], Snapshot(src), src.Length0, src.Length1)
  {
    var m, n := src.Length0, src.Length1;
    for i := 0 to m
      invariant forall i', j' :: 0 <= i' < i && 0 <= j' < n ==> PackedAt(vals[..], j', i', n) == src[i', j']
    {
      for j := 0 to n
        invariant forall i', j' :: 0 <= i' < i && 0 <= j' < n ==> PackedAt(vals[..], j', i', n) == src[i', j']
        invariant forall j' :: 0 <= j' < j ==> PackedAt(vals[..], j', i, n) == src[i, j']
      {
        PackedIndex(j, i, n, m);
        assert j + i * n == i * n + j && m * n == n * m;
        ghost var before := vals[..];
        vals[i * n + j] := src[i, j];
        forall i', j' | 0 <= i' < m && 0 <= j' < n && (i' != i || j' != j)
          ensures PackedAt(vals[..], j', i', n) == PackedAt(before, j', i', n)
        {
          if j' + i' * n == j + i * n {
            PackedInjective(j, i, j', i', n);
          }
        }
      }
    }
  }

  // ---------------------------------------------------------------------

  /** `Matrix`: the entry array A has m rows and n columns. */
  class Matrix {
    const m: nat
    const n: nat
    /** The entries; `getArray()` hands this array out, so matrices may share it. */
    const A: array2<real>

    ghost predicate Valid()
    {
      A.Length0 == m && A.Length1 == n
    }

    function Entries(): Grid
      reads A
    {
      Snapshot(A)
    }

    /** `Matrix(m, n)`: an m-by-n matrix of zeros. */
    constructor (m: nat, n: nat)
      ensures this.m == m && this.n == n && Valid() && fresh(A)
      ensures Entries() == ConstantGrid(m, n, 0.0)
    {
      this.m, this.n := m, n;
      A := new real[m, n]((i, j) => 0.0);
      new;
      SameEntries(Entries(), ConstantGrid(m, n, 0.0), m, n);
    }

    /** `Matrix(m, n, s)`: an m-by-n matrix filled with s. */
    constructor Filled(m: nat, n: nat, s: real)
      ensures this.m == m && this.n == n && Valid() && fresh(A)
      ensures Entries() == ConstantGrid(m, n, s)
    {
      this.m, this.n := m, n;
      A := new real[m, n];
      new;
      FillConstant(A, s);
    }

    /**
     * `Matrix(A, m, n)`: wraps the given array without copying it and takes
     * the dimensions unchecked; the matrix is well formed only when they
     * are the array's.
     */
    constructor Wrap(A: array2<real>, m: nat, n: nat)
      ensures this.A == A && this.m == m && this.n == n
      ensures Valid() <==> A.Length0 == m && A.Length1 == n
    {
      this.A := A;
      this.m, this.n := m, n;
    }

    /**
     * `Matrix(double[][] A)`: the row count is the number of rows and the
     * column count the length of the first row; an empty array has no first
     * row, and every row must have that length.
     */
    static method FromRows(rows: seq<seq<real>>) returns (r: Result<Matrix>)
      ensures r.Ok? <==> |rows| > 0 && IsShape(rows, |rows|, |rows[0]|)
      ensures |rows| == 0 ==> r == Err(OutOfBounds(0, 0))
      ensures |rows| > 0 && r.Err? ==> r == Err(IllegalArgument("All rows must have the same length."))
      ensures r.Ok? ==> fresh(r.value) && fresh(r.value.A) && r.value.Valid() && r.value.Entries() == rows
    {
      if |rows| == 0 {
        return Err(OutOfBounds(0, 0));
      }
      var m, n := |rows|, |rows[0]|;
      for i := 0 to m
        invariant forall k :: 0 <= k < i ==> |rows[k]| == n
      {
        if |rows[i]| != n {
          return Err(IllegalArgument("All rows must have the same length."));
        }
      }
      var a := new real[m, n]((i, j) requires 0 <= i < |rows| && 0 <= j < |rows[i]| => rows[i][j]);
      var X := new Matrix.Wrap(a, m, n);
      SameEntries(X.Entries(), rows, m, n);
      r := Ok(X);
    }

    /**
     * `Matrix(vals, m)`: vals holds the entries column by column; the column
     * count is vals.length / m (0 when m is 0).
     */
    static method FromColumnPacked(vals: seq<real>, m: int) returns (r: Result<Matrix>)
      ensures r.Ok? <==> PackedWidth(|vals|, m).Ok?
      ensures r.Err? ==> r.error == PackedWidth(|vals|, m).error
      ensures r.Ok? ==> fresh(r.value) && fresh(r.value.A) && r.value.Valid()
      ensures r.Ok? ==> r.value.m == m && r.value.n == PackedWidth(|vals|, m).value
      ensures r.Ok? ==> IsColumnPacking(vals, r.value.Entries(), r.value.m, r.value.n)
    {
      var w := PackedWidth(|vals|, m);
      if w.Err? {
        return Err(w.error);
      }
      var X := new Matrix(m, w.value);
      UnpackInto(vals, X.A);
      r := Ok(X);
    }

    /** `copy()`: a new matrix with its own array and the same entries. */
    method Copy() returns (X: Matrix)
      requires Valid()
      ensures fresh(X) && fresh(X.A) && X.Valid() && X.m == m && X.n == n
      ensures X.Entries() == Entries()
    {
      X := new Matrix(m, n);
      CopyInto(A, X.A);
    }

    /** `getArrayCopy()`: a new array with the same entries. */
    method GetArrayCopy() returns (C: array2<real>)
      requires Valid()
      ensures fresh(C) && C.Length0 == m && C.Length1 == n
      ensures Snapshot(C) == Entries()
    {
      C := new real[m, n];
      CopyInto(A, C);
    }

    /** `getColumnPackedCopy()`: entry (i, j) at i + j*m. */
    method ColumnPackedCopy() returns (vals: array<real>)
      requires Valid()
      ensures fresh(vals)
      ensures IsColumnPacking(vals[..], Entries(), m, n)
    {
      vals := new real[m * n](_ => 0.0);
      ColumnPackInto(A, vals);
    }

    /** `getRowPackedCopy()`: entry (i, j) at i*n + j. */
    method RowPackedCopy() returns (vals: array<real>)
      requires Valid()
      ensures fresh(vals)
      ensures IsRowPacking(vals[..], Entries(), m, n)
    {
      vals := new real[m * n](_ => 0.0);
      RowPackInto(A, vals);
    }

    /** `get(i, j)`: A[i][j], with the row index checked first, as the JVM reads A[i] before A[i][j]. */
    function Get(i: int, j: int): (r: Result<real>)
      requires Valid()
      reads A
      ensures r.Ok? <==> 0 <= i < m && 0 <= j < n
      ensures r.Ok? ==> r.value == Entries()[i][j]
      ensures r.Err? ==> r.error == if 0 <= i < m then OutOfBounds(j, n) else OutOfBounds(i, m)
    {
      if !(0 <= i < m) then Err(OutOfBounds(i, m))
      else if !(0 <= j < n) then Err(OutOfBounds(j, n))
      else Ok(A[i, j])
    }
  
    /**
     * `getMatrix(int[] r, int[] c)`: the rows r and columns c, in that order.
     * Any index out of range fails with "Submatrix indices"; an empty list
     * reads nothing.
     */
    method GetMatrixAt(rows: seq<int>, cols: seq<int>) returns (r: Result<Matrix>)
      requires Valid()
      ensures r.Ok? <==> SubIndicesOk(rows, cols, m, n)
      ensures r.Err? ==> r.error == IndexOutOfBounds("Submatrix indices")
      ensures r.Ok? ==> fresh(r.value) && fresh(r.value.A) && r.value.Valid()
      ensures r.Ok? ==> r.value.m == |rows| && r.value.n == |cols|
      ensures r.Ok? ==> r.value.Entries() == Select(Entries(), rows, cols, m, n)
    {
      var X := new Matrix(|rows|, |cols|);
      var B := X.A;
      for a := 0 to |rows|
        invariant |cols| > 0 ==> forall a' :: 0 <= a' < a ==> 0 <= rows[a'] < m
        invariant |cols| > 0 && a > 0 ==> AllIn(cols, n)
        invariant forall a', b' :: 0 <= a' < a && 0 <= b' < |cols| ==> B[a', b'] == A[rows[a'], cols[b']]
      {
        var ok := SelectRowInto(A, B, a, rows[a], cols);
        if !ok {
          return Err(IndexOutOfBounds("Submatrix indices"));
        }
      }
      SameEntries(X.Entries(), Select(Entries(), rows, cols, m, n), |rows|, |cols|);
      r := Ok(X);
    }

    /**
     * `getMatrix(i0, i1, j0, j1)`: the (i1-i0+1)-by-(j1-j0+1) block whose
     * (a, b) entry is A[i0+a][j0+b]. A negative size fails on allocation.
     */
    method GetMatrix(i0: int, i1: int, j0: int, j1: int) returns (r: Result<Matrix>)
      requires Valid()
      ensures i1 - i0 + 1 < 0 || j1 - j0 + 1 < 0 ==> r == Err(NegativeArraySize)
      ensures i1 - i0 + 1 >= 0 && j1 - j0 + 1 >= 0 ==>
        (r.Ok? <==> i1 < i0 || j1 < j0 || (0 <= i0 && i1 < m && 0 <= j0 && j1 < n))
      ensures i1 - i0 + 1 >= 0 && j1 - j0 + 1 >= 0 && r.Err? ==> r.error == IndexOutOfBounds("Submatrix indices")
      ensures r.Ok? ==> fresh(r.value) && fresh(r.value.A) && r.value.Valid() && r.value.m == i1 - i0 + 1 && r.value.n == j1 - j0 + 1
      ensures r.Ok? ==> forall a, b :: 0 <= a < r.value.m && 0 <= b < r.value.n ==>
        r.value.Entries()[a][b] == Entries()[i0 + a][j0 + b]
    {
      if i1 - i0 + 1 < 0 || j1 - j0 + 1 < 0 {
        return Err(NegativeArraySize);
      }
      RangeAllIn(i0, i1, m);
      RangeAllIn(j0, j1, n);
      r := GetMatrixAt(Range(i0, i1), Range(j0, j1));
    }

    /** `getMatrix(i0, i1, int[] c)`: rows i0..i1, columns c. */
    method GetMatrixRowRange(i0: int, i1: int, cols: seq<int>) returns (r: Result<Matrix>)
      requires Valid()
      ensures i1 - i0 + 1 < 0 ==> r == Err(NegativeArraySize)
      ensures i1 - i0 + 1 >= 0 ==> (r.Ok? <==> SubIndicesOk(Range(i0, i1), cols, m, n))
      ensures i1 - i0 + 1 >= 0 && r.Err? ==> r.error == IndexOutOfBounds("Submatrix indices")
      ensures r.Ok? ==> fresh(r.value) && fresh(r.value.A) && r.value.Valid() && r.value.m == i1 - i0 + 1 && r.value.n == |cols|
      ensures r.Ok? ==> r.value.Entries() == Select(Entries(), Range(i0, i1), cols, m, n)
    {
      if i1 - i0 + 1 < 0 {
        return Err(NegativeArraySize);
      }
      r := GetMatrixAt(Range(i0, i1), cols);
    }

    /** `getMatrix(int[] r, j0, j1)`: rows r, columns j0..j1. */
    method GetMatrixColumnRange(rows: seq<int>, j0: int, j1: int) returns (r: Result<Matrix>)
      requires Valid()
      ensures j1 - j0 + 1 < 0 ==> r == Err(NegativeArraySize)
      ensures j1 - j0 + 1 >= 0 ==> (r.Ok? <==> SubIndicesOk(rows, Range(j0, j1), m, n))
      ensures j1 - j0 + 1 >= 0 && r.Err? ==> r.error == IndexOutOfBounds("Submatrix indices")
      ensures r.Ok? ==> fresh(r.value) && fresh(r.value.A) && r.value.Valid() && r.value.m == |rows| && r.value.n == j1 - j0 + 1
      ensures r.Ok? ==> r.value.Entries() == Select(Entries(), rows, Range(j0, j1), m, n)
    {
      if j1 - j0 + 1 < 0 {
        return Err(NegativeArraySize);
      }
      r := GetMatrixAt(rows, Range(j0, j1));
    }

    /** `set(i, j, s)`: only entry (i, j) changes. */
    method Set(i: int, j: int, s: real) returns (r: Result<()>)
      requires Valid()
      modifies A
      ensures r.Ok? <==> 0 <= i < m && 0 <= j < n
      ensures r.Ok? ==> Entries() == old(Entries())[i := old(Entries())[i][j := s]]
      ensures r.Err? ==> Entries() == old(Entries())
      ensures r.Err? ==> r.error == if 0 <= i < m then OutOfBounds(j, n) else OutOfBounds(i, m)
    {
      if !(0 <= i < m) {
        return Err(OutOfBounds(i, m));
      }
      if !(0 <= j < n) {
        return Err(OutOfBounds(j, n));
      }
      A[i, j] := s;
      SameEntries(Entries(), old(Entries())[i := old(Entries())[i][j := s]], m, n);
      r := Ok(());
    }

    /**
     * One row of `setMatrix(int[] r, int[] c, X)`: writes X[a][b] at
     * (r[a], c[b]) for each b in turn, checking r[a], then X, then c[b].
     */
    method SetRow(a: int, rows: seq<int>, cols: seq<int>, X: Matrix, ghost g: Grid, ghost x: Grid) returns (r: Result<()>)
      requires Valid() && X.Valid() && X.A != A && x == X.Entries() && IsShape(g, m, n)
      requires 0 <= a < |rows| && Covers(x, a, |cols|)
      requires forall i, j :: 0 <= i < m && 0 <= j < n ==> A[i, j] == WrittenAt(g, rows, cols, x, a, i, j)
      modifies A
      ensures r.Ok? ==> |cols| == 0 || (0 <= rows[a] < m && a < X.m && AllIn(cols, n) && |cols| <= X.n)
      ensures r.Ok? ==> Covers(x, a + 1, |cols|)
      ensures r.Ok? ==> forall i, j :: 0 <= i < m && 0 <= j < n ==> A[i, j] == WrittenAt(g, rows, cols, x, a + 1, i, j)
      ensures r.Err? ==> r.error == IndexOutOfBounds("Submatrix indices") && |cols| > 0
      ensures r.Err? ==> !(0 <= rows[a] < m) || a >= X.m || !AllIn(cols, n) || |cols| > X.n
      ensures r.Err? ==> forall i, j :: 0 <= i < m && 0 <= j < n && !(i in rows && j in cols) ==> A[i, j] == g[i][j]
    {
      assert IsShape(x, X.m, X.n);
      for b := 0 to |cols|
        invariant forall b' :: 0 <= b' < b ==> 0 <= cols[b'] < n && b' < X.n
        invariant b > 0 ==> 0 <= rows[a] < m && a < X.m && a < |x| && b <= |x[a]|
        invariant forall i, j :: 0 <= i < m && 0 <= j < n ==> A[i, j] == RowPartlyWritten(g, rows, cols, x, a, b, i, j)
      {
        if !(0 <= rows[a] < m) || !(a < X.m && b < X.n) || !(0 <= cols[b] < n) {
          forall i, j | 0 <= i < m && 0 <= j < n && !(i in rows && j in cols)
            ensures A[i, j] == g[i][j]
          {
            RowWriteUntouched(g, rows, cols, x, a, b, i, j);
          }
          return Err(IndexOutOfBounds("Submatrix indices"));
        }
        A[rows[a], cols[b]] := X.A[a, b];
        forall i, j | 0 <= i < m && 0 <= j < n
          ensures A[i, j] == RowPartlyWritten(g, rows, cols, x, a, b + 1, i, j)
        {
          RowWriteStep(g, rows, cols, x, a, b, i, j);
        }
      }
      forall i, j | 0 <= i < m && 0 <= j < n
        ensures A[i, j] == WrittenAt(g, rows, cols, x, a + 1, i, j)
      {
        RowWriteDone(g, rows, cols, x, a, i, j);
      }
      r := Ok(());
    }

    /**
     * `setMatrix(int[] r, int[] c, X)`: writes X[a][b] at (r[a], c[b]) in
     * row-major order, so where an index repeats the last write wins. A bad
     * index stops it with "Submatrix indices", leaving the writes made so far;
     * entries outside the target rows and columns never change.
     */
    method SetMatrixAt(rows: seq<int>, cols: seq<int>, X: Matrix) returns (r: Result<()>)
      requires Valid() && X.Valid() && X.A != A
      modifies A
      ensures r.Ok? <==> SubIndicesOk(rows, cols, m, n) && Covers(X.Entries(), |rows|, |cols|)
      ensures r.Err? ==> r.error == IndexOutOfBounds("Submatrix indices")
      ensures r.Ok? ==> Entries() == Overwritten(old(Entries()), rows, cols, X.Entries(), m, n)
      ensures forall i, j :: 0 <= i < m && 0 <= j < n && !(i in rows && j in cols) ==> A[i, j] == old(A[i, j])
    {
      ghost var g := Entries();
      ghost var x := X.Entries();
      for a := 0 to |rows|
        invariant Covers(x, a, |cols|)
        invariant |cols| == 0 || forall a' :: 0 <= a' < a ==> 0 <= rows[a'] < m
        invariant a == 0 || |cols| == 0 || AllIn(cols, n)
        invariant forall i, j :: 0 <= i < m && 0 <= j < n ==> A[i, j] == WrittenAt(g, rows, cols, x, a, i, j)
      {
        r := SetRow(a, rows, cols, X, g, x);
        if r.Err? {
          if !(0 <= rows[a] < m) {
            assert !AllIn(rows, m);
          } else if !AllIn(cols, n) {
            assert |rows| > 0;
          } else if a >= X.m {
            assert |rows| > |x|;
          } else {
            assert |cols| > |x[0]|;
          }
          return;
        }
      }
      SameEntries(Entries(), Overwritten(g, rows, cols, x, m, n), m, n);
      r := Ok(());
    }

    /**
     * `setMatrix(i0, i1, j0, j1, X)`: on success entry (i, j) of the rectangle
     * becomes X[i-i0][j-j0]; entries outside it never change.
     */
    method SetMatrix(i0: int, i1: int, j0: int, j1: int, X: Matrix) returns (r: Result<()>)
      requires Valid() && X.Valid() && X.A != A
      modifies A
      ensures r.Ok? <==> (i1 < i0 || j1 < j0 ||
        (0 <= i0 && i1 < m && 0 <= j0 && j1 < n && i1 - i0 + 1 <= X.m && j1 - j0 + 1 <= X.n))
      ensures r.Err? ==> r.error == IndexOutOfBounds("Submatrix indices")
      ensures r.Ok? ==> forall i, j :: 0 <= i < m && 0 <= j < n ==>
        Entries()[i][j] == if i0 <= i <= i1 && j0 <= j <= j1 then X.Entries()[i - i0][j - j0] else old(Entries())[i][j]
      ensures forall i, j :: 0 <= i < m && 0 <= j < n && !(i0 <= i <= i1 && j0 <= j <= j1) ==> A[i, j] == old(A[i, j])
    {
      RangeAllIn(i0, i1, m);
      RangeAllIn(j0, j1, n);
      CoversShape(X.Entries(), X.m, X.n, |Range(i0, i1)|, |Range(j0, j1)|);
      ghost var g := Entries();
      r := SetMatrixAt(Range(i0, i1), Range(j0, j1), X);
      forall i, j | 0 <= i < m && 0 <= j < n
        ensures (i in Range(i0, i1) && j in Range(j0, j1)) <==> (i0 <= i <= i1 && j0 <= j <= j1)
      {
        RangeMembers(i0, i1, i);
        RangeMembers(j0, j1, j);
      }
      if r.Ok? {
        forall i, j | 0 <= i < m && 0 <= j < n
          ensures Entries()[i][j] == if i0 <= i <= i1 && j0 <= j <= j1 then X.Entries()[i - i0][j - j0] else g[i][j]
        {
          OverwriteRectangle(g, X.Entries(), m, n, i0, i1, j0, j1, i, j);
        }
      }
    }

    /** `setMatrix(i0, i1, int[] c, X)`: rows i0..i1, columns c. */
    method SetMatrixRowRange(i0: int, i1: int, cols: seq<int>, X: Matrix) returns (r: Result<()>)
      requires Valid() && X.Valid() && X.A != A
      modifies A
      ensures r.Ok? <==> SubIndicesOk(Range(i0, i1), cols, m, n) && Covers(X.Entries(), |Range(i0, i1)|, |cols|)
      ensures r.Err? ==> r.error == IndexOutOfBounds("Submatrix indices")
      ensures r.Ok? ==> Entries() == Overwritten(old(Entries()), Range(i0, i1), cols, X.Entries(), m, n)
      ensures forall i, j :: 0 <= i < m && 0 <= j < n && !(i in Range(i0, i1) && j in cols) ==> A[i, j] == old(A[i, j])
    {
      r := SetMatrixAt(Range(i0, i1), cols, X);
    }

    /** `setMatrix(int[] r, j0, j1, X)`: rows r, columns j0..j1. */
    method SetMatrixColumnRange(rows: seq<int>, j0: int, j1: int, X: Matrix) returns (r: Result<()>)
      requires Valid() && X.Valid() && X.A != A
      modifies A
      ensures r.Ok? <==> SubIndicesOk(rows, Range(j0, j1), m, n) && Covers(X.Entries(), |rows|, |Range(j0, j1)|)
      ensures r.Err? ==> r.error == IndexOutOfBounds("Submatrix indices")
      ensures r.Ok? ==> Entries() == Overwritten(old(Entries()), rows, Range(j0, j1), X.Entries(), m, n)
      ensures forall i, j :: 0 <= i < m && 0 <= j < n && !(i in rows && j in Range(j0, j1)) ==> A[i, j] == old(A[i, j])
    {
      r := SetMatrixAt(rows, Range(j0, j1), X);
    }
  
    /** `checkMatrixDimensions(B)`: B must have this matrix's shape. */
    function CheckMatrixDimensions(B: Matrix): (r: Result<()>)
      ensures r.Ok? <==> B.m == m && B.n == n
      ensures r.Err? ==> r.error == IllegalArgument("Matrix dimensions must agree.")
    {
      if B.m != m || B.n != n then Err(IllegalArgument("Matrix dimensions must agree.")) else Ok(())
    }

    /** `transpose()`: the n-by-m matrix with C[j][i] = A[i][j]. */
    method Transpose() returns (X: Matrix)
      requires Valid()
      ensures fresh(X) && fresh(X.A) && X.Valid() && X.m == n && X.n == m
      ensures X.Entries() == Transposed(Entries(), m, n)
    {
      X := new Matrix(n, m);
      TransposeInto(A, X.A);
    }

    /** `uminus()`: -A. */
    method Uminus() returns (X: Matrix)
      requires Valid()
      ensures fresh(X) && fresh(X.A) && X.Valid() && X.m == m && X.n == n
      ensures X.Entries() == MapGrid(Entries(), m, n, Negate)
    {
      X := new Matrix(m, n);
      MapInto(A, X.A, Negate);
    }

    /** `times(s)`: s*A. */
    method TimesScalar(s: real) returns (X: Matrix)
      requires Valid()
      ensures fresh(X) && fresh(X.A) && X.Valid() && X.m == m && X.n == n
      ensures X.Entries() == MapGrid(Entries(), m, n, ScaleBy(s))
    {
      X := new Matrix(m, n);
      MapInto(A, X.A, ScaleBy(s));
    }

    /** `timesEquals(s)`: A := s*A, returning this matrix. */
    method TimesEquals(s: real) returns (X: Matrix)
      requires Valid()
      modifies A
      ensures X == this
      ensures Entries() == MapGrid(old(Entries()), m, n, ScaleBy(s))
    {
      MapInPlace(A, ScaleBy(s));
      X := this;
    }

    /** The entry-wise combination shared by `plus`, `minus` and `arrayTimes`. */
    method Combine(B: Matrix, op: BinOp) returns (r: Result<Matrix>)
      requires Valid() && B.Valid()
      ensures r.Ok? <==> B.m == m && B.n == n
      ensures r.Err? ==> r.error == IllegalArgument("Matrix dimensions must agree.")
      ensures r.Ok? ==> fresh(r.value) && fresh(r.value.A) && r.value.Valid() && r.value.m == m && r.value.n == n
      ensures r.Ok? ==> r.value.Entries() == Zip(Entries(), B.Entries(), m, n, op)
    {
      var c := CheckMatrixDimensions(B);
      if c.Err? {
        return Err(c.error);
      }
      var X := new Matrix(m, n);
      ZipInto(A, B.A, X.A, op);
      r := Ok(X);
    }

    /** The in-place entry-wise combination shared by the `*Equals` methods. */
    method CombineInPlace(B: Matrix, op: BinOp) returns (r: Result<Matrix>)
      requires Valid() && B.Valid()
      modifies A
      ensures r.Ok? <==> B.m == m && B.n == n
      ensures r.Err? ==> r.error == IllegalArgument("Matrix dimensions must agree.") && Entries() == old(Entries())
      ensures r.Ok? ==> r.value == this && Entries() == Zip(old(Entries()), old(B.Entries()), m, n, op)
    {
      var c := CheckMatrixDimensions(B);
      if c.Err? {
        return Err(c.error);
      }
      ZipInPlace(A, B.A, op);
      r := Ok(this);
    }

    /** `plus(B)`: A + B. */
    method Plus(B: Matrix) returns (r: Result<Matrix>)
      requires Valid() && B.Valid()
      ensures r.Ok? <==> B.m == m && B.n == n
      ensures r.Err? ==> r.error == IllegalArgument("Matrix dimensions must agree.")
      ensures r.Ok? ==> fresh(r.value) && fresh(r.value.A) && r.value.Valid() && r.value.m == m && r.value.n == n
      ensures r.Ok? ==> r.value.Entries() == Zip(Entries(), B.Entries(), m, n, Add)
    {
      r := Combine(B, Add);
    }

    /** `plusEquals(B)`: A := A + B; B may be this matrix. */
    method PlusEquals(B: Matrix) returns (r: Result<Matrix>)
      requires Valid() && B.Valid()
      modifies A
      ensures r.Ok? <==> B.m == m && B.n == n
      ensures r.Err? ==> r.error == IllegalArgument("Matrix dimensions must agree.") && Entries() == old(Entries())
      ensures r.Ok? ==> r.value == this && Entries() == Zip(old(Entries()), old(B.Entries()), m, n, Add)
    {
      r := CombineInPlace(B, Add);
    }

    /** `minus(B)`: A - B. */
    method Minus(B: Matrix) returns (r: Result<Matrix>)
      requires Valid() && B.Valid()
      ensures r.Ok? <==> B.m == m && B.n == n
      ensures r.Err? ==> r.error == IllegalArgument("Matrix dimensions must agree.")
      ensures r.Ok? ==> fresh(r.value) && fresh(r.value.A) && r.value.Valid() && r.value.m == m && r.value.n == n
      ensures r.Ok? ==> r.value.Entries() == Zip(Entries(), B.Entries(), m, n, Sub)
    {
      r := Combine(B, Sub);
    }

    /** `minusEquals(B)`: A := A - B; B may be this matrix. */
    method MinusEquals(B: Matrix) returns (r: Result<Matrix>)
      requires Valid() && B.Valid()
      modifies A
      ensures r.Ok? <==> B.m == m && B.n == n
      ensures r.Err? ==> r.error == IllegalArgument("Matrix dimensions must agree.") && Entries() == old(Entries())
      ensures r.Ok? ==> r.value == this && Entries() == Zip(old(Entries()), old(B.Entries()), m, n, Sub)
    {
      r := CombineInPlace(B, Sub);
    }

    /** `arrayTimes(B)`: the entry-wise product. */
    method ArrayTimes(B: Matrix) returns (r: Result<Matrix>)
      requires Valid() && B.Valid()
      ensures r.Ok? <==> B.m == m && B.n == n
      ensures r.Err? ==> r.error == IllegalArgument("Matrix dimensions must agree.")
      ensures r.Ok? ==> fresh(r.value) && fresh(r.value.A) && r.value.Valid() && r.value.m == m && r.value.n == n
      ensures r.Ok? ==> r.value.Entries() == Zip(Entries(), B.Entries(), m, n, Mul)
    {
      r := Combine(B, Mul);
    }

    /** `arrayTimesEquals(B)`: A := the entry-wise product; B may be this matrix. */
    method ArrayTimesEquals(B: Matrix) returns (r: Result<Matrix>)
      requires Valid() && B.Valid()
      modifies A
      ensures r.Ok? <==> B.m == m && B.n == n
      ensures r.Err? ==> r.error == IllegalArgument("Matrix dimensions must agree.") && Entries() == old(Entries())
      ensures r.Ok? ==> r.value == this && Entries() == Zip(old(Entries()), old(B.Entries()), m, n, Mul)
    {
      r := CombineInPlace(B, Mul);
    }

    /**
     * `times(B)`: the m-by-B.n product. Column j of B is copied out once and
     * each row of A is multiplied against it, summing k = 0 .. n-1 in order.
     */
    method Times(B: Matrix) returns (r: Result<Matrix>)
      requires Valid() && B.Valid()
      ensures r.Ok? <==> B.m == n
      ensures r.Err? ==> r.error == IllegalArgument("Matrix inner dimensions must agree.")
      ensures r.Ok? ==> fresh(r.value) && fresh(r.value.A) && r.value.Valid() && r.value.m == m && r.value.n == B.n
      ensures r.Ok? ==> r.value.Entries() == Product(Entries(), B.Entries(), m, n, B.n)
    {
      if B.m != n {
        return Err(IllegalArgument("Matrix inner dimensions must agree."));
      }
      var X := new Matrix(m, B.n);
      ProductInto(A, B.A, X.A);
      r := Ok(X);
    }

    /** `trace()`: the sum of the diagonal entries A[i][i] for i < min(m, n). */
    method Trace() returns (t: real)
      requires Valid()
      ensures t == DiagSum(Entries(), if m < n then m else n)
    {
      t := 0.0;
      var k := if m < n then m else n;
      for i := 0 to k
        invariant t == DiagSum(Entries(), i)
      {
        t := t + A[i, i];
      }
    }

    /** `identity(m, n)`: 1.0 exactly where i == j. */
    static method Identity(m: nat, n: nat) returns (X: Matrix)
      ensures fresh(X) && fresh(X.A) && X.Valid() && X.m == m && X.n == n
      ensures X.Entries() == IdentityGrid(m, n)
    {
      X := new Matrix(m, n);
      FillIdentity(X.A);
    }

    /**
     * `vectorToMatrix(vector)`: the one-column matrix of the vector, built
     * through `Matrix(double[][])`, so an empty vector has no first row.
     */
    static method VectorToMatrix(v: seq<real>) returns (r: Result<Matrix>)
      ensures r.Ok? <==> |v| > 0
      ensures r.Err? ==> r.error == OutOfBounds(0, 0)
      ensures r.Ok? ==> fresh(r.value) && fresh(r.value.A) && r.value.Valid() && r.value.m == |v| && r.value.n == 1
      ensures r.Ok? ==> forall i :: 0 <= i < |v| ==> r.value.Entries()[i] == [v[i]]
    {
      var rows := seq(|v|, i requires 0 <= i < |v| => [v[i]]);
      r := FromRows(rows);
    }
  }

  /**
   * dst[a][b] := src[row][cols[b]] for every b, the inner loop of
   * `getMatrix(r, c)`; ok is false when an index leaves src.
   */
  method SelectRowInto(src: array2<real>, dst: array2<real>, a: int, row: int, cols: seq<int>) returns (ok: bool)
    requires src != dst && 0 <= a < dst.Length0 && dst.Length1 == |cols|
    modifies dst
    ensures ok <==> |cols| == 0 || (0 <= row < src.Length0 && AllIn(cols, src.Length1))
    ensures ok ==> forall b :: 0 <= b < |cols| ==> dst[a, b] == src[row, cols[b]]
    ensures forall i, j :: 0 <= i < dst.Length0 && 0 <= j < dst.Length1 && i != a ==> dst[i, j] == old(dst[i, j])
  {
    for b := 0 to |cols|
      invariant b > 0 ==> 0 <= row < src.Length0
      invariant forall b' :: 0 <= b' < b ==> 0 <= cols[b'] < src.Length1
      invariant forall b' :: 0 <= b' < b ==> dst[a, b'] == src[row, cols[b']]
      invariant forall i, j :: 0 <= i < dst.Length0 && 0 <= j < dst.Length1 && i != a ==> dst[i, j] == old(dst[i, j])
    {
      if !(0 <= row < src.Length0 && 0 <= cols[b] < src.Length1) {
        return false;
      }
      dst[a, b] := src[row, cols[b]];
    }
    ok := true;
  }

  /** col[k] := src[k][j] for every k: column j of src. */
  method ColumnInto(src: array2<real>, j: int, col: array<real>)
    requires 0 <= j < src.Length1 && col.Length == src.Length0
    modifies col
    ensures forall k :: 0 <= k < col.Length ==> col[k] == src[k, j]
  {
    for k := 0 to col.Length
      invariant forall k' :: 0 <= k' < k ==> col[k'] == src[k', j]
    {
      col[k] := src[k, j];
    }
  }

  /** The dot product of row i of a with col, summed k = 0 .. n-1 in order. */
  method RowDot(a: array2<real>, i: int, col: array<real>, ghost g: Grid, ghost h: Grid, ghost j: int) returns (s: real)
    requires 0 <= i < a.Length0 && col.Length == a.Length1
    requires g == Snapshot(a) && |h| == a.Length1
    requires 0 <= j && forall k :: 0 <= k < |h| ==> j < |h[k]|
    requires forall k :: 0 <= k < col.Length ==> col[k] == h[k][j]
    ensures s == Dot(g, h, i, j, a.Length1)
  {
    s := 0.0;
    for k := 0 to a.Length1
      invariant s == Dot(g, h, i, j, k)
    {
      s := s + a[i, k] * col[k];
    }
  }

  /** c := a * b, one column of b at a time (the loop of `times(B)`). */
  method ProductInto(a: array2<real>, b: array2<real>, c: array2<real>)
    requires c != a && c != b
    requires a.Length1 == b.Length0 && c.Length0 == a.Length0 && c.Length1 == b.Length1
    modifies c
    ensures Snapshot(c) == Product(Snapshot(a), Snapshot(b), a.Length0, a.Length1, b.Length1)
  {
    var m, p, n := a.Length0, a.Length1, b.Length1;
    ghost var g, h := Snapshot(a), Snapshot(b);
    var col := new real[p];
    for j := 0 to n
      invariant forall i, j' :: 0 <= i < m && 0 <= j' < j ==> c[i, j'] == Dot(g, h, i, j', p)
    {
      ColumnInto(b, j, col);
      ProductColumn(a, col, c, g, h, j);
    }
    SameEntries(Snapshot(c), Product(g, h, m, p, n), m, n);
  }

  /** Column j of c := row i of a times col, for every row i; other columns unchanged. */
  method ProductColumn(a: array2<real>, col: array<real>, c: array2<real>, ghost g: Grid, ghost h: Grid, j: int)
    requires c != a && g == Snapshot(a) && |h| == a.Length1 && c.Length0 == a.Length0
    requires 0 <= j < c.Length1 && forall k :: 0 <= k < |h| ==> j < |h[k]|
    requires col.Length == a.Length1 && forall k :: 0 <= k < col.Length ==> col[k] == h[k][j]
    modifies c
    ensures forall i :: 0 <= i < c.Length0 ==> c[i, j] == Dot(g, h, i, j, a.Length1)
    ensures forall i, j' :: 0 <= i < c.Length0 && 0 <= j' < c.Length1 && j' != j ==> c[i, j'] == old(c[i, j'])
  {
    for i := 0 to c.Length0
      invariant forall i' :: 0 <= i' < i ==> c[i', j] == Dot(g, h, i', j, a.Length1)
      invariant forall i', j' :: 0 <= i' < c.Length0 && 0 <= j' < c.Length1 && j' != j ==> c[i', j'] == old(c[i', j'])
    {
      var s := RowDot(a, i, col, g, h, j);
      c[i, j] := s;
    }
  }
}
