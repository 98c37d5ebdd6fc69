// The mixed (Raviart-Thomas / piecewise constant) form of the Laplace
// problem: on each element, flux DOFs sit on the edges and the potential DOF
// in the volume, and one element's contributions go straight into the block
// system
//
//   ( B  C ) (p)   (b0)
//   ( C' 0 ) (u) = (bf)
//
// B pairs edge DOFs (triangles only), C and C' pair each edge DOF with each
// volume DOF at transposed positions with the same value, and the load goes
// to the volume DOFs only. Integrals are quadrature oracles.

module MixedLaplace {
  import opened Common
  import opened FemCore
  import opened Accumulate
  import opened VectorWeakForm

  /** Every edge DOF of `e` carries a vector shape function. */
  predicate EdgeShapesPresent(e: Element)
  {
    forall k :: 0 <= k < |e.edgeDOFs| ==> e.edgeDOFs[k].sf.Some?
  }

  /** The vector shape function of edge DOF k (0-based). */
  function EdgeShape(e: Element, k: int): ShapeFun
    requires EdgeShapesPresent(e) && 0 <= k < |e.edgeDOFs|
  {
    e.edgeDOFs[k].sf.value
  }

  /** B = (p, q): the triangle quadrature of u.dot(v) for trial edge DOF i and test edge DOF j. */
  function BValue(quad: Quadrature, e: Element, i: int, j: int): real
    requires EdgeShapesPresent(e) && 0 <= i < |e.edgeDOFs| && 0 <= j < |e.edgeDOFs|
  {
    quad(Triangle, 4, e, Dot(EdgeShape(e, i), EdgeShape(e, j)))
  }

  /** C = (u, div q): the triangle quadrature of div(v) for test edge DOF j; the same for every volume DOF. */
  function CValue(quad: Quadrature, e: Element, j: int): real
    requires EdgeShapesPresent(e) && 0 <= j < |e.edgeDOFs|
  {
    quad(Triangle, 4, e, Div(EdgeShape(e, j)))
  }

  /** bf = -(v, f): the integral of -1 times the interpolated f; 0.0 on elements with neither 3 nor 4 vertices. */
  function LoadValue(quad: Quadrature, e: Element, f: Option<MathFunc>): real
  {
    var integrand := Scaled(-1.0, Interpolated(f));
    if |e.vertices| == 3 then quad(Triangle, 4, e, integrand)
    else if |e.vertices| == 4 then quad(Rectangle, 2, e, integrand)
    else 0.0
  }

  /** The B adds of test edge DOF j with trial edge DOFs 0..n-1: none unless `e` is a triangle. */
  function BRow(quad: Quadrature, e: Element, j: int, n: int): seq<MatAdd>
    requires EdgeShapesPresent(e) && 0 <= j < |e.edgeDOFs| && 0 <= n <= |e.edgeDOFs|
  {
    if n == 0 || |e.vertices| != 3 then []
    else BRow(quad, e, j, n - 1)
         + [MatAdd(e.edgeDOFs[n - 1].globalIndex, e.edgeDOFs[j].globalIndex, BValue(quad, e, n - 1, j))]
  }

  /** The C and C' adds of test edge DOF j with volume DOFs 0..n-1: one value at both transposed positions. */
  function CPairs(quad: Quadrature, e: Element, j: int, n: int): seq<MatAdd>
    requires EdgeShapesPresent(e) && 0 <= j < |e.edgeDOFs| && 0 <= n <= |e.volumeDOFs|
  {
    if n == 0 then []
    else
      var gv := e.edgeDOFs[j].globalIndex;
      var ge := e.volumeDOFs[n - 1].globalIndex;
      CPairs(quad, e, j, n - 1) + [MatAdd(gv, ge, CValue(quad, e, j)), MatAdd(ge, gv, CValue(quad, e, j))]
  }

  /** All matrix adds for test edge DOFs 0..n-1, in the order the loops make them. */
  function StiffLog(quad: Quadrature, e: Element, n: int): seq<MatAdd>
    requires EdgeShapesPresent(e) && 0 <= n <= |e.edgeDOFs|
  {
    if n == 0 then []
    else StiffLog(quad, e, n - 1) + BRow(quad, e, n - 1, |e.edgeDOFs|) + CPairs(quad, e, n - 1, |e.volumeDOFs|)
  }

  /** Only the B adds of `StiffLog`. */
  function BLog(quad: Quadrature, e: Element, n: int): seq<MatAdd>
    requires EdgeShapesPresent(e) && 0 <= n <= |e.edgeDOFs|
  {
    if n == 0 then [] else BLog(quad, e, n - 1) + BRow(quad, e, n - 1, |e.edgeDOFs|)
  }

  /** Only the C and C' adds of `StiffLog`. */
  function CLog(quad: Quadrature, e: Element, n: int): seq<MatAdd>
    requires EdgeShapesPresent(e) && 0 <= n <= |e.edgeDOFs|
  {
    if n == 0 then [] else CLog(quad, e, n - 1) + CPairs(quad, e, n - 1, |e.volumeDOFs|)
  }

  /** The load adds for volume DOFs 0..n-1. */
  function LoadLog(quad: Quadrature, e: Element, f: Option<MathFunc>, n: int): seq<VecAdd>
    requires 0 <= n <= |e.volumeDOFs|
  {
    if n == 0 then [] else LoadLog(quad, e, f, n - 1) + [VecAdd(e.volumeDOFs[n - 1].globalIndex, LoadValue(quad, e, f))]
  }

  class WeakFormMixedLaplace {
    /** The source term f and the coefficient k; both start null. */
    var gF: Option<MathFunc>
    var gK: Option<MathFunc>

    constructor ()
      ensures gF == None && gK == None
    {
      gF, gK := None, None;
    }

    /** `setF(f)` */
    method SetF(f: Option<MathFunc>)
      modifies this
      ensures gF == f && gK == old(gK)
    {
      gF := f;
    }

    /** `setParam(k, c, g, d)`: only k is kept; c, g and d are discarded. */
    method SetParam(k: Option<MathFunc>, c: Option<MathFunc>, g: Option<MathFunc>, d: Option<MathFunc>)
      modifies this
      ensures gK == k && gF == old(gF)
    {
      gK := k;
    }

    /**
     * `assembleElement(e, globalStiff, globalLoad)`. An edge DOF without a
     * vector shape function stops it before any add (the shape functions are
     * bound to the element first); otherwise every edge DOF j adds its B row
     * (triangles only) and its C/C' pairs, and then every volume DOF adds
     * the load value.
     */
    method AssembleElement(e: Element, stiff: SparseMatrix, load: SparseVector, quad: Quadrature) returns (r: Result<()>)
      modifies stiff, load
      ensures !EdgeShapesPresent(e) ==> r == Err(NullPointer) && stiff.entries == old(stiff.entries) && load.entries == old(load.entries)
      ensures EdgeShapesPresent(e) ==>
        && r == Ok(())
        && stiff.entries == ApplyMat(old(stiff.entries), StiffLog(quad, e, |e.edgeDOFs|))
        && load.entries == ApplyVec(old(load.entries), LoadLog(quad, e, gF, |e.volumeDOFs|))
    {
      var present := CheckEdgeShapes(e);
      if !present {
        return Err(NullPointer);
      }
      AddStiff(e, stiff, quad);
      AddLoad(e, load, quad, gF);
      r := Ok(());
    }
  }

  /** The loop that binds each edge DOF's shape function to the element: a null one stops it. */
  method CheckEdgeShapes(e: Element) returns (present: bool)
    ensures present <==> EdgeShapesPresent(e)
  {
    var edges := e.edgeDOFs;
    var t := 0;
    while t < |edges|
      invariant 0 <= t <= |edges|
      invariant forall k :: 0 <= k < t ==> edges[k].sf.Some?
    {
      if edges[t].sf.None? {
        return false;
      }
      t := t + 1;
    }
    return true;
  }

  /** The loop over test edge DOFs: each one's B row, then its C/C' pairs. */
  method AddStiff(e: Element, stiff: SparseMatrix, quad: Quadrature)
    requires EdgeShapesPresent(e)
    modifies stiff
    ensures stiff.entries == ApplyMat(old(stiff.entries), StiffLog(quad, e, |e.edgeDOFs|))
  {
    var nEdge := |e.edgeDOFs|;
    var nVol := |e.volumeDOFs|;
    ghost var s0 := stiff.entries;
    var j := 0;
    while j < nEdge
      invariant 0 <= j <= nEdge
      invariant stiff.entries == ApplyMat(s0, StiffLog(quad, e, j))
    {
      AddBRow(e, stiff, quad, j);
      AddCPairs(e, stiff, quad, j);
      ApplyMatAppend(s0, StiffLog(quad, e, j), BRow(quad, e, j, nEdge));
      ApplyMatAppend(s0, StiffLog(quad, e, j) + BRow(quad, e, j, nEdge), CPairs(quad, e, j, nVol));
      j := j + 1;
    }
  }

  /** The load loop over volume DOFs. */
  method AddLoad(e: Element, load: SparseVector, quad: Quadrature, f: Option<MathFunc>)
    modifies load
    ensures load.entries == ApplyVec(old(load.entries), LoadLog(quad, e, f, |e.volumeDOFs|))
  {
    var vols := e.volumeDOFs;
    ghost var l0 := load.entries;
    var k := 0;
    while k < |vols|
      invariant 0 <= k <= |vols|
      invariant load.entries == ApplyVec(l0, LoadLog(quad, e, f, k))
    {
      var integrand := Scaled(-1.0, Interpolated(f));
      var val := 0.0;
      if |e.vertices| == 3 {
        val := quad(Triangle, 4, e, integrand);
      } else if |e.vertices| == 4 {
        val := quad(Rectangle, 2, e, integrand);
      }
      load.Add(vols[k].globalIndex, val);
      ApplyVecAppend(l0, LoadLog(quad, e, f, k), [VecAdd(vols[k].globalIndex, val)]);
      k := k + 1;
    }
  }

  /** The inner loop over trial edge DOFs for test edge DOF j. */
  method AddBRow(e: Element, stiff: SparseMatrix, quad: Quadrature, j: int)
    requires EdgeShapesPresent(e) && 0 <= j < |e.edgeDOFs|
    modifies stiff
    ensures stiff.entries == ApplyMat(old(stiff.entries), BRow(quad, e, j, |e.edgeDOFs|))
  {
    var edges := e.edgeDOFs;
    ghost var s0 := stiff.entries;
    var i := 0;
    while i < |edges|
      invariant 0 <= i <= |edges|
      invariant stiff.entries == ApplyMat(s0, BRow(quad, e, j, i))
    {
      if |e.vertices| == 3 {
        var val := quad(Triangle, 4, e, Dot(edges[i].sf.value, edges[j].sf.value));
        stiff.Add(edges[i].globalIndex, edges[j].globalIndex, val);
        ApplyMatAppend(s0, BRow(quad, e, j, i), [MatAdd(edges[i].globalIndex, edges[j].globalIndex, val)]);
      }
      i := i + 1;
    }
  }

  /** The inner loop over volume DOFs for test edge DOF j: the C add, then the C' add. */
  method AddCPairs(e: Element, stiff: SparseMatrix, quad: Quadrature, j: int)
    requires EdgeShapesPresent(e) && 0 <= j < |e.edgeDOFs|
    modifies stiff
    ensures stiff.entries == ApplyMat(old(stiff.entries), CPairs(quad, e, j, |e.volumeDOFs|))
  {
    var vols := e.volumeDOFs;
    var dofV := e.edgeDOFs[j];
    ghost var s0 := stiff.entries;
    var k := 0;
    while k < |vols|
      invariant 0 <= k <= |vols|
      invariant stiff.entries == ApplyMat(s0, CPairs(quad, e, j, k))
    {
      var dofE := vols[k];
      var val := quad(Triangle, 4, e, Div(dofV.sf.value));
      stiff.Add(dofV.globalIndex, dofE.globalIndex, val);
      stiff.Add(dofE.globalIndex, dofV.globalIndex, val);
      ghost var pair := [MatAdd(dofV.globalIndex, dofE.globalIndex, val), MatAdd(dofE.globalIndex, dofV.globalIndex, val)];
      ApplyMatAppend(s0, CPairs(quad, e, j, k), [pair[0]]);
      ApplyMatAppend(s0, CPairs(quad, e, j, k) + [pair[0]], [pair[1]]);
      assert CPairs(quad, e, j, k) + [pair[0]] + [pair[1]] == CPairs(quad, e, j, k + 1);
      k := k + 1;
    }
  }

  // ---------------------------------------------------------------------
  // Properties

  lemma {:induction false} BRowLength(quad: Quadrature, e: Element, j: int, n: int)
    requires EdgeShapesPresent(e) && 0 <= j < |e.edgeDOFs| && 0 <= n <= |e.edgeDOFs|
    ensures |BRow(quad, e, j, n)| == if |e.vertices| == 3 then n else 0
    decreases n
  {
    if n > 0 && |e.vertices| == 3 {
      BRowLength(quad, e, j, n - 1);
    }
  }

  lemma {:induction false} CPairsLength(quad: Quadrature, e: Element, j: int, n: int)
    requires EdgeShapesPresent(e) && 0 <= j < |e.edgeDOFs| && 0 <= n <= |e.volumeDOFs|
    ensures |CPairs(quad, e, j, n)| == 2 * n
    decreases n
  {
    if n > 0 {
      CPairsLength(quad, e, j, n - 1);
    }
  }

  /** Test edge DOFs 0..n-1 make n times (nEdge on triangles, else 0) + 2 nVol matrix adds. */
  lemma {:induction false} StiffLogLength(quad: Quadrature, e: Element, n: int)
    requires EdgeShapesPresent(e) && 0 <= n <= |e.edgeDOFs|
    ensures |StiffLog(quad, e, n)| == n * ((if |e.vertices| == 3 then |e.edgeDOFs| else 0) + 2 * |e.volumeDOFs|)
    decreases n
  {
    if n > 0 {
      var w := (if |e.vertices| == 3 then |e.edgeDOFs| else 0) + 2 * |e.volumeDOFs|;
      StiffLogLength(quad, e, n - 1);
      BRowLength(quad, e, n - 1, |e.edgeDOFs|);
      CPairsLength(quad, e, n - 1, |e.volumeDOFs|);
      assert |StiffLog(quad, e, n)| == (n - 1) * w + w;
      MulSucc(n, w);
    }
  }

  lemma MulSucc(n: int, w: int)
    ensures (n - 1) * w + w == n * w
  {
  }

  /** On a triangle the matrix receives exactly nEdge^2 + 2 nEdge nVol adds. */
  lemma TriangleAddCount(quad: Quadrature, e: Element)
    requires EdgeShapesPresent(e) && |e.vertices| == 3
    ensures |StiffLog(quad, e, |e.edgeDOFs|)| == |e.edgeDOFs| * |e.edgeDOFs| + 2 * |e.edgeDOFs| * |e.volumeDOFs|
  {
    StiffLogLength(quad, e, |e.edgeDOFs|);
  }

  /** Every entry receives its B part plus its C/C' part. */
  lemma {:induction false} StiffSplitsIntoBlocks(quad: Quadrature, e: Element, n: int, k: (int, int))
    requires EdgeShapesPresent(e) && 0 <= n <= |e.edgeDOFs|
    ensures SumAt(StiffLog(quad, e, n), k) == SumAt(BLog(quad, e, n), k) + SumAt(CLog(quad, e, n), k)
    decreases n
  {
    if n > 0 {
      var b := BRow(quad, e, n - 1, |e.edgeDOFs|);
      var c := CPairs(quad, e, n - 1, |e.volumeDOFs|);
      StiffSplitsIntoBlocks(quad, e, n - 1, k);
      SumAtAppend(StiffLog(quad, e, n - 1) + b, c, k);
      SumAtAppend(StiffLog(quad, e, n - 1), b, k);
      SumAtAppend(BLog(quad, e, n - 1), b, k);
      SumAtAppend(CLog(quad, e, n - 1), c, k);
    }
  }

  /** Off triangles there is no B block: the matrix receives only the C/C' adds. */
  lemma {:induction false} NoBOffTriangles(quad: Quadrature, e: Element, n: int)
    requires EdgeShapesPresent(e) && 0 <= n <= |e.edgeDOFs| && |e.vertices| != 3
    ensures BLog(quad, e, n) == [] && StiffLog(quad, e, n) == CLog(quad, e, n)
    decreases n
  {
    if n > 0 {
      NoBOffTriangles(quad, e, n - 1);
      assert BRow(quad, e, n - 1, |e.edgeDOFs|) == [];
      assert StiffLog(quad, e, n - 1) + [] == StiffLog(quad, e, n - 1);
    }
  }

  /** The C/C' adds of one test edge DOF put the same total at (r, c) and at (c, r). */
  lemma {:induction false} CPairsTransposed(quad: Quadrature, e: Element, j: int, n: int, r: int, c: int)
    requires EdgeShapesPresent(e) && 0 <= j < |e.edgeDOFs| && 0 <= n <= |e.volumeDOFs|
    ensures SumAt(CPairs(quad, e, j, n), (r, c)) == SumAt(CPairs(quad, e, j, n), (c, r))
    decreases n
  {
    if n > 0 {
      var pair := [MatAdd(e.edgeDOFs[j].globalIndex, e.volumeDOFs[n - 1].globalIndex, CValue(quad, e, j)),
                   MatAdd(e.volumeDOFs[n - 1].globalIndex, e.edgeDOFs[j].globalIndex, CValue(quad, e, j))];
      CPairsTransposed(quad, e, j, n - 1, r, c);
      SumAtAppend(CPairs(quad, e, j, n - 1), pair, (r, c));
      SumAtAppend(CPairs(quad, e, j, n - 1), pair, (c, r));
      PairSum(pair[0].row, pair[0].col, pair[0].val, r, c);
      PairSum(pair[0].row, pair[0].col, pair[0].val, c, r);
    }
  }

  lemma PairSum(a: int, b: int, v: real, r: int, c: int)
    ensures SumAt([MatAdd(a, b, v), MatAdd(b, a, v)], (r, c))
            == (if (a, b) == (r, c) then v else 0.0) + (if (b, a) == (r, c) then v else 0.0)
  {
    var pair := [MatAdd(a, b, v), MatAdd(b, a, v)];
    assert pair[..1] == [MatAdd(a, b, v)];
    assert [MatAdd(a, b, v)][..0] == [];
    assert SumAt([MatAdd(a, b, v)], (r, c)) == if (a, b) == (r, c) then v else 0.0;
    assert SumAt(pair, (r, c)) == SumAt(pair[..1], (r, c)) + (if (b, a) == (r, c) then v else 0.0);
  }

  /** C' is the transpose of C: over the whole element, (r, c) and (c, r) receive the same C/C' total. */
  lemma {:induction false} CBlocksTransposed(quad: Quadrature, e: Element, n: int, r: int, c: int)
    requires EdgeShapesPresent(e) && 0 <= n <= |e.edgeDOFs|
    ensures SumAt(CLog(quad, e, n), (r, c)) == SumAt(CLog(quad, e, n), (c, r))
    decreases n
  {
    if n > 0 {
      var p := CPairs(quad, e, n - 1, |e.volumeDOFs|);
      CBlocksTransposed(quad, e, n - 1, r, c);
      CPairsTransposed(quad, e, n - 1, |e.volumeDOFs|, r, c);
      SumAtAppend(CLog(quad, e, n - 1), p, (r, c));
      SumAtAppend(CLog(quad, e, n - 1), p, (c, r));
    }
  }

  /** The k-th load add goes to the k-th volume DOF with the element's load value. */
  lemma {:induction false} LoadLogContents(quad: Quadrature, e: Element, f: Option<MathFunc>, n: int)
    requires 0 <= n <= |e.volumeDOFs|
    ensures |LoadLog(quad, e, f, n)| == n
    ensures forall k :: 0 <= k < n ==> LoadLog(quad, e, f, n)[k] == VecAdd(e.volumeDOFs[k].globalIndex, LoadValue(quad, e, f))
    decreases n
  {
    if n > 0 {
      LoadLogContents(quad, e, f, n - 1);
    }
  }

  /**
   * Load goes to volume DOFs only: an index that is no volume DOF's global
   * index (an edge DOF's, for one) keeps its value.
   */
  lemma LoadOnlyAtVolumeDOFs(quad: Quadrature, e: Element, f: Option<MathFunc>, v: map<int, real>, index: int)
    requires forall k :: 0 <= k < |e.volumeDOFs| ==> e.volumeDOFs[k].globalIndex != index
    ensures VecEntry(ApplyVec(v, LoadLog(quad, e, f, |e.volumeDOFs|)), index) == VecEntry(v, index)
  {
    var log := LoadLog(quad, e, f, |e.volumeDOFs|);
    LoadLogContents(quad, e, f, |e.volumeDOFs|);
    VecSumAtUntouched(log, index);
    ApplyVecEntry(v, log, index);
  }
}
