// The older Q1/P0 element: it attaches DOFs to an element itself, taking the
// pressure DOF's global index from a running counter that
// `initDOFIndexGenerator` resets.

module BilinearVConstantPOld {
  import opened Common
  import opened FemCore
  import BilinearVConstantP

  /** Size of the static `shapeFun` array. */
  const ShapeFunCount: int := 9

  /** `getVectorShapeFunctionDim()` */
  const VectorShapeFunctionDim: int := 3

  /**
   * `getDOFNumOnElement(vsfDim)`: for each VVF component, the number of local
   * DOFs the nine-DOF layout of `FEBilinearV_ConstantP` gives it.
   */
  function DOFNumOnElement(vsfDim: int): (n: int)
    ensures 1 <= vsfDim <= VectorShapeFunctionDim ==> n == |BilinearVConstantP.ComponentLocals(vsfDim)|
  {
    BilinearVConstantP.ComponentLocalsSizes(vsfDim);
    if vsfDim <= 2 then 4 else 1
  }

  /**
   * `getDOFNumOnMesh(mesh, vsfDim)`: for each VVF component, the count the
   * closed-form numbering of `FEBilinearV_ConstantP` gives it (N, N, E).
   */
  function DOFNumOnMesh(mesh: Mesh, vsfDim: int): (n: int)
    ensures 1 <= vsfDim <= VectorShapeFunctionDim ==>
      Ok(n) == BilinearVConstantP.NumberOfNOFsPerComponent(mesh, vsfDim)
  {
    if vsfDim <= 2 then |mesh.nodes| else |mesh.elements|
  }

  /** The velocity-x DOF of local node j: local index j, the node's own global index. */
  function VelocityX(e: Element, j: int): DOF
    requires 1 <= j <= |e.Nodes()|
  {
    DOF(j, e.Nodes()[j - 1].globalIndex, 1, Some(Shape(j)))
  }

  /** The velocity-y DOF of local node j: local index nNode+j, global nTotal + node index. */
  function VelocityY(e: Element, nTotal: int, j: int): DOF
    requires 1 <= j <= |e.Nodes()|
  {
    var nNode := |e.Nodes()|;
    DOF(nNode + j, nTotal + e.Nodes()[j - 1].globalIndex, 2, Some(Shape(nNode + j)))
  }

  /** The pressure DOF: local index 2*nNode+1, global 2*nTotal + counter, component 3. */
  function Pressure(e: Element, nTotal: int, counter: int): DOF
  {
    var nNode := |e.Nodes()|;
    DOF(2 * nNode + 1, 2 * nTotal + counter, 3, Some(Shape(2 * nNode + 1)))
  }

  /** The node DOF lists after the loop body has run for local nodes 1..k. */
  function VelocityLists(e: Element, nTotal: int, k: nat): map<int, seq<DOF>>
    requires k <= |e.Nodes()|
  {
    if k == 0 then e.nodeDOFs
    else
      var lists := VelocityLists(e, nTotal, k - 1);
      var withX := lists[k := DOFListAt(lists, k) + [VelocityX(e, k)]];
      withX[k := DOFListAt(withX, k) + [VelocityY(e, nTotal, k)]]
  }

  /** `e` after the loop body has run for local nodes 1..k. */
  function WithVelocityDOFs(e: Element, nTotal: int, k: nat): Element
    requires k <= |e.Nodes()|
  {
    e.(nodeDOFs := VelocityLists(e, nTotal, k))
  }

  /** How many loop iterations complete before `shapeFun[nNode+j-1]` leaves the array. */
  function CompletedNodes(nNode: nat): (k: nat)
    ensures k <= nNode
  {
    if nNode <= 4 then nNode else if nNode < ShapeFunCount then ShapeFunCount - nNode else 0
  }

  /**
   * The velocity loop of `assignTo`: node by node, velocity-x then velocity-y.
   * It completes exactly when the element has at most four nodes; otherwise
   * `shapeFun[nNode+j-1]` leaves the nine-entry array after `CompletedNodes`
   * nodes and the DOFs already attached stay.
   */
  method AttachVelocityDOFs(e: Element, nTotal: int) returns (r: Element, complete: bool)
    ensures complete <==> |e.Nodes()| <= 4
    ensures r == WithVelocityDOFs(e, nTotal, CompletedNodes(|e.Nodes()|))
  {
    var nNode := |e.Nodes()|;
    r := e;
    var j := 1;
    while j <= nNode
      invariant 1 <= j <= nNode + 1
      invariant j == 1 || nNode + j - 2 < ShapeFunCount
      invariant r == WithVelocityDOFs(e, nTotal, j - 1)
    {
      if nNode + j - 1 >= ShapeFunCount {
        StopsEarly(nNode, j);
        return r, false;
      }
      r := AttachVelocityPair(e, nTotal, j, r);
      j := j + 1;
    }
    RunsToEnd(nNode);
    complete := true;
  }

  /** The loop stops at node j only past the fourth node, after j - 1 completed passes. */
  lemma StopsEarly(nNode: nat, j: int)
    requires 1 <= j <= nNode && (j == 1 || nNode + j - 2 < ShapeFunCount) && nNode + j - 1 >= ShapeFunCount
    ensures j - 1 == CompletedNodes(nNode) && nNode > 4
  {
  }

  /** A loop that runs past its last node had at most four nodes. */
  lemma RunsToEnd(nNode: nat)
    requires nNode == 0 || 2 * nNode - 1 < ShapeFunCount
    ensures nNode <= 4 && CompletedNodes(nNode) == nNode
  {
  }

  /** One pass of the velocity loop: velocity-x, then velocity-y, of local node j. */
  method AttachVelocityPair(e: Element, nTotal: int, j: int, r: Element) returns (r': Element)
    requires 1 <= j <= |e.Nodes()| && r == WithVelocityDOFs(e, nTotal, j - 1)
    ensures r' == WithVelocityDOFs(e, nTotal, j)
  {
    r' := r.AddNodeDOF(j, VelocityX(e, j));
    r' := r'.AddNodeDOF(j, VelocityY(e, nTotal, j));
  }

  class FEBilinearVConstantPOld {
    var nTotalNodes: int
    var nDOFp: int
    /** The pressure global indices handed out since the last initialisation. */
    ghost var issued: seq<int>

    /** Once initialised, the counter is one past the number of pressure DOFs issued. */
    ghost predicate Valid()
      reads this
    {
      (nTotalNodes == -1 || nDOFp == -1) ||
      (nTotalNodes >= 0 && nDOFp == |issued| + 1 &&
       forall k :: 0 <= k < |issued| ==> issued[k] == 2 * nTotalNodes + 1 + k)
    }

    constructor ()
      ensures Valid() && nTotalNodes == -1 && nDOFp == -1 && issued == []
    {
      nTotalNodes, nDOFp := -1, -1;
      issued := [];
    }

    /** `initDOFIndexGenerator(mesh)` */
    method InitDOFIndexGenerator(mesh: Mesh)
      modifies this
      ensures Valid()
      ensures nTotalNodes == |mesh.nodes| && nDOFp == 1 && issued == []
    {
      nTotalNodes := |mesh.nodes|;
      nDOFp := 1;
      issued := [];
    }

    /**
     * `assignTo(e)`. Returns the element with its DOFs attached, or the failure:
     * the process exit when the generator was never initialised, or the array
     * index error of `shapeFun` on an element with more than four nodes, in
     * which case the DOFs of the nodes already visited stay attached.
     */
    method AssignTo(e: Element) returns (r: Element, failure: Option<Error>)
      requires Valid()
      modifies this
      ensures Valid() && nTotalNodes == old(nTotalNodes)
      ensures old(nTotalNodes == -1 || nDOFp == -1) ==>
        failure == Some(Exit(-1)) && r == e && nDOFp == old(nDOFp) && issued == old(issued)
      ensures old(nTotalNodes != -1 && nDOFp != -1) && |e.Nodes()| <= 4 ==>
        && failure == None
        && r == WithVelocityDOFs(e, nTotalNodes, |e.Nodes()|).AddVolumeDOF(Pressure(e, nTotalNodes, old(nDOFp)))
        && nDOFp == old(nDOFp) + 1
        && issued == old(issued) + [Pressure(e, nTotalNodes, old(nDOFp)).globalIndex]
      ensures old(nTotalNodes != -1 && nDOFp != -1) && |e.Nodes()| > 4 ==>
        && failure == Some(OutOfBounds(|e.Nodes()| + CompletedNodes(|e.Nodes()|), ShapeFunCount))
        && r == WithVelocityDOFs(e, nTotalNodes, CompletedNodes(|e.Nodes()|))
        && nDOFp == old(nDOFp) && issued == old(issued)
    {
      if nTotalNodes == -1 || nDOFp == -1 {
        return e, Some(Exit(-1));
      }
      var nNode := |e.Nodes()|;
      var complete;
      r, complete := AttachVelocityDOFs(e, nTotalNodes);
      if !complete {
        return r, Some(OutOfBounds(nNode + CompletedNodes(nNode), ShapeFunCount));
      }
      var p := DOF(2 * nNode + 1, nTotalNodes * 2 + nDOFp, 3, Some(Shape(2 * nNode + 1)));
      issued := issued + [p.globalIndex];
      nDOFp := nDOFp + 1;
      r := r.AddVolumeDOF(p);
      failure := None;
    }

    /**
     * Assigning the same element twice issues two different pressure indices:
     * the counter is not keyed by element.
     */
    method AssignTwice(e: Element) returns (p1: int, p2: int)
      requires Valid() && nTotalNodes != -1 && nDOFp != -1 && |e.Nodes()| <= 4
      modifies this
      ensures p1 != p2
      ensures p1 == 2 * nTotalNodes + old(nDOFp) && p2 == p1 + 1
    {
      var r1, f1 := AssignTo(e);
      var r2, f2 := AssignTo(e);
      p1 := r1.volumeDOFs[|r1.volumeDOFs| - 1].globalIndex;
      p2 := r2.volumeDOFs[|r2.volumeDOFs| - 1].globalIndex;
    }
  }

  // ---------------------------------------------------------------------
  // Properties

  /**
   * After the loop has visited nodes 1..k, node j <= k has gained exactly its
   * two velocity DOFs and every other list is as before.
   */
  lemma {:induction false} VelocityDOFsAttached(e: Element, nTotal: int, k: nat, j: int)
    requires k <= |e.Nodes()|
    ensures 1 <= j <= k ==> DOFListAt(VelocityLists(e, nTotal, k), j)
                            == e.NodeDOFList(j) + [VelocityX(e, j), VelocityY(e, nTotal, j)]
    ensures !(1 <= j <= k) ==> DOFListAt(VelocityLists(e, nTotal, k), j) == e.NodeDOFList(j)
  {
    if k > 0 {
      VelocityDOFsAttached(e, nTotal, k - 1, j);
      var lists := VelocityLists(e, nTotal, k - 1);
      var x, y := VelocityX(e, k), VelocityY(e, nTotal, k);
      var withX := lists[k := DOFListAt(lists, k) + [x]];
      assert VelocityLists(e, nTotal, k) == withX[k := DOFListAt(withX, k) + [y]];
      if j == k {
        var before := DOFListAt(lists, k);
        assert DOFListAt(VelocityLists(e, nTotal, k), j) == before + [x] + [y];
        AppendTwo(before, x, y);
      }
    }
  }

  lemma AppendTwo<T>(a: seq<T>, x: T, y: T)
    ensures a + [x] + [y] == a + [x, y]
  {
  }

  /**
   * The DOFs `assignTo` attaches to node j: velocity-x with local index j and
   * the node's global index, velocity-y with local index nNode+j and global
   * nTotal + node index; the pressure is appended to the volume DOFs.
   */
  lemma AssignedLayout(e: Element, nTotal: int, counter: int, j: int)
    requires |e.Nodes()| <= 4 && 1 <= j <= |e.Nodes()|
    ensures var r := WithVelocityDOFs(e, nTotal, |e.Nodes()|).AddVolumeDOF(Pressure(e, nTotal, counter));
      && r.NodeDOFList(j)
         == e.NodeDOFList(j) + [DOF(j, e.Nodes()[j - 1].globalIndex, 1, Some(Shape(j))),
             DOF(|e.Nodes()| + j, nTotal + e.Nodes()[j - 1].globalIndex, 2, Some(Shape(|e.Nodes()| + j)))]
      && r.volumeDOFs == e.volumeDOFs + [DOF(2 * |e.Nodes()| + 1, 2 * nTotal + counter, 3, Some(Shape(2 * |e.Nodes()| + 1)))]
  {
    VelocityDOFsAttached(e, nTotal, |e.Nodes()|, j);
  }

  /**
   * The pressure indices issued since initialisation are 2N+1, 2N+2, ...:
   * pairwise distinct and above every velocity index of nodes numbered 1..N.
   */
  lemma IssuedPressureIndices(g: FEBilinearVConstantPOld, nodeIndex: int, a: int, b: int)
    requires g.Valid() && g.nTotalNodes != -1 && g.nDOFp != -1
    requires 1 <= nodeIndex <= g.nTotalNodes
    requires 0 <= a < b < |g.issued|
    ensures g.issued[a] != g.issued[b]
    ensures g.issued[a] > g.nTotalNodes + nodeIndex && g.issued[a] > nodeIndex
    ensures 2 * g.nTotalNodes < g.issued[a] <= 2 * g.nTotalNodes + |g.issued|
  {
  }

  /**
   * The counter-based numbering agrees with the closed form of
   * `FEBilinearV_ConstantP.getGlobalIndex` when the k-th call is made on the
   * four-node element whose global index is k.
   */
  lemma AgreesWithClosedForm(mesh: Mesh, e: Element, counter: int, j: int)
    requires |e.vertices| == 4 && e.extraNodes == [] && e.globalIndex == counter
    requires 1 <= j <= 4
    ensures BilinearVConstantP.GlobalIndex(mesh, e, j) == Ok(VelocityX(e, j).globalIndex)
    ensures BilinearVConstantP.GlobalIndex(mesh, e, 4 + j) == Ok(VelocityY(e, |mesh.nodes|, j).globalIndex)
    ensures BilinearVConstantP.GlobalIndex(mesh, e, 9) == Ok(Pressure(e, |mesh.nodes|, counter).globalIndex)
    ensures VelocityY(e, |mesh.nodes|, j).localIndex == 4 + j
    ensures Pressure(e, |mesh.nodes|, counter).localIndex == 9
  {
    assert e.Nodes() == e.vertices;
  }

  /**
   * Per-component DOF counts: 4, 4 and 1 on an element (the nine DOFs `assignTo`
   * attaches to a four-node element), N, N and E on the mesh (the closed-form
   * total 2N+E).
   */
  lemma DOFCountsAgree(mesh: Mesh, e: Element)
    requires |e.Nodes()| == 4
    ensures DOFNumOnElement(1) + DOFNumOnElement(2) + DOFNumOnElement(3) == 2 * |e.Nodes()| + 1
    ensures DOFNumOnMesh(mesh, 1) + DOFNumOnMesh(mesh, 2) + DOFNumOnMesh(mesh, 3)
            == BilinearVConstantP.TotalNumberOfDOFs(mesh)
  {
  }
}
