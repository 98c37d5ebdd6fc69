// The Q1/P0 Stokes element (bilinear velocity, piecewise-constant pressure):
// nine local DOFs, 1..4 velocity-x on the four vertices, 5..8 velocity-y on
// the same vertices, 9 the element's pressure. Global numbering: velocity-x
// takes the node index, velocity-y the node index shifted by the node count N,
// pressure the element index shifted by 2N.

module BilinearVConstantP {
  import opened Common
  import opened FemCore

  /** `nDOFs = 4+4+1` */
  const NDOFs: int := 9

  /**
   * `isDOFCoupled(idx1, idx2)`, 0-based local indices. On the nine DOFs, two
   * are coupled exactly when one of them is the pressure or both belong to
   * the same velocity component.
   */
  function IsDOFCoupled(idx1: int, idx2: int): (r: bool)
    ensures 0 <= idx1 < NDOFs && 0 <= idx2 < NDOFs ==>
      (r <==> idx1 == 8 || idx2 == 8 || VVFComponentIndex(idx1 + 1) == VVFComponentIndex(idx2 + 1))
  {
    if idx1 == 8 || idx2 == 8 then true
    else if idx1 <= 3 && idx2 >= 4 then false
    else if idx2 <= 3 && idx1 >= 4 then false
    else true
  }

  /**
   * `getGlobalIndex(mesh, e, localIndex)`, 1-based local index. Locals 1..8
   * sit on vertex (localIndex-1) % 4, shifted by N for velocity-y. On a
   * well-indexed element, locals 1..9 and only those succeed, each in the
   * range of its VVF component, inside [1, 2N+E].
   */
  function GlobalIndex(mesh: Mesh, e: Element, localIndex: int): (r: Result<int>)
    ensures !(1 <= localIndex <= NDOFs) ==>
      r == Err(Runtime("local index = " + IntToString(localIndex) + ". It should be in 1...9"))
    ensures 1 <= localIndex <= 8 ==>
      if (localIndex - 1) % 4 < |e.vertices| then
        r == Ok((if localIndex <= 4 then 0 else |mesh.nodes|) + e.vertices[(localIndex - 1) % 4].globalIndex)
      else r.Err?
    ensures WellIndexed(mesh, e) ==> (r.Ok? <==> 1 <= localIndex <= NDOFs)
    ensures WellIndexed(mesh, e) && r.Ok? ==>
      && InComponentRange(mesh, VVFComponentIndex(localIndex).value, r.value)
      && 1 <= r.value <= TotalNumberOfDOFs(mesh)
  {
    var nNode := |mesh.nodes|;
    if 1 <= localIndex <= 4 then
      var v :- At(e.vertices, localIndex);
      Ok(v.globalIndex)
    else if 5 <= localIndex <= 8 then
      var v :- At(e.vertices, localIndex - 4);
      Ok(nNode + v.globalIndex)
    else if localIndex == 9 then
      Ok(2 * nNode + e.globalIndex)
    else
      Err(Runtime("local index = " + IntToString(localIndex) + ". It should be in 1...9"))
  }

  /** `getTotalNumberOfDOFs(mesh)` */
  function TotalNumberOfDOFs(mesh: Mesh): int
  {
    2 * |mesh.nodes| + |mesh.elements|
  }

  /**
   * `getNumberOfNOFs(mesh, c)` as written: 2N for either velocity component,
   * twice the N nodes that component numbers.
   */
  function NumberOfNOFs(mesh: Mesh, component: int): (r: Result<int>)
    ensures r.Ok? <==> 1 <= component <= 3
    ensures r.Err? ==> r.error == Runtime("nVVFComponentIndex should be 1, 2 or 3")
    ensures r.Ok? && component != 3 ==> r.value == 2 * NumberOfNOFsPerComponent(mesh, component).value
    ensures component == 3 ==> r == NumberOfNOFsPerComponent(mesh, component)
  {
    if component == 1 || component == 2 then Ok(2 * |mesh.nodes|)
    else if component == 3 then Ok(|mesh.elements|)
    else Err(Runtime("nVVFComponentIndex should be 1, 2 or 3"))
  }

  /** The per-component count the layout implies: N, N and E. */
  function NumberOfNOFsPerComponent(mesh: Mesh, component: int): Result<int>
  {
    if component == 1 || component == 2 then Ok(|mesh.nodes|)
    else if component == 3 then Ok(|mesh.elements|)
    else Err(Runtime("nVVFComponentIndex should be 1, 2 or 3"))
  }

  /**
   * `getVVFComponentIndex(localIndex)`: locals 1..9 fall into the three
   * blocks of four velocity-x, four velocity-y and one pressure DOF.
   */
  function VVFComponentIndex(localIndex: int): (r: Result<int>)
    ensures r.Ok? <==> 1 <= localIndex <= NDOFs
    ensures r.Ok? ==> r.value == (localIndex + 3) / 4
    ensures r.Err? ==> r.error == Runtime("local index should be in the range of [1," + IntToString(NDOFs + 1) + "]")
  {
    if 1 <= localIndex <= 4 then Ok(1)
    else if 5 <= localIndex <= 8 then Ok(2)
    else if localIndex == 9 then Ok(3)
    else Err(Runtime("local index should be in the range of [1," + IntToString(NDOFs + 1) + "]"))
  }

  /**
   * `getDOFType(e, localIndex)` as written: velocity-y reads node
   * `localIndex-6`, so on a four-node element locals 5 and 6 fail.
   */
  function DOFTypeAsWritten(e: Element, localIndex: int): (r: Result<Option<NodeType>>)
    ensures |e.Nodes()| >= 4 ==> (r.Ok? <==> localIndex in {1, 2, 3, 4, 7, 8, 9})
    ensures localIndex == 9 ==> r == Ok(None)
  {
    if 1 <= localIndex <= 4 then
      var n :- At(e.Nodes(), localIndex);
      Ok(n.TypeOf(1))
    else if 5 <= localIndex <= 8 then
      var n :- At(e.Nodes(), localIndex - 6);
      Ok(n.TypeOf(2))
    else if localIndex == 9 then
      Ok(None)
    else
      Err(Runtime("local index should be in the range of [1," + IntToString(NDOFs + 1) + "]"))
  }

  /**
   * `getDOFType` with velocity-y reading node `localIndex-4`, as the layout
   * requires: a velocity DOF has the type of its vertex for its component.
   */
  function DOFType(e: Element, localIndex: int): (r: Result<Option<NodeType>>)
    ensures |e.Nodes()| >= 4 ==> (r.Ok? <==> 1 <= localIndex <= NDOFs)
    ensures 1 <= localIndex <= 8 ==>
      if (localIndex - 1) % 4 < |e.Nodes()| then
        r == Ok(e.Nodes()[(localIndex - 1) % 4].TypeOf(VVFComponentIndex(localIndex).value))
      else r.Err?
    ensures localIndex == 9 ==> r == Ok(None)
  {
    if 1 <= localIndex <= 4 then
      var n :- At(e.Nodes(), localIndex);
      Ok(n.TypeOf(1))
    else if 5 <= localIndex <= 8 then
      var n :- At(e.Nodes(), localIndex - 4);
      Ok(n.TypeOf(2))
    else if localIndex == 9 then
      Ok(None)
    else
      Err(Runtime("local index should be in the range of [1," + IntToString(NDOFs + 1) + "]"))
  }

  /** The unimplemented members: `getNumberOfDOFs(mesh, c)` returns 0. */
  function NumberOfDOFsOnMesh(mesh: Mesh, component: int): int
  {
    0
  }

  /** `getDOF(localIndex)` returns null. */
  function GetDOF(localIndex: int): Option<DOF>
  {
    None
  }

  /** `getGeoEntity(e, localIndex)` returns null. */
  function GetGeoEntity(e: Element, localIndex: int): Option<Node>
  {
    None
  }

  // ---------------------------------------------------------------------
  // Properties of the layout

  /** Every vertex node index lies in 1..N and the element index in 1..E. */
  ghost predicate WellIndexed(mesh: Mesh, e: Element)
  {
    && |e.vertices| >= 4
    && (forall k :: 0 <= k < |e.vertices| ==> 1 <= e.vertices[k].globalIndex <= |mesh.nodes|)
    && 1 <= e.globalIndex <= |mesh.elements|
  }

  /** The local indices 1..9 that belong to VVF component c. */
  ghost function ComponentLocals(c: int): set<int>
  {
    set l | 1 <= l <= NDOFs && VVFComponentIndex(l) == Ok(c)
  }

  /** The layout gives the two velocity components four local DOFs each and the pressure one. */
  lemma ComponentLocalsSizes(c: int)
    ensures 1 <= c <= 3 ==> |ComponentLocals(c)| == if c <= 2 then 4 else 1
  {
    if c == 1 {
      assert ComponentLocals(c) == {1, 2, 3, 4};
    } else if c == 2 {
      assert ComponentLocals(c) == {5, 6, 7, 8};
    } else if c == 3 {
      assert ComponentLocals(c) == {9};
    }
  }

  /** The global range of VVF component c: [1,N], [N+1,2N] or [2N+1,2N+E]. */
  ghost predicate InComponentRange(mesh: Mesh, c: int, g: int)
  {
    var n, m := |mesh.nodes|, |mesh.elements|;
    && (c == 1 ==> 1 <= g <= n)
    && (c == 2 ==> n + 1 <= g <= 2 * n)
    && (c == 3 ==> 2 * n + 1 <= g <= 2 * n + m)
  }

  /**
   * Within one element whose four vertices are distinct nodes, distinct local
   * indices get distinct global indices.
   */
  lemma GlobalIndexInjective(mesh: Mesh, e: Element, l1: int, l2: int)
    requires WellIndexed(mesh, e)
    requires forall a, b :: 0 <= a < b < 4 ==> e.vertices[a].globalIndex != e.vertices[b].globalIndex
    requires 1 <= l1 <= NDOFs && 1 <= l2 <= NDOFs && l1 != l2
    ensures GlobalIndex(mesh, e, l1) != GlobalIndex(mesh, e, l2)
  {
  }

  /**
   * Two elements that share a node give the DOFs of the same component on that
   * node the same global index, wherever the node sits in each element.
   */
  lemma SharedNodeSameGlobalIndex(mesh: Mesh, e1: Element, e2: Element, k1: int, k2: int, c: int)
    requires |e1.vertices| >= 4 && |e2.vertices| >= 4
    requires 1 <= k1 <= 4 && 1 <= k2 <= 4 && (c == 0 || c == 4)
    requires e1.vertices[k1 - 1].globalIndex == e2.vertices[k2 - 1].globalIndex
    ensures GlobalIndex(mesh, e1, k1 + c) == GlobalIndex(mesh, e2, k2 + c)
  {
  }

  /** `isDOFCoupled` is symmetric. */
  lemma CouplingSymmetric(idx1: int, idx2: int)
    ensures IsDOFCoupled(idx1, idx2) == IsDOFCoupled(idx2, idx1)
  {
  }

  /** The component counts as written add up to more than the total: 4N+E. */
  lemma NumberOfNOFsOvercounts(mesh: Mesh)
    requires |mesh.nodes| > 0
    ensures NumberOfNOFs(mesh, 1).value + NumberOfNOFs(mesh, 2).value + NumberOfNOFs(mesh, 3).value
            == 4 * |mesh.nodes| + |mesh.elements|
    ensures NumberOfNOFs(mesh, 1).value + NumberOfNOFs(mesh, 2).value + NumberOfNOFs(mesh, 3).value
            != TotalNumberOfDOFs(mesh)
  {
  }

  /** The per-component counts add up to the total number of DOFs. */
  lemma NumberOfNOFsPerComponentSums(mesh: Mesh)
    ensures NumberOfNOFsPerComponent(mesh, 1).value + NumberOfNOFsPerComponent(mesh, 2).value
            + NumberOfNOFsPerComponent(mesh, 3).value == TotalNumberOfDOFs(mesh)
    ensures forall c :: NumberOfNOFsPerComponent(mesh, c).Ok? <==> 1 <= c <= 3
  {
  }

  /**
   * `getDOFType` as written: locals 5 and 6 read node positions -1 and 0 and
   * fail, and local 7 reports the type of node 1 although DOF 7 sits on vertex 3.
   */
  lemma DOFTypeAsWrittenMisreads(mesh: Mesh, e: Element)
    requires |e.vertices| == 4 && e.extraNodes == []
    requires e.vertices[0].TypeOf(2) != e.vertices[2].TypeOf(2)
    ensures DOFTypeAsWritten(e, 5).Err? && DOFTypeAsWritten(e, 6).Err?
    ensures GlobalIndex(mesh, e, 7) == Ok(|mesh.nodes| + e.vertices[2].globalIndex)
    ensures DOFTypeAsWritten(e, 7) != Ok(e.vertices[2].TypeOf(2))
  {
  }

  /**
   * The corrected `getDOFType` reads the node that `getGlobalIndex` numbers the
   * DOF from, with the DOF's own component; the pressure has no node type.
   */
  lemma DOFTypeFollowsLayout(mesh: Mesh, e: Element, localIndex: int)
    requires |e.vertices| >= 4
    requires 1 <= localIndex <= 8
    ensures var k := if localIndex <= 4 then localIndex else localIndex - 4;
      && GlobalIndex(mesh, e, localIndex)
         == Ok((if localIndex <= 4 then 0 else |mesh.nodes|) + e.vertices[k - 1].globalIndex)
      && DOFType(e, localIndex) == Ok(e.vertices[k - 1].TypeOf(VVFComponentIndex(localIndex).value))
    ensures DOFType(e, 9) == Ok(None)
  {
    assert e.Nodes()[..|e.vertices|] == e.vertices;
  }

  /** The placeholders: no DOFs per component, no DOF object, no geometric entity. */
  lemma PlaceholdersAreEmpty(mesh: Mesh, e: Element, c: int, localIndex: int)
    ensures NumberOfDOFsOnMesh(mesh, c) == 0
    ensures GetDOF(localIndex).None? && GetGeoEntity(e, localIndex).None?
  {
  }
}
