// Global assembly over domain elements and their Neumann/Robin border
// elements. The local stiffness matrix and load vector of an element are
// computed by a local assembler from a weak form; here they are oracles: a
// `LocalForm` gives A[j][i] and b[j] of any element (0-based j, i in the
// element's NEFV DOF order), and the size of the arrays the local assembler
// holds for it. Every scatter is specified by the log of `add` calls it
// makes, in order; a read past the end of A ends the scatter with the JVM's
// index exception, after the adds made before it.

module Assembly {
  import opened Common
  import opened FemCore
  import opened Accumulate

  /**
   * The local system a local assembler computes on an element: A is
   * size×size and b has size entries; A[j][i] and b[j] are read below size.
   */
  datatype LocalForm = LocalForm(stiff: (Element, int, int) -> real, load: (Element, int) -> real, size: Element -> nat)

  /** The border node types whose border elements are assembled. */
  predicate IsNeumannOrRobin(be: Element)
  {
    be.borderNodeType == Some(Neumann) || be.borderNodeType == Some(Robin)
  }

  /** The last Neumann/Robin element of `list`: the one a sweep of `assembleLocal` leaves behind. */
  function LastNR(list: seq<Element>): Option<Element>
    decreases |list|
  {
    if list == [] then None
    else if IsNeumannOrRobin(list[|list| - 1]) then Some(list[|list| - 1])
    else LastNR(list[..|list| - 1])
  }

  /** Row j of a scatter, columns 0..n-1: `stiff.add(g[j], g[i], A[j][i])`. */
  function RowLog(form: LocalForm, src: Element, g: seq<int>, j: int, n: int): seq<MatAdd>
    requires 0 <= j < |g| && 0 <= n <= |g|
  {
    if n == 0 then [] else RowLog(form, src, g, j, n - 1) + [MatAdd(g[j], g[n - 1], form.stiff(src, j, n - 1))]
  }

  /** Rows 0..n-1 of a scatter of the local matrix of `src` onto global indices `g`. */
  function BlockLog(form: LocalForm, src: Element, g: seq<int>, n: int): seq<MatAdd>
    requires 0 <= n <= |g|
  {
    if n == 0 then [] else BlockLog(form, src, g, n - 1) + RowLog(form, src, g, n - 1, |g|)
  }

  /** Entries 0..n-1 of the load scatter: `load.add(g[j], b[j])`. */
  function LoadLog(form: LocalForm, src: Element, g: seq<int>, n: int): seq<VecAdd>
    requires 0 <= n <= |g|
  {
    if n == 0 then [] else LoadLog(form, src, g, n - 1) + [VecAdd(g[n - 1], form.load(src, n - 1))]
  }

  /** The whole scatter of `src`'s local system onto the DOFs of `target`. */
  function ElementBlock(form: LocalForm, src: Element, target: Element): seq<MatAdd>
  {
    var g := target.GlobalIndices();
    BlockLog(form, src, g, |g|)
  }

  function ElementLoad(form: LocalForm, src: Element, target: Element): seq<VecAdd>
  {
    var g := target.GlobalIndices();
    LoadLog(form, src, g, |g|)
  }

  /** The local system of `src` has a row and a column for every DOF of `target`. */
  predicate Fits(form: LocalForm, src: Element, target: Element)
  {
    |target.AllDOFList()| <= form.size(src)
  }

  /**
   * How a scatter of `src`'s local system onto `target` ends: when `target`
   * has more DOFs than A has rows, row 0 reads A[0][size] (A[0] itself when
   * size is 0), and the JVM raises its index exception.
   */
  function ScatterOutcome(form: LocalForm, src: Element, target: Element): Result<()>
  {
    if Fits(form, src, target) then Ok(()) else Err(OutOfBounds(form.size(src), form.size(src)))
  }

  /** The stiffness adds a scatter makes: the whole block, or row 0 up to the failing column. */
  function ScatterStiffTrace(form: LocalForm, src: Element, target: Element): seq<MatAdd>
  {
    var g := target.GlobalIndices();
    if Fits(form, src, target) then BlockLog(form, src, g, |g|) else RowLog(form, src, g, 0, form.size(src))
  }

  /** The load adds a scatter makes: none when it fails, since b[0] comes after row 0. */
  function ScatterLoadTrace(form: LocalForm, src: Element, target: Element): seq<VecAdd>
  {
    if Fits(form, src, target) then ElementLoad(form, src, target) else []
  }

  /** The border scatters of one element: each Neumann/Robin border element, with the local system of `src`. */
  function BorderStiffLog(form: LocalForm, src: Element, list: seq<Element>): seq<MatAdd>
    decreases |list|
  {
    if list == [] then []
    else
      var be := list[|list| - 1];
      BorderStiffLog(form, src, list[..|list| - 1]) + (if IsNeumannOrRobin(be) then ElementBlock(form, src, be) else [])
  }

  function BorderLoadLog(form: LocalForm, src: Element, list: seq<Element>): seq<VecAdd>
    decreases |list|
  {
    if list == [] then []
    else
      var be := list[|list| - 1];
      BorderLoadLog(form, src, list[..|list| - 1]) + (if IsNeumannOrRobin(be) then ElementLoad(form, src, be) else [])
  }

  /** A border element whose scatter fails: Neumann or Robin, with more DOFs than the local system of `src`. */
  predicate BorderFails(form: LocalForm, src: Element, be: Element)
  {
    IsNeumannOrRobin(be) && !Fits(form, src, be)
  }

  /** The position of the first border element whose scatter fails, or |list| when none does. */
  function FirstBorderFailure(form: LocalForm, src: Element, list: seq<Element>): (k: nat)
    ensures k <= |list|
    ensures forall i :: 0 <= i < k ==> !BorderFails(form, src, list[i])
    ensures k < |list| ==> BorderFails(form, src, list[k])
    decreases |list|
  {
    if list == [] then 0
    else if BorderFails(form, src, list[0]) then 0
    else
      var k := FirstBorderFailure(form, src, list[1..]);
      assert forall i :: 1 <= i < k + 1 ==> list[i] == list[1..][i - 1];
      k + 1
  }

  /** How the border loop ends: at the first failing scatter, or normally. */
  function BorderOutcome(form: LocalForm, src: Element, list: seq<Element>): Result<()>
  {
    var k := FirstBorderFailure(form, src, list);
    if k == |list| then Ok(()) else ScatterOutcome(form, src, list[k])
  }

  /** The stiffness adds the border loop makes: every scatter up to and including the failing one's partial row. */
  function BorderStiffTrace(form: LocalForm, src: Element, list: seq<Element>): seq<MatAdd>
  {
    var k := FirstBorderFailure(form, src, list);
    if k == |list| then BorderStiffLog(form, src, list)
    else BorderStiffLog(form, src, list[..k]) + ScatterStiffTrace(form, src, list[k])
  }

  function BorderLoadTrace(form: LocalForm, src: Element, list: seq<Element>): seq<VecAdd>
  {
    var k := FirstBorderFailure(form, src, list);
    if k == |list| then BorderLoadLog(form, src, list) else BorderLoadLog(form, src, list[..k])
  }

  /** Only the Neumann/Robin elements of a list. */
  function FilterNR(list: seq<Element>): seq<Element>
    decreases |list|
  {
    if list == [] then []
    else
      var be := list[|list| - 1];
      FilterNR(list[..|list| - 1]) + (if IsNeumannOrRobin(be) then [be] else [])
  }

  /**
   * The inner scatter loop for row j: `stiff.add(g[j], g[i], A[j][i])` for
   * each i in turn; reading row j of a size-row A, or column size of it,
   * raises the index exception.
   */
  method ScatterRow(form: LocalForm, src: Element, dofs: seq<DOF>, ghost g: seq<int>, j: int, stiff: SparseMatrix)
    returns (r: Result<()>)
    requires |g| == |dofs| && 0 <= j < |g|
    requires forall k :: 0 <= k < |g| ==> g[k] == dofs[k].globalIndex
    modifies stiff
    ensures r == if j < form.size(src) && |g| <= form.size(src) then Ok(())
                 else Err(OutOfBounds(if j < form.size(src) then form.size(src) else j, form.size(src)))
    ensures stiff.entries == ApplyMat(old(stiff.entries), RowLog(form, src, g, j,
              if r.Ok? then |g| else if j < form.size(src) then form.size(src) else 0))
  {
    var size := form.size(src);
    if j >= size {
      return Err(OutOfBounds(j, size));
    }
    ghost var e0 := stiff.entries;
    var dofJ := dofs[j];
    var i := 0;
    while i < |dofs|
      invariant 0 <= i <= |dofs| && i <= size
      invariant stiff.entries == ApplyMat(e0, RowLog(form, src, g, j, i))
    {
      if i >= size {
        return Err(OutOfBounds(i, size));
      }
      var dofI := dofs[i];
      stiff.Add(dofJ.globalIndex, dofI.globalIndex, form.stiff(src, j, i));
      ApplyMatAppend(e0, RowLog(form, src, g, j, i), [MatAdd(g[j], g[i], form.stiff(src, j, i))]);
      i := i + 1;
    }
    return Ok(());
  }

  /**
   * The scatter loops of `assembleGlobal` for one local system: for each j,
   * for each i, `stiff.add(g[j], g[i], A[j][i])`, then `load.add(g[j], b[j])`,
   * with g the global indices of `target`'s DOFs in NEFV order.
   */
  method Scatter(form: LocalForm, src: Element, target: Element, stiff: SparseMatrix, load: SparseVector)
    returns (r: Result<()>)
    modifies stiff, load
    ensures r == ScatterOutcome(form, src, target)
    ensures stiff.entries == ApplyMat(old(stiff.entries), ScatterStiffTrace(form, src, target))
    ensures load.entries == ApplyVec(old(load.entries), ScatterLoadTrace(form, src, target))
  {
    var dofs := target.AllDOFList();
    ghost var g := target.GlobalIndices();
    ghost var s0 := stiff.entries;
    ghost var l0 := load.entries;
    var j := 0;
    while j < |dofs|
      invariant 0 <= j <= |dofs|
      invariant j > 0 ==> Fits(form, src, target)
      invariant stiff.entries == ApplyMat(s0, BlockLog(form, src, g, j))
      invariant load.entries == ApplyVec(l0, LoadLog(form, src, g, j))
    {
      var dofJ := dofs[j];
      var row := ScatterRow(form, src, dofs, g, j, stiff);
      if row.Err? {
        return row;
      }
      ApplyMatAppend(s0, BlockLog(form, src, g, j), RowLog(form, src, g, j, |g|));
      load.Add(dofJ.globalIndex, form.load(src, j));
      ApplyVecAppend(l0, LoadLog(form, src, g, j), [VecAdd(g[j], form.load(src, j))]);
      j := j + 1;
    }
    return Ok(());
  }

  /** `Scatter` of one Neumann or Robin border element, as the next step of the border loop. */
  method ScatterBorderElement(form: LocalForm, src: Element, list: seq<Element>, k: int,
                              stiff: SparseMatrix, load: SparseVector, ghost s0: map<(int, int), real>, ghost l0: map<int, real>)
    returns (r: Result<()>)
    requires 0 <= k < |list| && IsNeumannOrRobin(list[k])
    requires stiff.entries == ApplyMat(s0, BorderStiffLog(form, src, list[..k]))
    requires load.entries == ApplyVec(l0, BorderLoadLog(form, src, list[..k]))
    modifies stiff, load
    ensures r == ScatterOutcome(form, src, list[k])
    ensures r.Ok? ==> stiff.entries == ApplyMat(s0, BorderStiffLog(form, src, list[..k + 1]))
    ensures r.Ok? ==> load.entries == ApplyVec(l0, BorderLoadLog(form, src, list[..k + 1]))
    ensures r.Err? ==> stiff.entries == ApplyMat(s0, BorderStiffLog(form, src, list[..k]) + ScatterStiffTrace(form, src, list[k]))
    ensures r.Err? ==> load.entries == ApplyVec(l0, BorderLoadLog(form, src, list[..k]))
  {
    BorderLogsSnoc(form, src, list, k);
    r := Scatter(form, src, list[k], stiff, load);
    ApplyMatAppend(s0, BorderStiffLog(form, src, list[..k]), ScatterStiffTrace(form, src, list[k]));
    ApplyVecAppend(l0, BorderLoadLog(form, src, list[..k]), ScatterLoadTrace(form, src, list[k]));
    if r.Err? {
      assert BorderLoadLog(form, src, list[..k]) + [] == BorderLoadLog(form, src, list[..k]);
    }
  }

  class DomainBoundaryAssembler {
    /** The weak forms' local systems on domain and on border elements. */
    const domain: LocalForm
    const boundary: LocalForm
    /** The element each local assembler last assembled (its `A` and `b` are that element's). */
    var domainLast: Option<Element>
    var boundaryLast: Option<Element>
    /** `gA` and `gb`: the containers of the last global assembly. */
    var gA: Option<SparseMatrix>
    var gb: Option<SparseVector>

    constructor (domain: LocalForm, boundary: LocalForm)
      ensures this.domain == domain && this.boundary == boundary
      ensures domainLast == None && boundaryLast == None && gA == None && gb == None
    {
      this.domain := domain;
      this.boundary := boundary;
      domainLast, boundaryLast := None, None;
      gA, gb := None, None;
    }

    /** The stiffness adds of one element of `assembleGlobal`: domain block, then border blocks. */
    function ElementStiffLog(e: Element): seq<MatAdd>
    {
      ElementBlock(domain, e, e) +
      (if LastNR(e.borderElements).Some? then BorderStiffLog(boundary, LastNR(e.borderElements).value, e.borderElements) else [])
    }

    function ElementLoadLog(e: Element): seq<VecAdd>
    {
      ElementLoad(domain, e, e) +
      (if LastNR(e.borderElements).Some? then BorderLoadLog(boundary, LastNR(e.borderElements).value, e.borderElements) else [])
    }

    /** How one element's scatters end: the domain scatter, then the border loop. */
    function ElementOutcome(e: Element): Result<()>
    {
      if !Fits(domain, e, e) then ScatterOutcome(domain, e, e)
      else if LastNR(e.borderElements).Some? then BorderOutcome(boundary, LastNR(e.borderElements).value, e.borderElements)
      else Ok(())
    }

    /** The stiffness adds one element's scatters make before they end, normally or not. */
    function ElementStiffTrace(e: Element): seq<MatAdd>
    {
      if !Fits(domain, e, e) then ScatterStiffTrace(domain, e, e)
      else
        ElementBlock(domain, e, e) +
        (if LastNR(e.borderElements).Some? then BorderStiffTrace(boundary, LastNR(e.borderElements).value, e.borderElements) else [])
    }

    function ElementLoadTrace(e: Element): seq<VecAdd>
    {
      if !Fits(domain, e, e) then []
      else
        ElementLoad(domain, e, e) +
        (if LastNR(e.borderElements).Some? then BorderLoadTrace(boundary, LastNR(e.borderElements).value, e.borderElements) else [])
    }

    /** The per-element stiffness logs of `elements`, in mesh order. */
    function ElementStiffLogs(elements: seq<Element>): (r: seq<seq<MatAdd>>)
      ensures |r| == |elements| && forall k :: 0 <= k < |elements| ==> r[k] == ElementStiffLog(elements[k])
    {
      seq(|elements|, k requires 0 <= k < |elements| => ElementStiffLog(elements[k]))
    }

    function ElementLoadLogs(elements: seq<Element>): (r: seq<seq<VecAdd>>)
      ensures |r| == |elements| && forall k :: 0 <= k < |elements| ==> r[k] == ElementLoadLog(elements[k])
    {
      seq(|elements|, k requires 0 <= k < |elements| => ElementLoadLog(elements[k]))
    }

    /** All stiffness adds of `assembleGlobal` over `elements`, element by element. */
    function MeshStiffLog(elements: seq<Element>): seq<MatAdd>
    {
      ConcatMat(ElementStiffLogs(elements))
    }

    function MeshLoadLog(elements: seq<Element>): seq<VecAdd>
    {
      ConcatVec(ElementLoadLogs(elements))
    }

    /** The position of the first element whose scatters fail, or |elements| when none does. */
    function FirstMeshFailure(elements: seq<Element>): (k: nat)
      ensures k <= |elements|
      ensures forall i :: 0 <= i < k ==> ElementOutcome(elements[i]).Ok?
      ensures k < |elements| ==> ElementOutcome(elements[k]).Err?
      decreases |elements|
    {
      if elements == [] then 0
      else if ElementOutcome(elements[0]).Err? then 0
      else
        var k := FirstMeshFailure(elements[1..]);
        assert forall i :: 1 <= i < k + 1 ==> elements[i] == elements[1..][i - 1];
        k + 1
    }

    /** How `assembleGlobal` over `elements` ends: with the first element's exception, or normally. */
    function MeshOutcome(elements: seq<Element>): Result<()>
    {
      var k := FirstMeshFailure(elements);
      if k == |elements| then Ok(()) else ElementOutcome(elements[k])
    }

    /** The stiffness adds `assembleGlobal` makes over `elements`, up to the exception if there is one. */
    function MeshStiffTrace(elements: seq<Element>): seq<MatAdd>
    {
      var k := FirstMeshFailure(elements);
      if k == |elements| then MeshStiffLog(elements) else MeshStiffLog(elements[..k]) + ElementStiffTrace(elements[k])
    }

    function MeshLoadTrace(elements: seq<Element>): seq<VecAdd>
    {
      var k := FirstMeshFailure(elements);
      if k == |elements| then MeshLoadLog(elements) else MeshLoadLog(elements[..k]) + ElementLoadTrace(elements[k])
    }

    /**
     * `assembleLocal(e)`: the domain assembler works on `e`, the boundary
     * assembler on each Neumann/Robin border element in turn, so it is left
     * with the last one (or with what it had when there is none).
     */
    method AssembleLocal(e: Element)
      modifies this
      ensures domainLast == Some(e)
      ensures boundaryLast == if LastNR(e.borderElements).Some? then LastNR(e.borderElements) else old(boundaryLast)
      ensures gA == old(gA) && gb == old(gb)
    {
      domainLast := Some(e);
      var k := 0;
      while k < |e.borderElements|
        invariant 0 <= k <= |e.borderElements|
        invariant domainLast == Some(e) && gA == old(gA) && gb == old(gb)
        invariant boundaryLast == if LastNR(e.borderElements[..k]).Some? then LastNR(e.borderElements[..k]) else old(boundaryLast)
      {
        var be := e.borderElements[k];
        if be.borderNodeType == Some(Neumann) || be.borderNodeType == Some(Robin) {
          boundaryLast := Some(be);
        }
        assert e.borderElements[..k + 1][..k] == e.borderElements[..k];
        k := k + 1;
      }
      assert e.borderElements[..|e.borderElements|] == e.borderElements;
    }

    /** One pass of the element loop of `assembleGlobal`: `assembleLocal(e)`, the domain scatter, the border loop. */
    method AssembleElementStep(e: Element, stiff: SparseMatrix, load: SparseVector) returns (r: Result<()>)
      modifies this, stiff, load
      ensures r == ElementOutcome(e)
      ensures stiff.entries == ApplyMat(old(stiff.entries), ElementStiffTrace(e))
      ensures load.entries == ApplyVec(old(load.entries), ElementLoadTrace(e))
      ensures gA == old(gA) && gb == old(gb)
    {
      AssembleLocal(e);
      ghost var s1 := stiff.entries;
      ghost var l1 := load.entries;
      r := Scatter(domain, e, e, stiff, load);
      if r.Err? {
        return;
      }
      ghost var last := LastNR(e.borderElements);
      ghost var bs := if last.Some? then BorderStiffTrace(boundary, last.value, e.borderElements) else [];
      ghost var bl := if last.Some? then BorderLoadTrace(boundary, last.value, e.borderElements) else [];
      r := AssembleBorder(e, stiff, load);
      ApplyMatAppend(s1, ElementBlock(domain, e, e), bs);
      ApplyVecAppend(l1, ElementLoad(domain, e, e), bl);
    }

    /** The n-th pass of the element loop of `assembleGlobal`, continuing the run from `s0` and `l0`. */
    method AssembleMeshStep(elements: seq<Element>, n: int, stiff: SparseMatrix, load: SparseVector,
                            ghost s0: map<(int, int), real>, ghost l0: map<int, real>) returns (r: Result<()>)
      requires 0 <= n < |elements|
      requires forall i :: 0 <= i < n ==> ElementOutcome(elements[i]).Ok?
      requires stiff.entries == ApplyMat(s0, MeshStiffLog(elements[..n]))
      requires load.entries == ApplyVec(l0, MeshLoadLog(elements[..n]))
      modifies this, stiff, load
      ensures r == ElementOutcome(elements[n])
      ensures gA == old(gA) && gb == old(gb)
      ensures r.Ok? ==> forall i :: 0 <= i < n + 1 ==> ElementOutcome(elements[i]).Ok?
      ensures r.Ok? ==> stiff.entries == ApplyMat(s0, MeshStiffLog(elements[..n + 1]))
      ensures r.Ok? ==> load.entries == ApplyVec(l0, MeshLoadLog(elements[..n + 1]))
      ensures r.Err? ==> r == MeshOutcome(elements)
      ensures r.Err? ==> stiff.entries == ApplyMat(s0, MeshStiffTrace(elements))
      ensures r.Err? ==> load.entries == ApplyVec(l0, MeshLoadTrace(elements))
    {
      var e := elements[n];
      r := AssembleElementStep(e, stiff, load);
      ApplyMatAppend(s0, MeshStiffLog(elements[..n]), ElementStiffTrace(e));
      ApplyVecAppend(l0, MeshLoadLog(elements[..n]), ElementLoadTrace(e));
      if r.Err? {
        MeshTraceAtFailure(this, elements, n);
      } else {
        ElementTraceIsLog(this, e);
        MeshLogsSnoc(this, elements, n);
      }
    }

    /**
     * `assembleGlobal(mesh, stiff, load)`: adds every element's contributions
     * to the given containers without clearing them, and keeps them as `gA`
     * and `gb`; an index exception ends it before `gA` and `gb` are set.
     */
    method AssembleGlobalInto(mesh: Mesh, stiff: SparseMatrix, load: SparseVector) returns (r: Result<()>)
      modifies this, stiff, load
      ensures r == MeshOutcome(mesh.elements)
      ensures stiff.entries == ApplyMat(old(stiff.entries), MeshStiffTrace(mesh.elements))
      ensures load.entries == ApplyVec(old(load.entries), MeshLoadTrace(mesh.elements))
      ensures r.Ok? ==> stiff.entries == ApplyMat(old(stiff.entries), MeshStiffLog(mesh.elements))
      ensures r.Ok? ==> load.entries == ApplyVec(old(load.entries), MeshLoadLog(mesh.elements))
      ensures r.Ok? ==> gA == Some(stiff) && gb == Some(load)
      ensures r.Err? ==> gA == old(gA) && gb == old(gb)
    {
      ghost var s0 := stiff.entries;
      ghost var l0 := load.entries;
      var n := 0;
      while n < |mesh.elements|
        invariant 0 <= n <= |mesh.elements|
        invariant forall i :: 0 <= i < n ==> ElementOutcome(mesh.elements[i]).Ok?
        invariant stiff.entries == ApplyMat(s0, MeshStiffLog(mesh.elements[..n]))
        invariant load.entries == ApplyVec(l0, MeshLoadLog(mesh.elements[..n]))
        invariant gA == old(gA) && gb == old(gb)
      {
        r := AssembleMeshStep(mesh.elements, n, stiff, load, s0, l0);
        if r.Err? {
          return;
        }
        n := n + 1;
      }
      assert mesh.elements[..|mesh.elements|] == mesh.elements;
      MeshTraceComplete(this, mesh.elements);
      gA := Some(stiff);
      gb := Some(load);
      r := Ok(());
    }

    /** The k-th pass of the border loop of `assembleGlobal` for element `e`. */
    method AssembleBorderStep(e: Element, k: int, stiff: SparseMatrix, load: SparseVector,
                              ghost last: Option<Element>, ghost s0: map<(int, int), real>, ghost l0: map<int, real>)
      returns (r: Result<()>)
      requires last == LastNR(e.borderElements) && (last.Some? ==> boundaryLast == last)
      requires 0 <= k < |e.borderElements|
      requires last.None? ==> stiff.entries == s0 && load.entries == l0
      requires last.Some? ==> forall i :: 0 <= i < k ==> !BorderFails(boundary, last.value, e.borderElements[i])
      requires last.Some? ==> stiff.entries == ApplyMat(s0, BorderStiffLog(boundary, last.value, e.borderElements[..k]))
      requires last.Some? ==> load.entries == ApplyVec(l0, BorderLoadLog(boundary, last.value, e.borderElements[..k]))
      modifies stiff, load
      ensures r.Ok? && last.None? ==> stiff.entries == s0 && load.entries == l0
      ensures r.Ok? && last.Some? ==> forall i :: 0 <= i < k + 1 ==> !BorderFails(boundary, last.value, e.borderElements[i])
      ensures r.Ok? && last.Some? ==> stiff.entries == ApplyMat(s0, BorderStiffLog(boundary, last.value, e.borderElements[..k + 1]))
      ensures r.Ok? && last.Some? ==> load.entries == ApplyVec(l0, BorderLoadLog(boundary, last.value, e.borderElements[..k + 1]))
      ensures r.Err? ==> last.Some? && r == BorderOutcome(boundary, last.value, e.borderElements)
      ensures r.Err? ==> stiff.entries == ApplyMat(s0, BorderStiffTrace(boundary, last.value, e.borderElements))
      ensures r.Err? ==> load.entries == ApplyVec(l0, BorderLoadTrace(boundary, last.value, e.borderElements))
    {
      var be := e.borderElements[k];
      if be.borderNodeType == Some(Neumann) || be.borderNodeType == Some(Robin) {
        NeumannOrRobinIsFound(e.borderElements, k);
        r := ScatterBorderElement(boundary, boundaryLast.value, e.borderElements, k, stiff, load, s0, l0);
        if r.Err? {
          BorderTraceAtFailure(boundary, last.value, e.borderElements, k);
        }
      } else {
        if last.Some? {
          BorderLogsSkip(boundary, last.value, e.borderElements, k);
        }
        r := Ok(());
      }
    }

    /** The border loop of `assembleGlobal` for element `e`, right after `assembleLocal(e)`. */
    method AssembleBorder(e: Element, stiff: SparseMatrix, load: SparseVector) returns (r: Result<()>)
      requires LastNR(e.borderElements).Some? ==> boundaryLast == LastNR(e.borderElements)
      modifies stiff, load
      ensures LastNR(e.borderElements).None? ==> r == Ok(()) && stiff.entries == old(stiff.entries) && load.entries == old(load.entries)
      ensures LastNR(e.borderElements).Some? ==>
        && r == BorderOutcome(boundary, LastNR(e.borderElements).value, e.borderElements)
        && stiff.entries == ApplyMat(old(stiff.entries), BorderStiffTrace(boundary, LastNR(e.borderElements).value, e.borderElements))
        && load.entries == ApplyVec(old(load.entries), BorderLoadTrace(boundary, LastNR(e.borderElements).value, e.borderElements))
    {
      ghost var s0 := stiff.entries;
      ghost var l0 := load.entries;
      ghost var last := LastNR(e.borderElements);
      var k := 0;
      while k < |e.borderElements|
        invariant 0 <= k <= |e.borderElements|
        invariant last.None? ==> stiff.entries == s0 && load.entries == l0
        invariant last.Some? ==> forall i :: 0 <= i < k ==> !BorderFails(boundary, last.value, e.borderElements[i])
        invariant last.Some? ==>
          && stiff.entries == ApplyMat(s0, BorderStiffLog(boundary, last.value, e.borderElements[..k]))
          && load.entries == ApplyVec(l0, BorderLoadLog(boundary, last.value, e.borderElements[..k]))
      {
        r := AssembleBorderStep(e, k, stiff, load, last, s0, l0);
        if r.Err? {
          return;
        }
        k := k + 1;
      }
      if last.Some? {
        BorderTraceComplete(boundary, last.value, e.borderElements);
      }
      r := Ok(());
    }

    /**
     * `assembleGlobal(mesh)`: fresh N-by-N matrix and length-N vector (N the
     * number of mesh nodes), filled by the chained overload.
     */
    method AssembleGlobal(mesh: Mesh) returns (r: Result<()>)
      modifies this
      ensures gA.Some? && gb.Some? && fresh(gA.value) && fresh(gb.value)
      ensures gA.value.rowDim == |mesh.nodes| && gA.value.colDim == |mesh.nodes| && gb.value.dim == |mesh.nodes|
      ensures r == MeshOutcome(mesh.elements)
      ensures gA.value.entries == ApplyMat(map[], MeshStiffTrace(mesh.elements))
      ensures gb.value.entries == ApplyVec(map[], MeshLoadTrace(mesh.elements))
      ensures r.Ok? ==> gA.value.entries == ApplyMat(map[], MeshStiffLog(mesh.elements))
      ensures r.Ok? ==> gb.value.entries == ApplyVec(map[], MeshLoadLog(mesh.elements))
    {
      var dim := |mesh.nodes|;
      var stiff := new SparseMatrix(dim, dim);
      var load := new SparseVector(dim);
      gA, gb := Some(stiff), Some(load);
      r := AssembleGlobalInto(mesh, stiff, load);
      assert gA == Some(stiff) && gb == Some(load);
    }

    /** `getGlobalStiffMatrix()` */
    function GlobalStiffMatrix(): Option<SparseMatrix>
      reads this
    {
      gA
    }

    /** `getGlobalLoadVector()` */
    function GlobalLoadVector(): Option<SparseVector>
      reads this
    {
      gb
    }
  }

  // ---------------------------------------------------------------------
  // Properties

  /**
   * `LastNR` finds a Neumann/Robin element exactly when the list has one, and
   * it is the last of them: no later element is Neumann or Robin.
   */
  lemma {:induction false} LastNRIsLast(list: seq<Element>)
    ensures LastNR(list).Some? <==> exists k :: 0 <= k < |list| && IsNeumannOrRobin(list[k])
    ensures LastNR(list).Some? ==> exists k :: (0 <= k < |list| && list[k] == LastNR(list).value
      && IsNeumannOrRobin(list[k]) && forall k' :: k < k' < |list| ==> !IsNeumannOrRobin(list[k']))
    decreases |list|
  {
    if list == [] {
    } else if IsNeumannOrRobin(list[|list| - 1]) {
      assert list[|list| - 1] == LastNR(list).value;
    } else {
      var init := list[..|list| - 1];
      LastNRIsLast(init);
      assert LastNR(list) == LastNR(init);
      if LastNR(init).Some? {
        var k :| 0 <= k < |init| && init[k] == LastNR(init).value
          && IsNeumannOrRobin(init[k]) && forall k' :: k < k' < |init| ==> !IsNeumannOrRobin(init[k']);
        forall k' | k < k' < |list|
          ensures !IsNeumannOrRobin(list[k'])
        {
          if k' < |init| {
            assert list[k'] == init[k'];
          }
        }
        assert list[k] == init[k];
      } else {
        forall k | 0 <= k < |list|
          ensures !IsNeumannOrRobin(list[k])
        {
          if k < |init| {
            assert list[k] == init[k];
          }
        }
      }
    }
  }

  /** A border loop whose first failing element is the k-th ends with its exception, after the logs before it and its partial row. */
  lemma BorderTraceAtFailure(form: LocalForm, src: Element, list: seq<Element>, k: int)
    requires 0 <= k < |list| && BorderFails(form, src, list[k])
    requires forall i :: 0 <= i < k ==> !BorderFails(form, src, list[i])
    ensures BorderOutcome(form, src, list) == ScatterOutcome(form, src, list[k])
    ensures BorderStiffTrace(form, src, list) == BorderStiffLog(form, src, list[..k]) + ScatterStiffTrace(form, src, list[k])
    ensures BorderLoadTrace(form, src, list) == BorderLoadLog(form, src, list[..k])
  {
    assert FirstBorderFailure(form, src, list) == k;
  }

  /** A border loop in which no element fails ends normally with exactly the border log. */
  lemma BorderTraceComplete(form: LocalForm, src: Element, list: seq<Element>)
    requires forall i :: 0 <= i < |list| ==> !BorderFails(form, src, list[i])
    ensures BorderOutcome(form, src, list) == Ok(())
    ensures BorderStiffTrace(form, src, list) == BorderStiffLog(form, src, list[..|list|])
    ensures BorderLoadTrace(form, src, list) == BorderLoadLog(form, src, list[..|list|])
  {
    assert FirstBorderFailure(form, src, list) == |list|;
    assert list[..|list|] == list;
  }

  /** A border loop that ends normally made exactly the adds of the border log. */
  lemma BorderTraceIsLog(form: LocalForm, src: Element, list: seq<Element>)
    requires BorderOutcome(form, src, list).Ok?
    ensures FirstBorderFailure(form, src, list) == |list|
    ensures BorderStiffTrace(form, src, list) == BorderStiffLog(form, src, list)
    ensures BorderLoadTrace(form, src, list) == BorderLoadLog(form, src, list)
  {
  }

  /** An element whose scatters end normally made exactly the adds of its log. */
  lemma ElementTraceIsLog(a: DomainBoundaryAssembler, e: Element)
    requires a.ElementOutcome(e).Ok?
    ensures a.ElementStiffTrace(e) == a.ElementStiffLog(e)
    ensures a.ElementLoadTrace(e) == a.ElementLoadLog(e)
  {
    var last := LastNR(e.borderElements);
    if last.Some? {
      BorderTraceIsLog(a.boundary, last.value, e.borderElements);
    }
  }

  /** A run whose first failing element is the n-th ends with its exception, after the adds before it. */
  lemma MeshTraceAtFailure(a: DomainBoundaryAssembler, elements: seq<Element>, n: int)
    requires 0 <= n < |elements| && a.ElementOutcome(elements[n]).Err?
    requires forall i :: 0 <= i < n ==> a.ElementOutcome(elements[i]).Ok?
    ensures a.MeshOutcome(elements) == a.ElementOutcome(elements[n])
    ensures a.MeshStiffTrace(elements) == a.MeshStiffLog(elements[..n]) + a.ElementStiffTrace(elements[n])
    ensures a.MeshLoadTrace(elements) == a.MeshLoadLog(elements[..n]) + a.ElementLoadTrace(elements[n])
  {
    assert a.FirstMeshFailure(elements) == n;
  }

  /** A run in which no element fails ends normally and made exactly the adds of the mesh log. */
  lemma MeshTraceComplete(a: DomainBoundaryAssembler, elements: seq<Element>)
    requires forall i :: 0 <= i < |elements| ==> a.ElementOutcome(elements[i]).Ok?
    ensures a.MeshOutcome(elements) == Ok(())
    ensures a.MeshStiffTrace(elements) == a.MeshStiffLog(elements)
    ensures a.MeshLoadTrace(elements) == a.MeshLoadLog(elements)
  {
    assert a.FirstMeshFailure(elements) == |elements|;
  }

  /** The border loop fails exactly when some Neumann/Robin border element has more DOFs than the local system of `src`. */
  lemma BorderFailsIffOverfull(form: LocalForm, src: Element, list: seq<Element>)
    ensures BorderOutcome(form, src, list).Err? <==> exists k :: 0 <= k < |list| && BorderFails(form, src, list[k])
    ensures BorderOutcome(form, src, list).Err? ==> BorderOutcome(form, src, list).error == OutOfBounds(form.size(src), form.size(src))
  {
    var f := FirstBorderFailure(form, src, list);
    if exists k :: 0 <= k < |list| && BorderFails(form, src, list[k]) {
      var k :| 0 <= k < |list| && BorderFails(form, src, list[k]);
      assert f <= k;
    }
  }

  /** A local assembler that sizes each local system to its element's DOF count. */
  ghost predicate SizedToDOFs(form: LocalForm)
  {
    forall x: Element :: form.size(x) == |x.AllDOFList()|
  }

  /**
   * When both local systems are sized to their elements, the domain scatter
   * never fails, and an element's scatters fail exactly when one of its
   * Neumann/Robin border elements has more DOFs than the last one, whose
   * local system every border scatter reads.
   */
  lemma SizedElementFailsIffEarlierBorderLarger(a: DomainBoundaryAssembler, e: Element)
    requires SizedToDOFs(a.domain) && SizedToDOFs(a.boundary)
    ensures a.ElementOutcome(e).Err? <==>
      && LastNR(e.borderElements).Some?
      && exists k :: 0 <= k < |e.borderElements| && IsNeumannOrRobin(e.borderElements[k])
                     && |e.borderElements[k].AllDOFList()| > |LastNR(e.borderElements).value.AllDOFList()|
  {
    assert Fits(a.domain, e, e);
    var last := LastNR(e.borderElements);
    if last.Some? {
      BorderFailsIffOverfull(a.boundary, last.value, e.borderElements);
    }
  }

  /** A Neumann or Robin element in the list means LastNR finds one. */
  lemma NeumannOrRobinIsFound(list: seq<Element>, k: int)
    requires 0 <= k < |list| && IsNeumannOrRobin(list[k])
    ensures LastNR(list).Some?
  {
    LastNRIsLast(list);
  }

  /** A border element that is neither Neumann nor Robin adds nothing to the logs. */
  lemma BorderLogsSkip(form: LocalForm, src: Element, list: seq<Element>, k: int)
    requires 0 <= k < |list| && !IsNeumannOrRobin(list[k])
    ensures BorderStiffLog(form, src, list[..k + 1]) == BorderStiffLog(form, src, list[..k])
    ensures BorderLoadLog(form, src, list[..k + 1]) == BorderLoadLog(form, src, list[..k])
  {
    BorderLogsSnoc(form, src, list, k);
    assert BorderStiffLog(form, src, list[..k]) + [] == BorderStiffLog(form, src, list[..k]);
    assert BorderLoadLog(form, src, list[..k]) + [] == BorderLoadLog(form, src, list[..k]);
  }

  /** One more border element adds its scatter at the end when it is Neumann or Robin, and nothing otherwise. */
  lemma BorderLogsSnoc(form: LocalForm, src: Element, list: seq<Element>, k: int)
    requires 0 <= k < |list|
    ensures BorderStiffLog(form, src, list[..k + 1])
            == BorderStiffLog(form, src, list[..k]) + (if IsNeumannOrRobin(list[k]) then ElementBlock(form, src, list[k]) else [])
    ensures BorderLoadLog(form, src, list[..k + 1])
            == BorderLoadLog(form, src, list[..k]) + (if IsNeumannOrRobin(list[k]) then ElementLoad(form, src, list[k]) else [])
  {
    assert list[..k + 1][..k] == list[..k];
  }

  /** One more element adds its own logs at the end. */
  lemma MeshLogsSnoc(a: DomainBoundaryAssembler, elements: seq<Element>, n: int)
    requires 0 <= n < |elements|
    ensures a.MeshStiffLog(elements[..n + 1]) == a.MeshStiffLog(elements[..n]) + a.ElementStiffLog(elements[n])
    ensures a.MeshLoadLog(elements[..n + 1]) == a.MeshLoadLog(elements[..n]) + a.ElementLoadLog(elements[n])
  {
    assert a.ElementStiffLogs(elements[..n + 1])[..n] == a.ElementStiffLogs(elements[..n]);
    assert a.ElementLoadLogs(elements[..n + 1])[..n] == a.ElementLoadLogs(elements[..n]);
  }

  /** The stiffness log of a concatenation of element lists is the concatenation of their logs. */
  lemma MeshStiffLogAppend(a: DomainBoundaryAssembler, l1: seq<Element>, l2: seq<Element>)
    ensures a.MeshStiffLog(l1 + l2) == a.MeshStiffLog(l1) + a.MeshStiffLog(l2)
  {
    assert a.ElementStiffLogs(l1 + l2) == a.ElementStiffLogs(l1) + a.ElementStiffLogs(l2);
    ConcatMatAppend(a.ElementStiffLogs(l1), a.ElementStiffLogs(l2));
  }

  /**
   * Chaining: assembling `l1` and then `l2` into the same matrix gives each
   * entry its initial value plus the contributions of both runs, the same as
   * one run over `l1 + l2`.
   */
  lemma ChainedRunsAdd(a: DomainBoundaryAssembler, m: map<(int, int), real>, l1: seq<Element>, l2: seq<Element>, k: (int, int))
    ensures ApplyMat(ApplyMat(m, a.MeshStiffLog(l1)), a.MeshStiffLog(l2)) == ApplyMat(m, a.MeshStiffLog(l1 + l2))
    ensures Entry(ApplyMat(m, a.MeshStiffLog(l1 + l2)), k)
            == Entry(m, k) + SumAt(a.MeshStiffLog(l1), k) + SumAt(a.MeshStiffLog(l2), k)
  {
    MeshStiffLogAppend(a, l1, l2);
    ApplyMatAppend(m, a.MeshStiffLog(l1), a.MeshStiffLog(l2));
    ApplyMatEntry(m, a.MeshStiffLog(l1 + l2), k);
    SumAtAppend(a.MeshStiffLog(l1), a.MeshStiffLog(l2), k);
  }

  /** The load log of a concatenation of element lists is the concatenation of their logs. */
  lemma MeshLoadLogAppend(a: DomainBoundaryAssembler, l1: seq<Element>, l2: seq<Element>)
    ensures a.MeshLoadLog(l1 + l2) == a.MeshLoadLog(l1) + a.MeshLoadLog(l2)
  {
    assert a.ElementLoadLogs(l1 + l2) == a.ElementLoadLogs(l1) + a.ElementLoadLogs(l2);
    ConcatVecAppend(a.ElementLoadLogs(l1), a.ElementLoadLogs(l2));
  }

  /**
   * Chaining for the load vector: assembling `l1` and then `l2` into the same
   * vector gives each entry its initial value plus the contributions of both
   * runs, the same as one run over `l1 + l2`.
   */
  lemma ChainedLoadRunsAdd(a: DomainBoundaryAssembler, v: map<int, real>, l1: seq<Element>, l2: seq<Element>, k: int)
    ensures ApplyVec(ApplyVec(v, a.MeshLoadLog(l1)), a.MeshLoadLog(l2)) == ApplyVec(v, a.MeshLoadLog(l1 + l2))
    ensures VecEntry(ApplyVec(v, a.MeshLoadLog(l1 + l2)), k)
            == VecEntry(v, k) + VecSumAt(a.MeshLoadLog(l1), k) + VecSumAt(a.MeshLoadLog(l2), k)
  {
    MeshLoadLogAppend(a, l1, l2);
    ApplyVecAppend(v, a.MeshLoadLog(l1), a.MeshLoadLog(l2));
    ApplyVecEntry(v, a.MeshLoadLog(l1 + l2), k);
    VecSumAtAppend(a.MeshLoadLog(l1), a.MeshLoadLog(l2), k);
  }

  /** Border elements that are not Neumann or Robin contribute nothing. */
  lemma {:induction false} BorderOnlyNeumannRobin(form: LocalForm, src: Element, list: seq<Element>)
    ensures BorderStiffLog(form, src, list) == BorderStiffLog(form, src, FilterNR(list))
    ensures forall k :: 0 <= k < |FilterNR(list)| ==> IsNeumannOrRobin(FilterNR(list)[k])
    decreases |list|
  {
    if list != [] {
      var init := list[..|list| - 1];
      var be := list[|list| - 1];
      BorderOnlyNeumannRobin(form, src, init);
      BorderStiffOfSnoc(form, src, FilterNR(init), be);
    }
  }

  lemma BorderStiffOfSnoc(form: LocalForm, src: Element, list: seq<Element>, be: Element)
    ensures BorderStiffLog(form, src, list + (if IsNeumannOrRobin(be) then [be] else []))
            == BorderStiffLog(form, src, list) + (if IsNeumannOrRobin(be) then ElementBlock(form, src, be) else [])
  {
    if IsNeumannOrRobin(be) {
      assert (list + [be])[..|list|] == list;
    } else {
      assert list + [] == list;
    }
  }

  /** The global indices every add of a block scatter touches. */
  lemma {:induction false} BlockLogIndices(form: LocalForm, src: Element, g: seq<int>, n: int)
    requires 0 <= n <= |g|
    ensures forall t :: 0 <= t < |BlockLog(form, src, g, n)| ==>
      BlockLog(form, src, g, n)[t].row in g && BlockLog(form, src, g, n)[t].col in g
    decreases n
  {
    if n > 0 {
      BlockLogIndices(form, src, g, n - 1);
      RowLogIndices(form, src, g, n - 1, |g|);
    }
  }

  lemma {:induction false} RowLogIndices(form: LocalForm, src: Element, g: seq<int>, j: int, n: int)
    requires 0 <= j < |g| && 0 <= n <= |g|
    ensures forall t :: 0 <= t < |RowLog(form, src, g, j, n)| ==>
      RowLog(form, src, g, j, n)[t].row in g && RowLog(form, src, g, j, n)[t].col in g
    decreases n
  {
    if n > 0 {
      RowLogIndices(form, src, g, j, n - 1);
    }
  }

  /** Every global index of the DOFs of a Neumann/Robin element of `list`. */
  ghost function BorderTouched(list: seq<Element>): set<int>
  {
    set be, x | be in list && IsNeumannOrRobin(be) && x in be.GlobalIndices() :: x
  }

  /** Every global index `assembleGlobal` can touch for element `e`: its own DOFs' and its Neumann/Robin border elements'. */
  ghost function ElementTouched(e: Element): set<int>
  {
    (set x | x in e.GlobalIndices()) + BorderTouched(e.borderElements)
  }

  ghost function Touched(elements: seq<Element>): set<int>
  {
    set e, x | e in elements && x in ElementTouched(e) :: x
  }

  lemma {:induction false} BorderLogIndices(form: LocalForm, src: Element, list: seq<Element>)
    ensures forall t :: 0 <= t < |BorderStiffLog(form, src, list)| ==>
      BorderStiffLog(form, src, list)[t].row in BorderTouched(list) && BorderStiffLog(form, src, list)[t].col in BorderTouched(list)
    decreases |list|
  {
    if list != [] {
      var init := list[..|list| - 1];
      var be := list[|list| - 1];
      BorderLogIndices(form, src, init);
      assert BorderTouched(init) <= BorderTouched(list) by {
        forall x | x in BorderTouched(init) ensures x in BorderTouched(list) {
          var b :| b in init && IsNeumannOrRobin(b) && x in b.GlobalIndices();
          assert b in list;
        }
      }
      var g := be.GlobalIndices();
      BlockLogIndices(form, src, g, |g|);
      var left := BorderStiffLog(form, src, init);
      var whole := BorderStiffLog(form, src, list);
      forall t | 0 <= t < |whole|
        ensures whole[t].row in BorderTouched(list) && whole[t].col in BorderTouched(list)
      {
        if t < |left| {
          assert whole[t] == left[t];
        } else {
          assert IsNeumannOrRobin(be) && whole[t] == BlockLog(form, src, g, |g|)[t - |left|];
          assert be in list;
        }
      }
    }
  }

  lemma ElementLogIndices(a: DomainBoundaryAssembler, e: Element)
    ensures forall t :: 0 <= t < |a.ElementStiffLog(e)| ==>
      a.ElementStiffLog(e)[t].row in ElementTouched(e) && a.ElementStiffLog(e)[t].col in ElementTouched(e)
  {
    var g := e.GlobalIndices();
    BlockLogIndices(a.domain, e, g, |g|);
    var dom := ElementBlock(a.domain, e, e);
    if LastNR(e.borderElements).Some? {
      BorderLogIndices(a.boundary, LastNR(e.borderElements).value, e.borderElements);
      var bl := BorderStiffLog(a.boundary, LastNR(e.borderElements).value, e.borderElements);
      forall t | 0 <= t < |a.ElementStiffLog(e)|
        ensures a.ElementStiffLog(e)[t].row in ElementTouched(e) && a.ElementStiffLog(e)[t].col in ElementTouched(e)
      {
        if t < |dom| {
          assert a.ElementStiffLog(e)[t] == dom[t];
        } else {
          assert a.ElementStiffLog(e)[t] == bl[t - |dom|];
        }
      }
    } else {
      assert a.ElementStiffLog(e) == dom;
    }
  }

  lemma MeshLogIndices(a: DomainBoundaryAssembler, elements: seq<Element>)
    ensures forall t :: 0 <= t < |a.MeshStiffLog(elements)| ==>
      a.MeshStiffLog(elements)[t].row in Touched(elements) && a.MeshStiffLog(elements)[t].col in Touched(elements)
  {
    var logs: seq<seq<MatAdd>> := a.ElementStiffLogs(elements);
    forall i: int, t: int | 0 <= i < |logs| && 0 <= t < |logs[i]|
      ensures logs[i][t].row in Touched(elements) && logs[i][t].col in Touched(elements)
    {
      ElementLogIndices(a, elements[i]);
      assert elements[i] in elements;
    }
    ConcatMatIndices(logs, Touched(elements));
  }

  /**
   * An entry whose row or column is no global index of a visited element's
   * DOFs (or of its Neumann/Robin border elements' DOFs) keeps its value.
   */
  lemma UntouchedEntriesUnchanged(a: DomainBoundaryAssembler, m: map<(int, int), real>, elements: seq<Element>, r: int, c: int)
    requires r !in Touched(elements) || c !in Touched(elements)
    ensures Entry(ApplyMat(m, a.MeshStiffLog(elements)), (r, c)) == Entry(m, (r, c))
  {
    MeshLogIndices(a, elements);
    SumAtUntouched(a.MeshStiffLog(elements), (r, c));
    ApplyMatEntry(m, a.MeshStiffLog(elements), (r, c));
  }

  lemma {:induction false} LoadLogIndices(form: LocalForm, src: Element, g: seq<int>, n: int)
    requires 0 <= n <= |g|
    ensures forall t :: 0 <= t < |LoadLog(form, src, g, n)| ==> LoadLog(form, src, g, n)[t].index in g
    decreases n
  {
    if n > 0 {
      LoadLogIndices(form, src, g, n - 1);
    }
  }

  lemma {:induction false} BorderLoadLogIndices(form: LocalForm, src: Element, list: seq<Element>)
    ensures forall t :: 0 <= t < |BorderLoadLog(form, src, list)| ==> BorderLoadLog(form, src, list)[t].index in BorderTouched(list)
    decreases |list|
  {
    if list != [] {
      var init := list[..|list| - 1];
      var be := list[|list| - 1];
      BorderLoadLogIndices(form, src, init);
      assert BorderTouched(init) <= BorderTouched(list) by {
        forall x | x in BorderTouched(init) ensures x in BorderTouched(list) {
          var b :| b in init && IsNeumannOrRobin(b) && x in b.GlobalIndices();
          assert b in list;
        }
      }
      var g := be.GlobalIndices();
      LoadLogIndices(form, src, g, |g|);
      var left := BorderLoadLog(form, src, init);
      var whole := BorderLoadLog(form, src, list);
      forall t | 0 <= t < |whole|
        ensures whole[t].index in BorderTouched(list)
      {
        if t < |left| {
          assert whole[t] == left[t];
        } else {
          assert IsNeumannOrRobin(be) && whole[t] == LoadLog(form, src, g, |g|)[t - |left|];
          assert be in list;
        }
      }
    }
  }

  lemma ElementLoadLogIndices(a: DomainBoundaryAssembler, e: Element)
    ensures forall t :: 0 <= t < |a.ElementLoadLog(e)| ==> a.ElementLoadLog(e)[t].index in ElementTouched(e)
  {
    var g := e.GlobalIndices();
    LoadLogIndices(a.domain, e, g, |g|);
    var dom := ElementLoad(a.domain, e, e);
    if LastNR(e.borderElements).Some? {
      BorderLoadLogIndices(a.boundary, LastNR(e.borderElements).value, e.borderElements);
      var bl := BorderLoadLog(a.boundary, LastNR(e.borderElements).value, e.borderElements);
      forall t | 0 <= t < |a.ElementLoadLog(e)|
        ensures a.ElementLoadLog(e)[t].index in ElementTouched(e)
      {
        if t < |dom| {
          assert a.ElementLoadLog(e)[t] == dom[t];
        } else {
          assert a.ElementLoadLog(e)[t] == bl[t - |dom|];
        }
      }
    } else {
      assert a.ElementLoadLog(e) == dom;
    }
  }

  lemma MeshLoadLogIndices(a: DomainBoundaryAssembler, elements: seq<Element>)
    ensures forall t :: 0 <= t < |a.MeshLoadLog(elements)| ==> a.MeshLoadLog(elements)[t].index in Touched(elements)
  {
    var logs: seq<seq<VecAdd>> := a.ElementLoadLogs(elements);
    forall i: int, t: int | 0 <= i < |logs| && 0 <= t < |logs[i]|
      ensures logs[i][t].index in Touched(elements)
    {
      ElementLoadLogIndices(a, elements[i]);
      assert elements[i] in elements;
    }
    ConcatVecIndices(logs, Touched(elements));
  }

  /**
   * A load entry whose index is no global index of a visited element's DOFs
   * (or of its Neumann/Robin border elements' DOFs) keeps its value.
   */
  lemma UntouchedLoadUnchanged(a: DomainBoundaryAssembler, v: map<int, real>, elements: seq<Element>, k: int)
    requires k !in Touched(elements)
    ensures VecEntry(ApplyVec(v, a.MeshLoadLog(elements)), k) == VecEntry(v, k)
  {
    MeshLoadLogIndices(a, elements);
    VecSumAtUntouched(a.MeshLoadLog(elements), k);
    ApplyVecEntry(v, a.MeshLoadLog(elements), k);
  }

  // ---------------------------------------------------------------------
  // The border scatters read the last Neumann/Robin element's local system

  /**
   * The border scatters as each Neumann/Robin border element's own local
   * system gives them: the block of `be`'s A onto `be`'s DOFs.
   */
  function OwnBorderStiffLog(form: LocalForm, list: seq<Element>): seq<MatAdd>
    decreases |list|
  {
    if list == [] then []
    else
      var be := list[|list| - 1];
      OwnBorderStiffLog(form, list[..|list| - 1]) + (if IsNeumannOrRobin(be) then ElementBlock(form, be, be) else [])
  }

  /** With each element's own system, a border element's contribution does not depend on the elements after it. */
  lemma {:induction false} OwnBorderLogComposes(form: LocalForm, l1: seq<Element>, l2: seq<Element>)
    ensures OwnBorderStiffLog(form, l1 + l2) == OwnBorderStiffLog(form, l1) + OwnBorderStiffLog(form, l2)
    decreases |l2|
  {
    if l2 == [] {
      assert l1 + l2 == l1;
    } else {
      var init := l2[..|l2| - 1];
      OwnBorderLogComposes(form, l1, init);
      assert (l1 + l2)[..|l1 + l2| - 1] == l1 + init;
      assert (l1 + l2)[|l1 + l2| - 1] == l2[|l2| - 1];
    }
  }

  /** The first add of row j of a scatter reads A[j][0]. */
  lemma {:induction false} RowLogFirst(form: LocalForm, src: Element, g: seq<int>, j: int, n: int)
    requires 0 <= j < |g| && 1 <= n <= |g|
    ensures |RowLog(form, src, g, j, n)| == n
    ensures RowLog(form, src, g, j, n)[0] == MatAdd(g[j], g[0], form.stiff(src, j, 0))
    decreases n
  {
    if n > 1 {
      RowLogFirst(form, src, g, j, n - 1);
    }
  }

  /** The first add of a scatter onto a target with DOFs reads A[0][0]. */
  lemma {:induction false} BlockLogFirst(form: LocalForm, src: Element, g: seq<int>, n: int)
    requires 1 <= n <= |g|
    ensures |BlockLog(form, src, g, n)| >= 1
    ensures BlockLog(form, src, g, n)[0] == MatAdd(g[0], g[0], form.stiff(src, 0, 0))
    decreases n
  {
    var prev := BlockLog(form, src, g, n - 1);
    var row := RowLog(form, src, g, n - 1, |g|);
    assert BlockLog(form, src, g, n) == prev + row;
    if n == 1 {
      RowLogFirst(form, src, g, 0, |g|);
      assert prev == [];
    } else {
      BlockLogFirst(form, src, g, n - 1);
    }
  }

  /** The border log of two Neumann/Robin elements: the block of each, in order, both from `src`'s system. */
  lemma TwoBorderLogs(form: LocalForm, src: Element, a: Element, b: Element)
    requires IsNeumannOrRobin(a) && IsNeumannOrRobin(b)
    ensures BorderStiffLog(form, src, [a, b]) == ElementBlock(form, src, a) + ElementBlock(form, src, b)
  {
    var l := [a, b];
    assert l[..1] == [a] && [a][..0] == [];
    assert BorderStiffLog(form, src, l) == BorderStiffLog(form, src, [a]) + ElementBlock(form, src, b);
    assert BorderStiffLog(form, src, [a]) == BorderStiffLog(form, src, []) + ElementBlock(form, src, a);
  }

  /** The same two elements, each with its own system. */
  lemma TwoOwnBorderLogs(form: LocalForm, a: Element, b: Element)
    requires IsNeumannOrRobin(a) && IsNeumannOrRobin(b)
    ensures OwnBorderStiffLog(form, [a, b]) == ElementBlock(form, a, a) + ElementBlock(form, b, b)
  {
    var l := [a, b];
    assert l[..1] == [a] && [a][..0] == [];
    assert OwnBorderStiffLog(form, l) == OwnBorderStiffLog(form, [a]) + ElementBlock(form, b, b);
    assert OwnBorderStiffLog(form, [a]) == OwnBorderStiffLog(form, []) + ElementBlock(form, a, a);
  }

  /**
   * As written, the border loop scatters every Neumann/Robin border element
   * with the last one's local system: with border elements a, then b, a's
   * DOFs receive b's A, where a's own system gives different adds as soon
   * as the two differ at A[0][0].
   */
  lemma AsWrittenBorderReusesLast(form: LocalForm, a: Element, b: Element)
    requires IsNeumannOrRobin(a) && IsNeumannOrRobin(b)
    requires |a.AllDOFList()| > 0
    requires form.stiff(a, 0, 0) != form.stiff(b, 0, 0)
    ensures LastNR([a, b]) == Some(b)
    ensures BorderStiffLog(form, b, [a, b]) == ElementBlock(form, b, a) + ElementBlock(form, b, b)
    ensures OwnBorderStiffLog(form, [a, b]) == ElementBlock(form, a, a) + ElementBlock(form, b, b)
    ensures BorderStiffLog(form, b, [a, b]) != OwnBorderStiffLog(form, [a, b])
  {
    TwoBorderLogs(form, b, a, b);
    TwoOwnBorderLogs(form, a, b);
    var g := a.GlobalIndices();
    BlockLogFirst(form, b, g, |g|);
    BlockLogFirst(form, a, g, |g|);
    var mine := ElementBlock(form, a, a);
    var theirs := ElementBlock(form, b, a);
    var rest := ElementBlock(form, b, b);
    assert (theirs + rest)[0] == theirs[0];
    assert (mine + rest)[0] == mine[0];
  }
}
