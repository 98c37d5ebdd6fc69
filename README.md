# Verified model of the FEM assembly bookkeeping and index-exact matrix utilities

This project models, in Dafny, the integer bookkeeping of a Java finite-element
library and the small matrix and polynomial utilities next to it:

- **DOF numbering of the Q1/P0 Stokes element.** Two variants are modelled.
  - `FEBilinearV_ConstantPOld` attaches the velocity and pressure DOFs to an element. It takes each pressure index from a running counter.
  - `FEBilinearV_ConstantP` gives the same layout as closed-form functions: velocity-x in 1..N, velocity-y in N+1..2N, pressure in 2N+1..2N+E.
- **`EdgeLocal`.**
  - border-type agreement of the two endpoints;
  - the cached, sign-corrected edge normal;
  - `buildEdge`;
  - `changeToElement`, which renumbers the owner element's DOFs into a one-dimensional boundary element.
- **`DomainBoundaryAssembler`.** This is the scatter-add of local stiffness matrices and load vectors into global accumulators, including Neumann/Robin border elements and chained runs. A read past the end of a local array ends a run with the index exception; the model states which run fails and the adds made before the failure.
- **`WeakFormMixedLaplace.assembleElement`.** It routes element contributions into the B, C and C' blocks and the load.
- **`AbstractVectorWeakForm`.** This covers the quadrature-rule dispatch on (dimension, vertex count), DOF binding and the unsupported-operation stubs.
- **`SFLinearLocal3D`.** This covers its derivative table in local coordinates, evaluation and face restriction.
- **Two dense `Matrix` classes.**
  - `matrix/Matrix` is a class over an array of row sequences.
  - `powerIter/util/Matrix` is a class over a two-dimensional array.
- **`HermitePoly`.** The Hermite recurrence is modelled over integer coefficient sequences.

Floating-point values (quadrature results, local stiffness entries, matrix
entries) are `real`. Quadrature and the local assembler `BasicAssembler` are
oracles passed as function parameters. Global accumulators are classes over
sparse maps. Each sequence of `add` calls is specified by an "add log", a
sequence of `(row, column, value)` records folded by `ApplyMat`/`ApplyVec`.
The unseen classes `Node`, `DOF`, `Element` and `Mesh` are records holding only
the data the core reads. Exceptions and `System.exit` become `Err` values of a
`Result`.

Modules, one per file:
- `Common` (common.dfy) and `FemCore` (fem_core.dfy): shared records and results.
- `Accumulate` (accumulate.dfy): sparse accumulators and add logs.
- `Grids` (grid.dfy): the entry-level specification shared by both matrix classes.
- `BilinearVConstantPOld`, `BilinearVConstantP`, `Edges`, `Assembly`, `MixedLaplace`, `VectorWeakForm`, `LinearLocal3D`, `DenseMatrix`, `PowerIterMatrix` and `Hermite`: one per core Java file.

## Model

| member | source | states |
|---|---|---|
| Hermite.Hermite | src/mathLib/polynom/special/HermitePoly.java:11-22 | a negative degree fails with IllegalArgument("degree must be greater than or equal to 0"); otherwise the result is H(n), with n+1 coefficients |
| Hermite.H | src/mathLib/polynom/special/HermitePoly.java:14-21 | hermite(n) has degree n and leading coefficient 2^n, proved through the recurrence 2X·H(n−1) − H'(n−1) |
| Hermite.RecursionAgreesAtTwo | src/mathLib/polynom/special/HermitePoly.java:17-21 | the recurrence applied to H(1) reproduces the hard-coded 4X²−2 |
| Hermite.StepFlipsParity | src/mathLib/polynom/special/HermitePoly.java:21 | one recurrence step turns a polynomial with only even (odd) powers into one with only odd (even) powers |
| Hermite.ParityOfPowers | src/mathLib/polynom/special/HermitePoly.java:14-21 | hermite(n) contains only powers with the parity of n |
| Hermite.BaseParity | src/mathLib/polynom/special/HermitePoly.java:14-19 | the base cases 1, 2X, 4X²−2 contain only powers of their degree's parity |
| BilinearVConstantPOld.CompletedNodes | src/mathLib/fem/element/FEBilinearV_ConstantPOld.java:44-58 | the number of nodes whose two velocity DOFs are attached before `shapeFun[nNode+j-1]` leaves the nine-entry array; never more than nNode |
| BilinearVConstantPOld.AttachVelocityDOFs | src/mathLib/fem/element/FEBilinearV_ConstantPOld.java:42-62 | the loop completes exactly when the element has at most 4 nodes; the result carries the velocity pairs of the first CompletedNodes nodes and nothing else |
| BilinearVConstantPOld.AttachVelocityPair | src/mathLib/fem/element/FEBilinearV_ConstantPOld.java:46-61 | one iteration appends velocity-x then velocity-y to node j's list, advancing the loop state by one node |
| BilinearVConstantPOld.StopsEarly | src/mathLib/fem/element/FEBilinearV_ConstantPOld.java:53-58 | when `shapeFun[nNode+j-1]` is out of range, j−1 nodes are complete and the element has more than 4 nodes |
| BilinearVConstantPOld.RunsToEnd | src/mathLib/fem/element/FEBilinearV_ConstantPOld.java:44-62 | when no index left the array, nNode ≤ 4 and every node is complete |
| BilinearVConstantPOld.FEBilinearVConstantPOld.constructor | src/mathLib/fem/element/FEBilinearV_ConstantPOld.java:26-29 | both counters start at −1 and no pressure index has been issued |
| BilinearVConstantPOld.FEBilinearVConstantPOld.InitDOFIndexGenerator | src/mathLib/fem/element/FEBilinearV_ConstantPOld.java:85-88 | nTotalNodes becomes the mesh node count and the pressure counter 1 |
| BilinearVConstantPOld.FEBilinearVConstantPOld.AssignTo | src/mathLib/fem/element/FEBilinearV_ConstantPOld.java:35-74 | before initialisation it exits with status −1 and changes nothing. With ≤4 nodes it attaches both velocity DOFs per node and the pressure DOF (local 2·nNode+1, global 2N+counter, component 3), and the counter grows by exactly 1. With more nodes it fails with "Index nNode+k out of bounds for length 9", k = CompletedNodes(nNode); the DOFs already attached stay and the counter is unchanged |
| BilinearVConstantPOld.FEBilinearVConstantPOld.AssignTwice | src/mathLib/fem/element/FEBilinearV_ConstantPOld.java:65-71 | assigning the same element twice issues two different pressure indices, 2N+c and 2N+c+1 |
| BilinearVConstantPOld.VelocityDOFsAttached | src/mathLib/fem/element/FEBilinearV_ConstantPOld.java:44-62 | after nodes 1..k, node j ≤ k has gained exactly [velocity-x, velocity-y] and every other list is unchanged |
| BilinearVConstantPOld.AssignedLayout | src/mathLib/fem/element/FEBilinearV_ConstantPOld.java:43-73 | node j gets DOF(j, node index, component 1) and DOF(nNode+j, N + node index, component 2); the volume DOFs gain the pressure DOF |
| BilinearVConstantPOld.IssuedPressureIndices | src/mathLib/fem/element/FEBilinearV_ConstantPOld.java:43-73 | pressure indices issued since initialisation are pairwise distinct, lie in 2N+1..2N+k, and exceed every velocity index of nodes 1..N |
| BilinearVConstantPOld.AgreesWithClosedForm | src/mathLib/fem/element/FEBilinearV_ConstantPOld.java:43-73 | on a four-node element the counter numbering equals FEBilinearV_ConstantP's closed-form getGlobalIndex for locals j, 4+j and 9 |
| BilinearVConstantPOld.DOFCountsAgree | src/mathLib/fem/element/FEBilinearV_ConstantPOld.java:15-24 | the per-component counts add up to 2·nNode+1 = 9 DOFs on a four-node element and to getTotalNumberOfDOFs = 2N+E on a mesh |
| BilinearVConstantPOld.DOFNumOnElement | src/mathLib/fem/element/FEBilinearV_ConstantPOld.java:19-24 | for each component 1..3, the count equals the number of locals the nine-DOF layout of FEBilinearV_ConstantP gives it (4, 4, 1) |
| BilinearVConstantPOld.DOFNumOnMesh | src/mathLib/fem/element/FEBilinearV_ConstantPOld.java:76-82 | for each component 1..3, the count equals FEBilinearV_ConstantP's per-component count N, N or E |
| BilinearVConstantP.GlobalIndex | src/mathLib/fem/element/FEBilinearV_ConstantP.java:135-147 | locals 1..4 give the vertex's node index and 5..8 that index plus N; on a well-indexed element exactly locals 1..9 succeed, each in its component's range 1..N, N+1..2N or 2N+1..2N+E; any other local fails with "local index = k. It should be in 1...9" |
| BilinearVConstantP.VVFComponentIndex | src/mathLib/fem/element/FEBilinearV_ConstantP.java:167-177 | exactly locals 1..9 have a component, (l+3)/4: 1 for 1..4, 2 for 5..8, 3 for 9; any other local fails with "local index should be in the range of [1,10]" |
| BilinearVConstantP.ComponentLocalsSizes | src/mathLib/fem/element/FEBilinearV_ConstantP.java:167-177 | the component map gives four local DOFs to each velocity component and one to the pressure |
| BilinearVConstantP.GlobalIndexInjective | src/mathLib/fem/element/FEBilinearV_ConstantP.java:135-147 | on an element with distinct vertex indices, different local indices get different global indices |
| BilinearVConstantP.SharedNodeSameGlobalIndex | src/mathLib/fem/element/FEBilinearV_ConstantP.java:135-147 | two elements sharing a node give it the same velocity global index |
| BilinearVConstantP.CouplingSymmetric | src/mathLib/fem/element/FEBilinearV_ConstantP.java:125-133 | isDOFCoupled is symmetric |
| BilinearVConstantP.NumberOfNOFs | src/mathLib/fem/element/FEBilinearV_ConstantP.java:156-165 | exactly components 1..3 have a count; each velocity count is twice the N nodes its component numbers, the pressure count is E; other components fail with "nVVFComponentIndex should be 1, 2 or 3" |
| BilinearVConstantP.IsDOFCoupled | src/mathLib/fem/element/FEBilinearV_ConstantP.java:124-133 | on indices 0..8, two DOFs are coupled iff one is the pressure (8) or both have the same VVF component |
| BilinearVConstantP.NumberOfNOFsOvercounts | src/mathLib/fem/element/FEBilinearV_ConstantP.java:150-165 | the counts getNumberOfNOFs returns for components 1, 2, 3 sum to exactly 4N+E, which differs from getTotalNumberOfDOFs = 2N+E |
| BilinearVConstantP.NumberOfNOFsPerComponentSums | src/mathLib/fem/element/FEBilinearV_ConstantP.java:150-165 | the layout's per-component counts N, N, E sum to the total 2N+E and exist exactly for components 1..3 |
| BilinearVConstantP.DOFTypeAsWritten | src/mathLib/fem/element/FEBilinearV_ConstantP.java:185-195 | as written, on an element with at least four nodes exactly locals 1-4, 7, 8 and 9 succeed: locals 5 and 6 read nodes −1 and 0; local 9 is null |
| BilinearVConstantP.DOFType | src/mathLib/fem/element/FEBilinearV_ConstantP.java:185-195 | corrected: on an element with at least four nodes exactly locals 1..9 succeed; a velocity DOF has the type of vertex (l−1) mod 4 for its own component; local 9 is null |
| BilinearVConstantP.DOFTypeAsWrittenMisreads | src/mathLib/fem/element/FEBilinearV_ConstantP.java:185-195 | as written, getDOFType fails for locals 5 and 6 and reports the wrong node for local 7 |
| BilinearVConstantP.DOFTypeFollowsLayout | src/mathLib/fem/element/FEBilinearV_ConstantP.java:185-195 | the corrected getDOFType reads the component-1 or component-2 type of the vertex getGlobalIndex uses; local 9 gives null |
| BilinearVConstantP.PlaceholdersAreEmpty | src/mathLib/fem/element/FEBilinearV_ConstantP.java:198-213 | getNumberOfDOFs(mesh, c) is 0, and getDOF and getGeoEntity are null |
| Edges.EdgeLocal.constructor | src/mathLib/fem/core/EdgeLocal.java:24-38 | stores the local index, global edge and owner; the normal is not yet cached |
| Edges.EdgeLocal.SetGlobalEdge | src/mathLib/fem/core/EdgeLocal.java:40-42 | sets the global edge and leaves the cached normal alone |
| Edges.EdgeLocal.BorderType | src/mathLib/fem/core/EdgeLocal.java:59-67 | getBorderType(c) is non-null iff both endpoints have the same non-null type for c, and then it is that type |
| Edges.EdgeLocal.IsBorderEdge | src/mathLib/fem/core/EdgeLocal.java:73-79 | false iff some endpoint's type is Inner; a border edge's getBorderType() is never Inner, and an edge whose endpoints agree on Inner is not a border edge |
| Edges.EdgeLocal.GetNormVector | src/mathLib/fem/core/EdgeLocal.java:97-113 | a cached normal is returned unchanged; otherwise the normal is computed, cached and returned |
| Edges.OppositeEdgesOppositeNormals | src/mathLib/fem/core/EdgeLocal.java:100-108 | with a global edge, the normal equals the global normal when the local and global begin nodes share a global index, and its negation otherwise |
| Edges.NegateInvolution | src/mathLib/fem/core/EdgeLocal.java:104-106 | negating the normal twice restores it |
| Edges.EdgeLocal.BuildEdge | src/mathLib/fem/core/EdgeLocal.java:115-125 | the begin and end vertices get local indices 1 and 2, and the edge nodes get 3, 4, … in order, all on the same global nodes |
| Edges.AppendRelabelled | src/mathLib/fem/core/EdgeLocal.java:188-230 | one owner DOF list is appended under one key, relabelled start, start+nNode, …; a DOF without a shape function fails with NullPointer, with `restrictTo` taken to be total; other keys and all other fields are unchanged |
| Edges.EdgeLocal.ChangeToElement | src/mathLib/fem/core/EdgeLocal.java:173-233 | without an owner it fails with NullPointer; otherwise it builds the boundary element exactly as written, node list by node list, failing with NullPointer iff some edge-node DOF lacks a shape function, with `restrictTo` taken to be total |
| Edges.EdgeLocal.AttachEdgeNode | src/mathLib/fem/core/EdgeLocal.java:214-230 | edge node i's owner DOFs are filed under key i+2 starting at local index i |
| Edges.EdgeLocal.AttachEdgeNodeDOFs | src/mathLib/fem/core/EdgeLocal.java:214-231 | the edge-node loop succeeds iff every edge-node DOF has a shape function, fails with NullPointer otherwise, and on success leaves every node list built as written; `restrictTo` is taken to be total |
| Edges.BoundaryDOFsKeepGlobalData | src/mathLib/fem/core/EdgeLocal.java:188-230 | every DOF of the new element keeps its owner DOF's global index, component and shape function |
| Edges.NodeDOFsUpToCount | src/mathLib/fem/core/EdgeLocal.java:189-231 | the node DOFs of the first n local nodes number the sum of the owner lists' sizes |
| Edges.BoundaryElementDOFCount | src/mathLib/fem/core/EdgeLocal.java:176-231 | the new element has nNode nodes; its DOF count is the sum of the owner DOF-list sizes at the begin, end and edge nodes; its parent is the given element |
| Edges.AsWrittenIndicesCollide | src/mathLib/fem/core/EdgeLocal.java:214-216 | as written, the first DOF of edge node 1 gets local index 1, the same as the begin vertex's first DOF |
| Edges.CorrectedIndicesDistinct | src/mathLib/fem/core/EdgeLocal.java:180-230 | when the edge-node numbering starts at 2+i, no two DOFs of the new element share a local index |
| Assembly.ScatterRow | src/mathLib/fem/assembler/DomainBoundaryAssembler.java:84-87 | row j adds A[j][i] at (g(j), g(i)) for each i in turn; a row or column past the local system's size fails with that index, after the adds before it |
| Assembly.Scatter | src/mathLib/fem/assembler/DomainBoundaryAssembler.java:81-89 | a target that fits the local system gets the block log (A[j][i] at (g(j), g(i)) for j, then i) in `stiff` and b[j] at g(j) in `load`; otherwise row 0 is added up to the failing column, the load is untouched and the error is Index size out of bounds for length size |
| Assembly.DomainBoundaryAssembler.constructor | src/mathLib/fem/assembler/DomainBoundaryAssembler.java:28-31 | keeps the domain and boundary local forms; neither has assembled anything yet |
| Assembly.DomainBoundaryAssembler.AssembleLocal | src/mathLib/fem/assembler/DomainBoundaryAssembler.java:37-48 | the domain assembler holds e; the boundary assembler holds the last Neumann/Robin border element of e, or what it held before if there is none |
| Assembly.DomainBoundaryAssembler.AssembleBorder | src/mathLib/fem/assembler/DomainBoundaryAssembler.java:92-107 | every Neumann/Robin border element of e is scattered with the local system of the last one, and other border elements add nothing; the loop stops at the first element with more DOFs than that system, with its exception and the adds made so far |
| Assembly.DomainBoundaryAssembler.AssembleBorderStep | src/mathLib/fem/assembler/DomainBoundaryAssembler.java:93-106 | one border element: a Neumann/Robin one is scattered with the reused system and may end the loop with its exception; any other adds nothing |
| Assembly.BorderTraceAtFailure | src/mathLib/fem/assembler/DomainBoundaryAssembler.java:92-107 | a border loop whose first failing element is the k-th ends with its exception after the blocks of the elements before it and its partial row |
| Assembly.BorderTraceComplete | src/mathLib/fem/assembler/DomainBoundaryAssembler.java:92-107 | a border loop in which no element fails ends normally with exactly the border log |
| Assembly.FirstBorderFailure | src/mathLib/fem/assembler/DomainBoundaryAssembler.java:97-104 | the first border element whose scatter fails: every earlier one succeeds and it fails, or none fails |
| Assembly.BorderFailsIffOverfull | src/mathLib/fem/assembler/DomainBoundaryAssembler.java:97-104 | the border loop fails iff some Neumann/Robin border element has more DOFs than the reused local system, and the error names that system's size |
| Assembly.SizedElementFailsIffEarlierBorderLarger | src/mathLib/fem/assembler/DomainBoundaryAssembler.java:41-46 | with local systems sized to their elements, an element fails iff one of its Neumann/Robin border elements has more DOFs than the last one |
| Assembly.DomainBoundaryAssembler.AssembleElementStep | src/mathLib/fem/assembler/DomainBoundaryAssembler.java:78-107 | one element: assembleLocal, the domain scatter, then the border loop, ending with the element's outcome and the adds made before it |
| Assembly.DomainBoundaryAssembler.AssembleGlobalInto | src/mathLib/fem/assembler/DomainBoundaryAssembler.java:72-112 | a run with no failing element adds every element's add log, in mesh order, and makes the containers gA and gb; otherwise it stops at the first failing element with its exception, keeps the adds made before it and leaves gA and gb as they were |
| Assembly.DomainBoundaryAssembler.FirstMeshFailure | src/mathLib/fem/assembler/DomainBoundaryAssembler.java:75-108 | the first element whose scatters fail: every earlier one succeeds and it fails, or none fails |
| Assembly.MeshTraceAtFailure | src/mathLib/fem/assembler/DomainBoundaryAssembler.java:75-108 | a run whose first failing element is the n-th ends with its exception after the logs of elements 0..n-1 and its partial adds |
| Assembly.MeshTraceComplete | src/mathLib/fem/assembler/DomainBoundaryAssembler.java:75-111 | a run in which no element fails ends normally with exactly the mesh log |
| Assembly.ElementTraceIsLog | src/mathLib/fem/assembler/DomainBoundaryAssembler.java:78-107 | an element whose scatters all succeed makes exactly its add log |
| Assembly.DomainBoundaryAssembler.AssembleGlobal | src/mathLib/fem/assembler/DomainBoundaryAssembler.java:54-59 | fresh N×N matrix and length-N vector (N = node count) become gA and gb before the run; they hold exactly the mesh's contributions, or the adds made before the first failure together with its exception |
| Assembly.DomainBoundaryAssembler.ElementStiffLogs | src/mathLib/fem/assembler/DomainBoundaryAssembler.java:75-107 | one log per element, in mesh order: its domain block followed by its border blocks |
| Assembly.LastNRIsLast | src/mathLib/fem/assembler/DomainBoundaryAssembler.java:41-46 | a Neumann/Robin element is found iff the list has one; the element the boundary assembler is left with is one, and no later element of the list is Neumann or Robin |
| Assembly.BorderOnlyNeumannRobin | src/mathLib/fem/assembler/DomainBoundaryAssembler.java:92-96 | the border log equals the log of the Neumann/Robin elements alone |
| Assembly.BorderLogsSnoc | src/mathLib/fem/assembler/DomainBoundaryAssembler.java:92-106 | one more border element adds its block and load when it is Neumann or Robin, and nothing otherwise |
| Assembly.MeshLogsSnoc | src/mathLib/fem/assembler/DomainBoundaryAssembler.java:75-108 | one more mesh element appends its own logs |
| Assembly.MeshStiffLogAppend | src/mathLib/fem/assembler/DomainBoundaryAssembler.java:72-108 | the log of a concatenation of element lists is the concatenation of their logs |
| Assembly.ChainedRunsAdd | src/mathLib/fem/assembler/DomainBoundaryAssembler.java:65-72 | two chained runs into one matrix equal one run over both lists; each entry is its initial value plus both runs' sums |
| Assembly.MeshLoadLogAppend | src/mathLib/fem/assembler/DomainBoundaryAssembler.java:72-108 | the load log of a concatenation of element lists is the concatenation of their load logs |
| Assembly.ChainedLoadRunsAdd | src/mathLib/fem/assembler/DomainBoundaryAssembler.java:65-72 | two chained runs into one load vector equal one run over both lists; each entry is its initial value plus both runs' sums |
| Assembly.MeshLogIndices | src/mathLib/fem/assembler/DomainBoundaryAssembler.java:81-104 | every add of a run hits rows and columns that are global indices of visited DOFs |
| Assembly.UntouchedEntriesUnchanged | src/mathLib/fem/assembler/DomainBoundaryAssembler.java:72-111 | an entry whose row or column is no visited global index keeps its value |
| Assembly.UntouchedLoadUnchanged | src/mathLib/fem/assembler/DomainBoundaryAssembler.java:72-111 | a load entry whose index is no visited global index keeps its value |
| Assembly.OwnBorderLogComposes | src/mathLib/fem/assembler/DomainBoundaryAssembler.java:92-107 | with each border element's own local system, the border log of a concatenation is the concatenation of the logs |
| Assembly.AsWrittenBorderReusesLast | src/mathLib/fem/assembler/DomainBoundaryAssembler.java:92-107 | with Neumann/Robin border elements a then b, a's DOFs receive b's local matrix, which differs from a's own scatter when the two systems differ at A[0][0] |
| Accumulate.ApplyMatAppend | src/mathLib/fem/assembler/DomainBoundaryAssembler.java:86 | applying two logs in turn equals applying their concatenation (`add` never clears) |
| Accumulate.ApplyMatEntry | src/mathLib/fem/assembler/DomainBoundaryAssembler.java:86 | each matrix entry after a log is its initial value plus the sum of the values added there |
| Accumulate.ApplyVecEntry | src/mathLib/fem/assembler/DomainBoundaryAssembler.java:88 | each load entry after a log is its initial value plus the sum of the values added there |
| Accumulate.SumAtUntouched | src/mathLib/fem/assembler/DomainBoundaryAssembler.java:86 | a log that never adds at k adds nothing there |
| MixedLaplace.WeakFormMixedLaplace.constructor | src/mathLib/fem/weakform/WeakFormMixedLaplace.java:40-41 | f and k both start null |
| MixedLaplace.WeakFormMixedLaplace.SetF | src/mathLib/fem/weakform/WeakFormMixedLaplace.java:46-48 | stores f and leaves k alone |
| MixedLaplace.WeakFormMixedLaplace.SetParam | src/mathLib/fem/weakform/WeakFormMixedLaplace.java:51-56 | stores only k; c, g and d are discarded |
| MixedLaplace.WeakFormMixedLaplace.AssembleElement | src/mathLib/fem/weakform/WeakFormMixedLaplace.java:60-136 | a missing edge shape function fails with NullPointer and changes nothing; otherwise stiff gains the B/C/C' log and load gains the load log |
| MixedLaplace.CheckEdgeShapes | src/mathLib/fem/weakform/WeakFormMixedLaplace.java:79-82 | the binding loop succeeds iff every edge DOF has a shape function |
| MixedLaplace.AddStiff | src/mathLib/fem/weakform/WeakFormMixedLaplace.java:85-114 | the nested loops add exactly StiffLog, edge DOF by edge DOF |
| MixedLaplace.AddLoad | src/mathLib/fem/weakform/WeakFormMixedLaplace.java:118-135 | the load loop adds exactly the load log |
| MixedLaplace.TriangleAddCount | src/mathLib/fem/weakform/WeakFormMixedLaplace.java:85-114 | on a triangle the matrix receives nEdge² + 2·nEdge·nElem adds |
| MixedLaplace.StiffLogLength | src/mathLib/fem/weakform/WeakFormMixedLaplace.java:85-114 | there are nEdge·(nEdge + 2·nElem) adds on triangles and nEdge·2·nElem adds otherwise |
| MixedLaplace.NoBOffTriangles | src/mathLib/fem/weakform/WeakFormMixedLaplace.java:96-100 | off triangles there is no B contribution; the matrix log is the C/C' log alone |
| MixedLaplace.StiffSplitsIntoBlocks | src/mathLib/fem/weakform/WeakFormMixedLaplace.java:88-113 | each matrix entry receives its B part plus its C/C' part |
| MixedLaplace.CPairsTransposed | src/mathLib/fem/weakform/WeakFormMixedLaplace.java:103-112 | for one edge DOF, the C/C' adds at (r, c) and at (c, r) sum to the same value |
| MixedLaplace.CBlocksTransposed | src/mathLib/fem/weakform/WeakFormMixedLaplace.java:103-113 | the whole C/C' contribution is symmetric: C' is the transpose of C |
| MixedLaplace.LoadLogContents | src/mathLib/fem/weakform/WeakFormMixedLaplace.java:118-135 | one add per volume DOF, at its global index, of the negated integral of f (0.0 unless 3 or 4 vertices) |
| MixedLaplace.LoadOnlyAtVolumeDOFs | src/mathLib/fem/weakform/WeakFormMixedLaplace.java:118-135 | load entries that are no volume-DOF global index are untouched |
| VectorWeakForm.Integrate | src/mathLib/fem/weakform/AbstractVectorWeakForm.java:71-107 | a null integrand gives 0.0; every success is a quadrature value, and a segment always takes the line rule of order 5; failures are "Error: integrate" for planar and solid elements and "Can integrate on e" followed by the vertex list otherwise |
| VectorWeakForm.IntegrateFollowsTable | src/mathLib/fem/weakform/AbstractVectorWeakForm.java:71-107 | a null integrand gives 0.0. (2,3)→triangle/4, (2,4)→rectangle/2, (3,4)→tetrahedron/2, (3,8)→hexahedron/2, dim 1→line/5. Other dim-2/3 shapes fail with "Error: integrate"; other dims fail with "Can integrate on e" followed by the vertex list |
| VectorWeakForm.AbstractVectorWeakForm.constructor | src/mathLib/fem/weakform/AbstractVectorWeakForm.java:14-19 | both DOFs and both shape functions start null |
| VectorWeakForm.AbstractVectorWeakForm.SetDOF | src/mathLib/fem/weakform/AbstractVectorWeakForm.java:47-68 | both DOFs are stored, so the getters return them; u and its local index change only for a non-null trial DOF, v and its local index only for a non-null test DOF |
| VectorWeakForm.AbstractVectorWeakForm.AssembleElement | src/mathLib/fem/weakform/AbstractVectorWeakForm.java:21-25 | always unsupported |
| VectorWeakForm.AbstractVectorWeakForm.LeftHandSide | src/mathLib/fem/weakform/AbstractVectorWeakForm.java:27-30 | always unsupported |
| VectorWeakForm.AbstractVectorWeakForm.RightHandSide | src/mathLib/fem/weakform/AbstractVectorWeakForm.java:32-35 | always unsupported |
| VectorWeakForm.AbstractVectorWeakForm.IsVVFComponentCoupled | src/mathLib/fem/weakform/AbstractVectorWeakForm.java:109-111 | always fails with the runtime message asking for the coupling of the VVF components |
| VectorWeakForm.AbstractVectorWeakForm.PreProcess | src/mathLib/fem/weakform/AbstractVectorWeakForm.java:113-114 | the hook leaves the form unchanged |
| LinearLocal3D.SFLinearLocal3D.constructor | src/mathLib/fem/shapefun/SFLinearLocal3D.java:72-74 | funIndex = funID−1; variables r, s, t, u and inner variables x, y, z are set only for funID in 1..4 |
| LinearLocal3D.SFLinearLocal3D.Create | src/mathLib/fem/shapefun/SFLinearLocal3D.java:57-70 | funIndex = funID−1 before validation; an invalid funID leaves the variable names unchanged |
| LinearLocal3D.DiffIsLinearCoefficient | src/mathLib/fem/shapefun/SFLinearLocal3D.java:138-145 | d/dr, d/ds, d/dt give −1 for the fourth function, 1 for the function's own variable and 0 otherwise: the coefficient of the linear form r, s, t or 1−r−s−t |
| LinearLocal3D.SFLinearLocal3D.Diff | src/mathLib/fem/shapefun/SFLinearLocal3D.java:133-186 | a negative volume fails first; d/du fails with "Error: u is not free variable"; d/dx, d/dy, d/dz exist iff funIndex is in 0..3, and otherwise fail with "Error: derivative(x), funIndex=" and the index; any other name fails with a message naming it |
| LinearLocal3D.InvalidFunctionFails | src/mathLib/fem/shapefun/SFLinearLocal3D.java:133-200 | with funIndex outside 0..3, diff and apply fail |
| LinearLocal3D.SFLinearLocal3D.Apply | src/mathLib/fem/shapefun/SFLinearLocal3D.java:188-200 | succeeds iff funIndex is in 0..3, otherwise "Error: funIndex=" and the index; at a point where u = 1−r−s−t the value is the function's linear form in r, s, t |
| LinearLocal3D.SFLinearLocal3D.RestrictTo | src/mathLib/fem/shapefun/SFLinearLocal3D.java:128-130 | succeeds iff funID is in 1..3, giving the face function SFLinearLocal2D(funID); otherwise Index funID−1 out of bounds for length 3 |
| LinearLocal3D.SFLinearLocal3D.ApplyArgs | src/mathLib/fem/shapefun/SFLinearLocal3D.java:212-214 | always unsupported |
| DenseMatrix.Matrix.constructor | src/mathLib/matrix/Matrix.java:10-19 | M×N zero matrix |
| DenseMatrix.Matrix.FromArray | src/mathLib/matrix/Matrix.java:22-29 | an empty array fails at index 0; otherwise it succeeds iff no row is shorter than the first, giving a fresh copy of each row's first N entries, and else fails at the length of the first shorter row |
| DenseMatrix.Matrix.FromRow | src/mathLib/matrix/Matrix.java:33-40 | a fresh 1×N row copy |
| DenseMatrix.Matrix.Identity | src/mathLib/matrix/Matrix.java:68-79 | 1 exactly on the diagonal |
| DenseMatrix.IdentityIsDiagOfOnes | src/mathLib/matrix/Matrix.java:68-100 | identity(N) equals diag of N ones |
| DenseMatrix.Matrix.Constant | src/mathLib/matrix/Matrix.java:82-90 | every entry is c |
| DenseMatrix.Matrix.Diag | src/mathLib/matrix/Matrix.java:93-100 | \|v\|×\|v\|, v on the diagonal, 0 elsewhere |
| DenseMatrix.Matrix.Swap | src/mathLib/matrix/Matrix.java:103-107 | in range: rows i and j are exchanged in place and others unchanged; out of range: fails and changes nothing |
| DenseMatrix.SwapTwice | src/mathLib/matrix/Matrix.java:103-107 | swapping the same rows twice restores the matrix |
| DenseMatrix.SwapPermutes | src/mathLib/matrix/Matrix.java:103-107 | a swap keeps the shape and the multiset of rows |
| DenseMatrix.Matrix.Transpose | src/mathLib/matrix/Matrix.java:110-116 | N×M with C[j][i] = A[i][j] |
| Grids.TransposeInvolution | src/mathLib/matrix/Matrix.java:110-116 | transposing twice restores the matrix |
| DenseMatrix.Matrix.Plus | src/mathLib/matrix/Matrix.java:119-127 | shape mismatch fails with "Illegal matrix dimensions."; otherwise entry-wise sum |
| DenseMatrix.Matrix.PlusScalar | src/mathLib/matrix/Matrix.java:130-137 | a added to every entry |
| DenseMatrix.Matrix.Minus | src/mathLib/matrix/Matrix.java:140-148 | shape mismatch fails; otherwise entry-wise difference |
| DenseMatrix.Matrix.MinusScalar | src/mathLib/matrix/Matrix.java:151-158 | a subtracted from every entry |
| DenseMatrix.Matrix.Equals | src/mathLib/matrix/Matrix.java:161-168 | shape mismatch fails and does not return false; otherwise true iff all entries are equal |
| DenseMatrix.Matrix.EqualsTol | src/mathLib/matrix/Matrix.java:171-178 | shape mismatch fails; otherwise true iff every entry agrees within tol |
| DenseMatrix.ZeroTolIsEquality | src/mathLib/matrix/Matrix.java:161-178 | equality within tolerance 0 is exact equality |
| DenseMatrix.Matrix.Times | src/mathLib/matrix/Matrix.java:181-195 | succeeds iff B.M == N, giving the M×B.N product |
| Grids.ProductWithIdentity | src/mathLib/matrix/Matrix.java:181-195 | A times the identity is A |
| DenseMatrix.Matrix.TimesScalar | src/mathLib/matrix/Matrix.java:198-207 | every entry multiplied by a |
| DenseMatrix.Matrix.GetElement | src/mathLib/matrix/Matrix.java:240-242 | data[i][j] in range; otherwise the array index error of the row, then of the column |
| DenseMatrix.Matrix.TimesElement | src/mathLib/matrix/Matrix.java:256-265 | entry-wise product when B covers A; otherwise the index error of the first missing read in loop order: row 0 when B has no rows, then column B.N of row 0, then row B.M |
| DenseMatrix.Matrix.GetRow | src/mathLib/matrix/Matrix.java:282-289 | a length-N copy of row r; out of range fails unless N = 0 |
| DenseMatrix.Matrix.GetColumn | src/mathLib/matrix/Matrix.java:291-298 | a length-M column; out of range fails unless M = 0 |
| DenseMatrix.ColumnIsTransposedRow | src/mathLib/matrix/Matrix.java:291-298 | column c is row c of the transpose |
| DenseMatrix.Matrix.Add | src/mathLib/matrix/Matrix.java:305-307 | this.plus(v) |
| DenseMatrix.Matrix.AddRev | src/mathLib/matrix/Matrix.java:309-311 | v.plus(this), with the same entries as this.plus(v) |
| Grids.ZipAddCommutes | src/mathLib/matrix/Matrix.java:305-311 | A + B and B + A have the same entries |
| DenseMatrix.Matrix.AddScalar | src/mathLib/matrix/Matrix.java:313-343 | every entry plus v |
| DenseMatrix.Matrix.Subtract | src/mathLib/matrix/Matrix.java:348-350 | this.minus(v) |
| DenseMatrix.Matrix.SubtractRev | src/mathLib/matrix/Matrix.java:352-354 | −A + v, which is v − A |
| Grids.NegatePlusIsReverseMinus | src/mathLib/matrix/Matrix.java:352-386 | −A + B equals B − A |
| DenseMatrix.Matrix.SubtractScalar | src/mathLib/matrix/Matrix.java:356-386 | every entry minus v |
| DenseMatrix.Matrix.SubtractRevScalar | src/mathLib/matrix/Matrix.java:356-386 | every entry replaced by v minus it |
| DenseMatrix.Matrix.Multiply | src/mathLib/matrix/Matrix.java:391-393 | this.times(v) |
| DenseMatrix.Matrix.MultiplyRev | src/mathLib/matrix/Matrix.java:395-397 | v.times(this), the product with the factors exchanged |
| DenseMatrix.Matrix.MultiplyScalar | src/mathLib/matrix/Matrix.java:399-429 | every entry times v |
| DenseMatrix.Matrix.DivideInt | src/mathLib/matrix/Matrix.java:442-452 | as written: v = 0 fails with ArithmeticException; otherwise every entry is multiplied by Java's integer 1/v |
| DenseMatrix.IntegerReciprocal | src/mathLib/matrix/Matrix.java:442-452 | Java's 1/v is 1 for v = 1, −1 for v = −1, and 0 for every other nonzero v |
| DenseMatrix.DivideIntCollapses | src/mathLib/matrix/Matrix.java:442-452 | as written, divide(v) with \|v\| ≥ 2 gives the zero matrix |
| DenseMatrix.DivideTwoByTwo | src/mathLib/matrix/Matrix.java:442-444 | concrete input: [[2]] divided by 2 gives [[0]] as written, [[1]] as intended |
| DenseMatrix.Matrix.DivideIntExact | src/mathLib/matrix/Matrix.java:442-452 | corrected: v = 0 fails; otherwise every entry is divided by v |
| DenseMatrix.ExactDivisionInverts | src/mathLib/matrix/Matrix.java:442-452 | the corrected division is undone by multiplying back by v |
| DenseMatrix.Matrix.Negate | src/mathLib/matrix/Matrix.java:477-479 | every entry times −1 |
| Grids.NegateTwice | src/mathLib/matrix/Matrix.java:477-479 | negating twice restores the matrix |
| PowerIterMatrix.Matrix.constructor | src/mathLib/matrix/powerIter/util/Matrix.java:56-60 | m×n zeros |
| PowerIterMatrix.Matrix.Filled | src/mathLib/matrix/powerIter/util/Matrix.java:73-82 | m×n filled with s |
| PowerIterMatrix.Matrix.Wrap | src/mathLib/matrix/powerIter/util/Matrix.java:117-121 | wraps the given array without copying and keeps the given m and n unchecked; the matrix is well formed iff they are the array's dimensions |
| PowerIterMatrix.Matrix.FromRows | src/mathLib/matrix/powerIter/util/Matrix.java:94-104 | an empty array fails at index 0; ragged rows fail with "All rows must have the same length."; otherwise the matrix has exactly the rows' entries |
| PowerIterMatrix.Matrix.FromColumnPacked | src/mathLib/matrix/powerIter/util/Matrix.java:135-148 | fails iff vals.length ≠ m·(vals.length/m) (any non-empty vals when m = 0); otherwise A[i][j] = vals[i + j·m] |
| PowerIterMatrix.PackedWidthCases | src/mathLib/matrix/powerIter/util/Matrix.java:135-148 | the packed constructor accepts exactly when m > 0 and m divides the length, or m = 0 and vals is empty; the width is length/m (0 for m = 0) |
| PowerIterMatrix.ColumnPackedRoundTrip | src/mathLib/matrix/powerIter/util/Matrix.java:135-148 | rebuilding from a column packing with the same m gives back the original entries |
| PowerIterMatrix.ColumnPackingAccepted | src/mathLib/matrix/powerIter/util/Matrix.java:135-148 | a column packing of an m×n matrix is always accepted by the packed constructor |
| PowerIterMatrix.Matrix.Copy | src/mathLib/matrix/powerIter/util/Matrix.java:184-193 | a fresh matrix with its own array and the same entries |
| PowerIterMatrix.Matrix.GetArrayCopy | src/mathLib/matrix/powerIter/util/Matrix.java:219-227 | a fresh array with the same entries |
| PowerIterMatrix.Matrix.ColumnPackedCopy | src/mathLib/matrix/powerIter/util/Matrix.java:235-243 | vals[i + j·m] = A[i][j] |
| PowerIterMatrix.Matrix.RowPackedCopy | src/mathLib/matrix/powerIter/util/Matrix.java:251-259 | vals[i·n + j] = A[i][j] |
| PowerIterMatrix.RowPackingIsTransposedColumnPacking | src/mathLib/matrix/powerIter/util/Matrix.java:235-259 | a row packing of A is a column packing of its transpose |
| PowerIterMatrix.Matrix.Get | src/mathLib/matrix/powerIter/util/Matrix.java:292-294 | A[i][j] in range; otherwise Index i out of bounds for length m, or, with i in range, Index j out of bounds for length n |
| PowerIterMatrix.Matrix.GetMatrix | src/mathLib/matrix/powerIter/util/Matrix.java:312-325 | a negative size fails with NegativeArraySize; out-of-range indices fail with "Submatrix indices"; otherwise X[a][b] = A[i0+a][j0+b] |
| PowerIterMatrix.Matrix.GetMatrixAt | src/mathLib/matrix/powerIter/util/Matrix.java:339-352 | fails iff some selected index is out of range; otherwise X[a][b] = A[r[a]][c[b]] |
| PowerIterMatrix.Matrix.GetMatrixRowRange | src/mathLib/matrix/powerIter/util/Matrix.java:368-381 | rows i0..i1 and columns c, with the same error cases |
| PowerIterMatrix.Matrix.GetMatrixColumnRange | src/mathLib/matrix/powerIter/util/Matrix.java:397-410 | rows r and columns j0..j1, with the same error cases |
| PowerIterMatrix.Matrix.Set | src/mathLib/matrix/powerIter/util/Matrix.java:424-426 | in range: exactly A[i][j] becomes s; otherwise fails with Index i out of bounds for length m, or, with i in range, Index j out of bounds for length n, and changes nothing |
| PowerIterMatrix.Matrix.SetMatrix | src/mathLib/matrix/powerIter/util/Matrix.java:445-455 | succeeds iff the rectangle lies in A and X covers it; then exactly that rectangle takes X's entries. Entries outside it are never changed |
| PowerIterMatrix.Matrix.SetMatrixAt | src/mathLib/matrix/powerIter/util/Matrix.java:470-480 | on success the result is A overwritten by X at (r[a], c[b]) in loop order; entries outside the selected rows and columns are never changed |
| PowerIterMatrix.Matrix.SetMatrixRowRange | src/mathLib/matrix/powerIter/util/Matrix.java:524-534 | the same for rows i0..i1 and columns c |
| PowerIterMatrix.Matrix.SetMatrixColumnRange | src/mathLib/matrix/powerIter/util/Matrix.java:497-507 | the same for rows r and columns j0..j1 |
| Grids.OverwriteRectangle | src/mathLib/matrix/powerIter/util/Matrix.java:445-455 | after writing X over rows i0..i1 and columns j0..j1, an entry inside reads X[i−i0][j−j0] and an entry outside is unchanged |
| Grids.SelectAfterOverwrite | src/mathLib/matrix/powerIter/util/Matrix.java:445-480 | getMatrix on the rectangle setMatrix just wrote (distinct indices) returns X |
| PowerIterMatrix.Matrix.CheckMatrixDimensions | src/mathLib/matrix/powerIter/util/Matrix.java:1165-1169 | succeeds iff the shapes agree; otherwise "Matrix dimensions must agree." |
| PowerIterMatrix.Matrix.Transpose | src/mathLib/matrix/powerIter/util/Matrix.java:542-551 | n×m with C[j][i] = A[i][j] |
| PowerIterMatrix.Matrix.Uminus | src/mathLib/matrix/powerIter/util/Matrix.java:577-586 | every entry negated |
| PowerIterMatrix.Matrix.Plus | src/mathLib/matrix/powerIter/util/Matrix.java:596-606 | shape mismatch fails with IllegalArgument; otherwise the entry-wise sum in a new matrix |
| PowerIterMatrix.Matrix.PlusEquals | src/mathLib/matrix/powerIter/util/Matrix.java:616-624 | shape mismatch fails and changes nothing; otherwise A becomes A + B in place and the receiver is returned |
| PowerIterMatrix.Matrix.Minus | src/mathLib/matrix/powerIter/util/Matrix.java:634-644 | entry-wise difference, with the same check |
| PowerIterMatrix.Matrix.MinusEquals | src/mathLib/matrix/powerIter/util/Matrix.java:654-662 | A − B in place, with the same check |
| PowerIterMatrix.Matrix.ArrayTimes | src/mathLib/matrix/powerIter/util/Matrix.java:672-682 | entry-wise product, with the same check |
| PowerIterMatrix.Matrix.ArrayTimesEquals | src/mathLib/matrix/powerIter/util/Matrix.java:692-700 | entry-wise product in place, with the same check |
| PowerIterMatrix.Matrix.TimesScalar | src/mathLib/matrix/powerIter/util/Matrix.java:786-795 | every entry times s, in a new matrix |
| PowerIterMatrix.Matrix.TimesEquals | src/mathLib/matrix/powerIter/util/Matrix.java:805-812 | every entry times s in place; returns the receiver |
| PowerIterMatrix.Matrix.Times | src/mathLib/matrix/powerIter/util/Matrix.java:824-846 | succeeds iff B.m == n ("Matrix inner dimensions must agree." otherwise); gives the m×B.n product |
| PowerIterMatrix.Matrix.Trace | src/mathLib/matrix/powerIter/util/Matrix.java:854-860 | the sum of A[i][i] for i < min(m, n) |
| Grids.DiagSumOfTranspose | src/mathLib/matrix/powerIter/util/Matrix.java:854-860 | a matrix and its transpose have the same trace |
| Grids.DiagSumOfIdentity | src/mathLib/matrix/powerIter/util/Matrix.java:854-860 | the trace of identity(m, n) is min(m, n) |
| PowerIterMatrix.Matrix.Identity | src/mathLib/matrix/powerIter/util/Matrix.java:893-902 | 1 exactly where i == j |
| PowerIterMatrix.Matrix.VectorToMatrix | src/mathLib/matrix/powerIter/util/Matrix.java:1125-1131 | an empty vector fails with Index 0 out of bounds for length 0; otherwise an n×1 column holding the vector |

## Left out

- The in-place updates of an `Element` are modelled on values. `assignTo`, `addNodeDOF` and `changeToElement` return the updated element, so aliasing of a shared `Element` object is not captured.
- `FEBilinearV_ConstantP`'s constructor is not modelled: it fills the shape-function array, which is symbolic. The `getShapeFunctions`, `getArgsOrder`, `getBoundaryFE` and `getCoordTrans` accessors are not modelled either. `getNumberOfDOFs()` is the constant `NDOFs` = 9.
- `BasicAssembler.assembleLocal` is an oracle: the local matrix and vector of an element are a function of the element, and so is their size. `BasicAssembler` is not part of this model, so its local matrix is taken to be square with as many rows as the load vector has entries. The local getters `getLocalStiffMatrix` and friends are not modelled. The same holds for quadrature (`FOIntegrate`), interpolation, `Utils.getNormVector` (passed in as the geometric normal) and the Jacobian update `updateJacobinLinear2D`.
- The global accumulators are maps that read 0.0 where nothing was added. The sparse classes' storage, and their dimension checks on `add`, are not modelled.
- `SFLinearLocal3D.assignElement` is left out: it computes floating-point cofactors and the volume. For the same reason, the derivatives with respect to x, y and z stay symbolic; the model records only that they exist. `toString` is not modelled.
- Floating point is left out. Entries are `real`, so rounding, overflow to infinity and NaN are not modelled; in particular `EqualsTol` on NaN is not.
- Division in the matrix classes is left out where it depends on IEEE semantics: `divideElement`, `divide(Matrix)`, `divideRev`, `divide(float/double)`, and `arrayRightDivide`/`arrayLeftDivide` and their in-place forms. `divide(long)` behaves as `divide(int)` and is covered by `DenseMatrix.Matrix.DivideInt`. The int, long, float and double overloads of `add`, `subtract` and `multiply` are one real-valued method each.
- Numeric and I/O members of powerIter `Matrix` are left out: `norm1`, `getLU`, the substitution solvers, `vectorMagnitude`, `normalize`, `random`, `print`, `read` and `matrixToVector`.
- Trivial accessors are left out: `getArray`, `clone` (the same as `copy`), `getRowDimension` and `getColumnDimension`.
- In `matrix/Matrix`, `random`, `show`, `toString`, `toJamaMatrix` (a foreign library), `main` and the accessors `getSize`, `getNumRows`, `getNumColumns`, `getData` and `getElements` are left out.
- Null references are left out, except where the core tests for them. Rows of a `double[][]` are never null; the dimensions are `nat`, so a negative size never reaches an allocation.
- PowerIterMatrix.Matrix.FromRows: `constructWithCopy` is the same member. In this model `FromRows` copies the rows into a fresh array, so the aliasing of the caller's array by `Matrix(double[][])` is not captured.
- `HermitePoly.hermiteC` is left out: it works over complex coefficients.
- `ObjList.toString` is not part of this model: the text of `e.vertices()` that `integrate` appends to its message is a parameter of `VectorWeakForm.Integrate`.
- `Node` is not part of this model. `EdgeLocal.isBorderEdge` calls the component-free `getNodeType()`, which is read as the component-1 type.
- PowerIterMatrix.Matrix.SetMatrix: on the error path it states only that entries outside the rectangle are unchanged. The Java loop may already have written part of the rectangle when the index exception stops it. It also requires that X's array is not the receiver's, so a matrix written into itself is not modelled.
- PowerIterMatrix.Matrix.SetMatrixAt: the same weaker error-path contract and the same aliasing requirement as `SetMatrix`.
- PowerIterMatrix.Matrix.SetMatrixRowRange: the same weaker error-path contract and aliasing requirement as `SetMatrix`.
- PowerIterMatrix.Matrix.SetMatrixColumnRange: the same weaker error-path contract and aliasing requirement as `SetMatrix`.
- PowerIterMatrix.Matrix.Wrap: the array is a rectangular `array2`, so a ragged `double[][]` cannot be wrapped. The dimensions are `nat`, so negative m or n are not modelled.
- Edges.AppendRelabelled: `getSF().restrictTo(dofIndex)` calls an interface whose implementations are not part of this model. It is taken to be total and symbol-valued (`Restricted(sf, k)`), so an exception it throws (`SFLinearLocal3D.restrictTo` outside 1..3) or a null it returns (`RaviartThomas2D0.restrictTo`) is not modelled. The success condition "guarded or every DOF shaped" holds under that assumption only.
- Edges.EdgeLocal.ChangeToElement: the same totality of `restrictTo`; the only failure modelled is the NullPointer of a missing owner or of an edge-node DOF without a shape function.
- Edges.EdgeLocal.AttachEdgeNodeDOFs: the same totality of `restrictTo`; the loop fails only with the NullPointer of an edge-node DOF without a shape function.
- MixedLaplace.WeakFormMixedLaplace.AssembleElement: the global containers are typed as block containers, so the ClassCastException that the casts `(BlockMatrix)globalStiff` and `(BlockVector)globalLoad` can throw is not modelled.
- LinearLocal3D.SFLinearLocal3D.Create: the console message printed for an invalid funID is console output and is not modelled; only the state it leaves is.
- DenseMatrix.Matrix.GetRow: the result is a sequence, so the Java caller's ability to mutate the returned array is not modelled.

## Findings

| source | as written | input that shows it | evidently intended | confidence | as-written member | corrected member |
|---|---|---|---|---|---|---|
| src/mathLib/fem/element/FEBilinearV_ConstantP.java:189 | the velocity-y DOF type reads node `localIndex-6` | local index 5 or 6 reads node −1 or 0 and fails; 7 reads vertex 1 instead of vertex 3 | `localIndex-4`, the vertex `getGlobalIndex` uses | high; not executed | BilinearVConstantP.DOFTypeAsWrittenMisreads | BilinearVConstantP.DOFTypeFollowsLayout |
| src/mathLib/fem/core/EdgeLocal.java:216 | edge node i's DOFs start at local index `i` | an edge with one edge node: its first DOF and the begin vertex's first DOF both get local index 1 | start at `2+i`, after the two vertices, as the vertex loops do | medium; not executed | Edges.AsWrittenIndicesCollide | Edges.CorrectedIndicesDistinct |
| src/mathLib/fem/assembler/DomainBoundaryAssembler.java:102 | every Neumann/Robin border element is scattered with `boundaryAss.A` and `b`, which hold the local system of the last such element `assembleLocal` assembled | an element with Neumann border elements a, then b, whose local matrices differ: a's DOFs receive b's matrix; if a has more DOFs than b, the read goes out of bounds | assemble each border element's own local system right before its scatter | medium; not executed | Assembly.AsWrittenBorderReusesLast | Assembly.OwnBorderLogComposes |
| src/mathLib/matrix/Matrix.java:442-452 | `divide(int v)` multiplies by the integer `1/v` | [[2]] divided by 2 gives [[0]] | multiply by `1.0/v`, giving [[1]] | high; not executed | DenseMatrix.DivideTwoByTwo | DenseMatrix.Matrix.DivideIntExact |
