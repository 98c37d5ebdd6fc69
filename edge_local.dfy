// A local edge of an element: its two end vertices, the optional nodes inside
// it, the global edge it stands for, and the element that owns it. It agrees a
// border type from its endpoints, orients the normal of the global edge, and
// turns itself into a one-dimensional boundary element that carries the
// owner's DOFs under new local indices.

module Edges {
  import opened Common
  import opened FemCore

  /** The global edge shared by the elements on both sides: its begin node and unit normal. */
  datatype GlobalEdge = GlobalEdge(beginNode: Node, normal: seq<real>)

  /** The edge built by `buildEdge`: two end vertices, then the edge nodes. */
  datatype Edge = Edge(vertices: seq<Vertex>, edgeNodes: seq<NodeLocal>)

  /** `FMath.ax(-1.0, v)` */
  function Negate(v: seq<real>): (r: seq<real>)
    ensures |r| == |v|
    ensures forall i :: 0 <= i < |v| ==> r[i] == -v[i]
  {
    seq(|v|, i requires 0 <= i < |v| => -v[i])
  }

  /**
   * The normal of the global edge as seen from an edge that starts at
   * `localBegin`: the same vector when both start at the same node, the
   * opposite one otherwise.
   */
  function OrientedNormal(localBegin: Node, ge: GlobalEdge): seq<real>
  {
    if localBegin.globalIndex == ge.beginNode.globalIndex then ge.normal else Negate(ge.normal)
  }

  /** The DOF `d` moved to local index `index`, its shape function restricted there. */
  function Relabelled(d: DOF, index: int): DOF
  {
    DOF(index, d.globalIndex, d.component,
        if d.sf.None? then None else Some(Restricted(d.sf.value, index)))
  }

  /**
   * The DOFs of one owner list as `changeToElement` re-creates them: the k-th
   * (from 0) moves to local index `start + k*step`.
   */
  function Relabel(list: seq<DOF>, start: int, step: int): seq<DOF>
  {
    seq(|list|, k requires 0 <= k < |list| => Relabelled(list[k], start + k * step))
  }

  /** Every DOF of the list has a shape function (the unguarded loop dereferences it). */
  predicate AllShaped(list: seq<DOF>)
  {
    forall k :: 0 <= k < |list| ==> list[k].sf.Some?
  }

  /** The boundary element `new Element(edge)` before any DOF is attached. */
  function Shell(edge: Edge, parent: Element): Element
  {
    Element(0, 1, seq(|edge.vertices|, k requires 0 <= k < |edge.vertices| => edge.vertices[k].localNode.globalNode),
            seq(|edge.edgeNodes|, k requires 0 <= k < |edge.edgeNodes| => edge.edgeNodes[k].globalNode),
            map[], [], [], [], [], None, Some(parent))
  }

  /**
   * Append the relabelled DOFs of `list` to the node DOF list `key` of `be`:
   * the inner loop `for j ...` of `changeToElement`, with `dofIndex` starting
   * at `start` and growing by `step`.
   */
  method AppendRelabelled(be: Element, key: int, list: seq<DOF>, start: int, step: int, guarded: bool)
    returns (r: Result<Element>)
    ensures r.Ok? <==> guarded || AllShaped(list)
    ensures r.Err? ==> r.error == NullPointer
    ensures r.Ok? ==> r.value.NodeDOFList(key) == be.NodeDOFList(key) + Relabel(list, start, step)
    ensures r.Ok? ==> forall k :: k != key ==> r.value.NodeDOFList(k) == be.NodeDOFList(k)
    ensures r.Ok? ==> r.value.(nodeDOFs := be.nodeDOFs) == be
  {
    var el := be;
    ghost var added: seq<DOF> := [];
    var dofIndex := start;
    var j := 1;
    while j <= |list|
      invariant 1 <= j <= |list| + 1
      invariant dofIndex == start + (j - 1) * step
      invariant guarded || forall k :: 0 <= k < j - 1 ==> list[k].sf.Some?
      invariant added == Relabel(list[..j - 1], start, step)
      invariant el.NodeDOFList(key) == be.NodeDOFList(key) + added
      invariant forall k :: k != key ==> el.NodeDOFList(k) == be.NodeDOFList(k)
      invariant el.(nodeDOFs := be.nodeDOFs) == be
    {
      var d := list[j - 1];
      if !guarded && d.sf.None? {
        return Err(NullPointer);
      }
      var sf := if d.sf.None? then None else Some(Restricted(d.sf.value, dofIndex));
      var dof := DOF(dofIndex, d.globalIndex, d.component, sf);
      el := el.AddNodeDOF(key, dof);
      added := added + [dof];
      assert added == Relabel(list[..j], start, step);
      dofIndex := dofIndex + step;
      j := j + 1;
    }
    assert list[..|list|] == list;
    r := Ok(el);
  }

  class EdgeLocal {
    const localIndex: int
    /** The global edge, if one was set. */
    var globalEdge: Option<GlobalEdge>
    /** The element this edge belongs to, if any. */
    const owner: Option<Element>
    /** `vertices.at(1)` and `vertices.at(2)` */
    const begin: Vertex
    const end: Vertex
    /** `getEdgeNodes()`: absent (null) or the nodes inside the edge. */
    const edgeNodes: Option<seq<NodeLocal>>
    /** `localUnitNormVector`, computed on first use. */
    var normCache: Option<seq<real>>

    constructor (localIndex: int, globalEdge: Option<GlobalEdge>, owner: Option<Element>,
                 begin: Vertex, end: Vertex, edgeNodes: Option<seq<NodeLocal>>)
      ensures this.localIndex == localIndex && this.globalEdge == globalEdge && this.owner == owner
      ensures this.begin == begin && this.end == end && this.edgeNodes == edgeNodes
      ensures normCache == None
    {
      this.localIndex := localIndex;
      this.globalEdge := globalEdge;
      this.owner := owner;
      this.begin := begin;
      this.end := end;
      this.edgeNodes := edgeNodes;
      normCache := None;
    }

    /** `setGlobalEdge(ge)`; a normal already cached is kept. */
    method SetGlobalEdge(ge: GlobalEdge)
      modifies this
      ensures globalEdge == Some(ge) && normCache == old(normCache)
    {
      globalEdge := Some(ge);
    }

    function BeginNode(): Node { begin.localNode.globalNode }

    function EndNode(): Node { end.localNode.globalNode }

    /** The edge nodes, with an absent list read as empty. */
    function EdgeNodeList(): seq<NodeLocal>
    {
      if edgeNodes.Some? then edgeNodes.value else []
    }

    /** `nNode`: the two end vertices plus the edge nodes. */
    function NodeCount(): int
    {
      2 + |EdgeNodeList()|
    }

    /** `getBorderType(c)`: the type both endpoints share, or none when they differ. */
    function BorderType(c: int): (r: Option<NodeType>)
      ensures r.Some? <==> BeginNode().TypeOf(c).Some? && BeginNode().TypeOf(c) == EndNode().TypeOf(c)
      ensures r.Some? ==> r == BeginNode().TypeOf(c) && r == EndNode().TypeOf(c)
    {
      var t1 := BeginNode().TypeOf(c);
      var t2 := EndNode().TypeOf(c);
      if t1 == t2 then t1 else None
    }

    /** `getBorderType()`: component 1. */
    function DefaultBorderType(): Option<NodeType>
    {
      BorderType(1)
    }

    /**
     * `isBorderEdge()`. It calls the component-free `getNodeType()` of each
     * endpoint; `Node` is not part of this model, and that call is taken to
     * return the component-1 type, the one `getNodeType(1)` gives.
     */
    function IsBorderEdge(): (r: bool)
      ensures !r <==> BeginNode().TypeOf(1) == Some(Inner) || EndNode().TypeOf(1) == Some(Inner)
      ensures r && DefaultBorderType().Some? ==> DefaultBorderType().value != Inner
      ensures DefaultBorderType() == Some(Inner) ==> !r
    {
      !(BeginNode().TypeOf(1) == Some(Inner) || EndNode().TypeOf(1) == Some(Inner))
    }

    /** The normal `getNormVector` computes, given the geometric normal of begin to end. */
    function ComputedNormal(geomNormal: seq<real>): seq<real>
      reads this
    {
      if globalEdge.Some? then OrientedNormal(BeginNode(), globalEdge.value) else geomNormal
    }

    /**
     * `getNormVector()`. `geomNormal` stands for `Utils.getNormVector(begin,
     * end)`, the geometric normal, used only when there is no global edge.
     * The first call caches its result and every later call returns it.
     */
    method GetNormVector(geomNormal: seq<real>) returns (nv: seq<real>)
      modifies this
      ensures globalEdge == old(globalEdge)
      ensures old(normCache).Some? ==> nv == old(normCache).value && normCache == old(normCache)
      ensures old(normCache).None? ==> nv == ComputedNormal(geomNormal) && normCache == Some(nv)
    {
      if normCache.None? {
        if globalEdge.Some? {
          if BeginNode().globalIndex == globalEdge.value.beginNode.globalIndex {
            normCache := Some(globalEdge.value.normal);
          } else {
            normCache := Some(Negate(globalEdge.value.normal));
          }
        } else {
          normCache := Some(geomNormal);
        }
      }
      nv := normCache.value;
    }

    /** `buildEdge()`: end vertices numbered 1 and 2, edge nodes 3, 4, ... on the same global nodes. */
    method BuildEdge() returns (edge: Edge)
      ensures edge.vertices == [Vertex(1, NodeLocal(1, BeginNode())), Vertex(2, NodeLocal(2, EndNode()))]
      ensures |edge.edgeNodes| == |EdgeNodeList()|
      ensures forall i :: 0 <= i < |edge.edgeNodes| ==>
        edge.edgeNodes[i] == NodeLocal(3 + i, EdgeNodeList()[i].globalNode)
    {
      edge := Edge([Vertex(1, NodeLocal(1, BeginNode())), Vertex(2, NodeLocal(2, EndNode()))], []);
      var nodes := EdgeNodeList();
      if |nodes| > 0 {
        var i := 1;
        while i <= |nodes|
          invariant 1 <= i <= |nodes| + 1
          invariant edge.vertices == [Vertex(1, NodeLocal(1, BeginNode())), Vertex(2, NodeLocal(2, EndNode()))]
          invariant |edge.edgeNodes| == i - 1
          invariant forall k :: 0 <= k < i - 1 ==> edge.edgeNodes[k] == NodeLocal(3 + k, nodes[k].globalNode)
        {
          edge := edge.(edgeNodes := edge.edgeNodes + [NodeLocal(2 + i, nodes[i - 1].globalNode)]);
          i := i + 1;
        }
      }
    }

    /**
     * The owner DOF list that local node p of the boundary element draws on:
     * p = 1 the begin vertex, p = 2 the end vertex, p >= 3 edge node p-2.
     */
    function OwnerList(o: Element, p: int): seq<DOF>
    {
      if p == 1 then o.NodeDOFList(begin.localNode.localIndex)
      else if p == 2 then o.NodeDOFList(end.localNode.localIndex)
      else if 3 <= p <= NodeCount() then o.NodeDOFList(EdgeNodeList()[p - 3].localIndex)
      else []
    }

    /** Where `dofIndex` starts for local node p as written: 1, 2, then i for edge node i. */
    function StartAsWritten(p: int): int
    {
      if p <= 2 then p else p - 2
    }

    /** The DOF list of local node p as `changeToElement` builds it. */
    function NodeDOFsAsWritten(o: Element, p: int): seq<DOF>
    {
      Relabel(OwnerList(o, p), StartAsWritten(p), NodeCount())
    }

    /** The edge-node loop dereferences every shape function, so it needs them all. */
    predicate EdgeNodesShaped(o: Element)
    {
      ShapedUpTo(o, NodeCount())
    }

    /** The owner DOFs of edge nodes at local positions 3..n all have shape functions. */
    predicate ShapedUpTo(o: Element, n: int)
    {
      forall p :: 3 <= p <= n ==> AllShaped(OwnerList(o, p))
    }

    /** The DOF list of local node p numbered from p itself, as the vertices already are. */
    function NodeDOFsCorrected(o: Element, p: int): seq<DOF>
    {
      Relabel(OwnerList(o, p), p, NodeCount())
    }

    /** `be` is the boundary element `changeToElement(parent)` returns for owner `o`. */
    ghost predicate BuiltAsWritten(o: Element, parent: Element, be: Element)
    {
      && be.(nodeDOFs := map[]) == Shell(Edge([Vertex(1, NodeLocal(1, BeginNode())), Vertex(2, NodeLocal(2, EndNode()))],
                                              seq(|EdgeNodeList()|, k requires 0 <= k < |EdgeNodeList()| =>
                                                    NodeLocal(3 + k, EdgeNodeList()[k].globalNode))), parent)
      && PrefixBuilt(o, be, NodeCount())
    }

    /** Local nodes 1..n carry their DOFs as written and no other node list is filled. */
    ghost predicate PrefixBuilt(o: Element, be: Element, n: int)
    {
      forall p :: be.NodeDOFList(p) == if 1 <= p <= n then NodeDOFsAsWritten(o, p) else []
    }

    /**
     * `changeToElement(parent)`: the edge as a one-dimensional element whose
     * parent is `parent`, carrying the owner's DOFs of the begin vertex, the
     * end vertex and each edge node. It fails when there is no owner, or when
     * an owner DOF of an edge node has no shape function.
     */
    method ChangeToElement(parent: Element) returns (r: Result<Element>)
      ensures owner.None? ==> r == Err(NullPointer)
      ensures owner.Some? ==>
        (r.Ok? <==> EdgeNodesShaped(owner.value))
      ensures r.Err? ==> r.error == NullPointer
      ensures r.Ok? ==> owner.Some? && BuiltAsWritten(owner.value, parent, r.value)
    {
      var edge := BuildEdge();
      var be := Shell(edge, parent);
      var nodes := EdgeNodeList();
      var nNode := |nodes| + 2;
      if owner.None? {
        return Err(NullPointer);
      }
      var o := owner.value;
      PrefixEmpty(this, o, be);
      var res := AppendRelabelled(be, 1, o.NodeDOFList(begin.localNode.localIndex), 1, nNode, true);
      PrefixStep(this, o, be, res.value, 0);
      StepPreservesShell(be, res.value, edge, parent);
      be := res.value;
      res := AppendRelabelled(be, 2, o.NodeDOFList(end.localNode.localIndex), 2, nNode, true);
      PrefixStep(this, o, be, res.value, 1);
      StepPreservesShell(be, res.value, edge, parent);
      be := res.value;
      r := AttachEdgeNodeDOFs(o, edge, parent, be);
      if r.Ok? {
        ShellOfBuiltEdge(this, edge, parent);
      }
    }

    /** One pass of the loop of `changeToElement` over the edge nodes: edge node i. */
    method AttachEdgeNode(o: Element, edge: Edge, parent: Element, be: Element, i: int) returns (r: Result<Element>)
      requires 1 <= i <= |EdgeNodeList()| && |edge.edgeNodes| == |EdgeNodeList()|
      requires edge.edgeNodes[i - 1].localIndex == i + 2
      requires PrefixBuilt(o, be, i + 1) && be.(nodeDOFs := map[]) == Shell(edge, parent)
      ensures r.Ok? <==> AllShaped(OwnerList(o, i + 2))
      ensures r.Err? ==> r.error == NullPointer
      ensures r.Ok? ==> PrefixBuilt(o, r.value, i + 2) && r.value.(nodeDOFs := map[]) == Shell(edge, parent)
    {
      var list := o.NodeDOFList(EdgeNodeList()[i - 1].localIndex);
      assert list == OwnerList(o, i + 2);
      r := AppendRelabelled(be, i + 2, list, i, NodeCount(), false);
      if r.Ok? {
        EdgeNodeAppended(this, o, edge, parent, be, r.value, i, list);
      }
    }

    /** The loop of `changeToElement` over the edge nodes, after both vertices are done. */
    method AttachEdgeNodeDOFs(o: Element, edge: Edge, parent: Element, be0: Element) returns (r: Result<Element>)
      requires |edge.edgeNodes| == |EdgeNodeList()|
      requires forall i :: 0 <= i < |edge.edgeNodes| ==> edge.edgeNodes[i].localIndex == 3 + i
      requires PrefixBuilt(o, be0, 2) && be0.(nodeDOFs := map[]) == Shell(edge, parent)
      ensures r.Ok? <==> EdgeNodesShaped(o)
      ensures r.Err? ==> r.error == NullPointer
      ensures r.Ok? ==> PrefixBuilt(o, r.value, NodeCount()) && r.value.(nodeDOFs := map[]) == Shell(edge, parent)
    {
      var be := be0;
      var i := 1;
      while i <= |EdgeNodeList()|
        invariant 1 <= i <= |EdgeNodeList()| + 1
        invariant PrefixBuilt(o, be, i + 1) && ShapedUpTo(o, i + 1)
        invariant be.(nodeDOFs := map[]) == Shell(edge, parent)
      {
        var res := AttachEdgeNode(o, edge, parent, be, i);
        if res.Err? {
          assert 3 <= i + 2 <= NodeCount() && !AllShaped(OwnerList(o, i + 2));
          return Err(NullPointer);
        }
        ShapedStep(this, o, i + 1);
        be := res.value;
        i := i + 1;
      }
      r := Ok(be);
    }
  }
  lemma ShapedStep(edge: EdgeLocal, o: Element, n: int)
    requires edge.ShapedUpTo(o, n) && AllShaped(edge.OwnerList(o, n + 1))
    ensures edge.ShapedUpTo(o, n + 1)
  {
  }

  lemma PrefixEmpty(edge: EdgeLocal, o: Element, be: Element)
    requires be.nodeDOFs == map[]
    ensures edge.PrefixBuilt(o, be, 0)
  {
  }

  lemma PrefixStep(edge: EdgeLocal, o: Element, be: Element, be': Element, n: int)
    requires 0 <= n && edge.PrefixBuilt(o, be, n)
    requires be'.NodeDOFList(n + 1) == be.NodeDOFList(n + 1) + edge.NodeDOFsAsWritten(o, n + 1)
    requires forall k :: k != n + 1 ==> be'.NodeDOFList(k) == be.NodeDOFList(k)
    ensures edge.PrefixBuilt(o, be', n + 1)
  {
    forall p
      ensures be'.NodeDOFList(p) == if 1 <= p <= n + 1 then edge.NodeDOFsAsWritten(o, p) else []
    {
      if p == n + 1 {
        assert be.NodeDOFList(p) == [];
      }
    }
  }

  lemma EdgeNodeAppended(el: EdgeLocal, o: Element, edge: Edge, parent: Element, be: Element, be': Element, i: int, list: seq<DOF>)
    requires 1 <= i && list == el.OwnerList(o, i + 2)
    requires el.PrefixBuilt(o, be, i + 1) && be.(nodeDOFs := map[]) == Shell(edge, parent)
    requires be'.NodeDOFList(i + 2) == be.NodeDOFList(i + 2) + Relabel(list, i, el.NodeCount())
    requires forall k :: k != i + 2 ==> be'.NodeDOFList(k) == be.NodeDOFList(k)
    requires be'.(nodeDOFs := be.nodeDOFs) == be
    ensures el.PrefixBuilt(o, be', i + 2) && be'.(nodeDOFs := map[]) == Shell(edge, parent)
  {
    PrefixStep(el, o, be, be', i + 1);
    StepPreservesShell(be, be', edge, parent);
  }

  lemma StepPreservesShell(be: Element, be': Element, edge: Edge, parent: Element)
    requires be.(nodeDOFs := map[]) == Shell(edge, parent)
    requires be'.(nodeDOFs := be.nodeDOFs) == be
    ensures be'.(nodeDOFs := map[]) == Shell(edge, parent)
  {
  }

  lemma ShellOfBuiltEdge(el: EdgeLocal, edge: Edge, parent: Element)
    requires edge.vertices == [Vertex(1, NodeLocal(1, el.BeginNode())), Vertex(2, NodeLocal(2, el.EndNode()))]
    requires |edge.edgeNodes| == |el.EdgeNodeList()|
    requires forall i :: 0 <= i < |edge.edgeNodes| ==>
      edge.edgeNodes[i] == NodeLocal(3 + i, el.EdgeNodeList()[i].globalNode)
    ensures edge == Edge([Vertex(1, NodeLocal(1, el.BeginNode())), Vertex(2, NodeLocal(2, el.EndNode()))],
                         seq(|el.EdgeNodeList()|, k requires 0 <= k < |el.EdgeNodeList()| =>
                               NodeLocal(3 + k, el.EdgeNodeList()[k].globalNode)))
  {
  }

  /** Distinct (position, round) pairs give distinct indices p + k*n when 1 <= p <= n. */
  lemma ResidueDistinct(n: int, p1: int, k1: nat, p2: int, k2: nat)
    requires 1 <= p1 <= n && 1 <= p2 <= n
    requires p1 + k1 * n == p2 + k2 * n
    ensures p1 == p2 && k1 == k2
  {
    if k1 < k2 {
      MulMonotone(k2 - k1, n);
    } else if k2 < k1 {
      MulMonotone(k1 - k2, n);
    }
  }

  lemma MulMonotone(d: int, n: int)
    requires d >= 1 && n >= 0
    ensures d * n >= n
  {
    assert d * n == (d - 1) * n + n;
  }

  // ---------------------------------------------------------------------
  // Properties

  /** Negation of a normal is an involution. */
  lemma NegateInvolution(v: seq<real>)
    ensures Negate(Negate(v)) == v
  {
  }

  /**
   * Two local edges on the same global edge that run in opposite directions
   * (one starts at the global begin node, the other elsewhere) get opposite
   * normals; each is the global normal up to sign.
   */
  lemma OppositeEdgesOppositeNormals(a: Node, b: Node, ge: GlobalEdge)
    requires a.globalIndex == ge.beginNode.globalIndex && b.globalIndex != ge.beginNode.globalIndex
    ensures OrientedNormal(a, ge) == Negate(OrientedNormal(b, ge))
    ensures OrientedNormal(a, ge) == ge.normal
    ensures |OrientedNormal(b, ge)| == |ge.normal|
  {
    NegateInvolution(ge.normal);
  }

  /**
   * Every DOF of the boundary element keeps the global index and VVF component
   * of the owner DOF it copies, and its shape function is the owner's
   * restricted to its new local index. The k-th DOF (from 0) of local node p
   * sits at local index 1 + k*nNode on the begin vertex, 2 + k*nNode on the
   * end vertex and (p-2) + k*nNode on edge node p-2.
   */
  lemma BoundaryDOFsKeepGlobalData(edge: EdgeLocal, o: Element, parent: Element, be: Element, p: int, k: int)
    requires edge.BuiltAsWritten(o, parent, be)
    requires 1 <= p <= edge.NodeCount()
    requires 0 <= k < |edge.OwnerList(o, p)|
    ensures |be.NodeDOFList(p)| == |edge.OwnerList(o, p)|
    ensures var d, src := be.NodeDOFList(p)[k], edge.OwnerList(o, p)[k];
      && d.globalIndex == src.globalIndex
      && d.component == src.component
      && d.localIndex == (if p <= 2 then p else p - 2) + k * edge.NodeCount()
      && d.sf == if src.sf.None? then None else Some(Restricted(src.sf.value, d.localIndex))
  {
    assert be.NodeDOFList(p) == edge.NodeDOFsAsWritten(o, p);
  }

  /** Total size of the owner lists of local nodes 1..n. */
  function OwnerDOFCount(edge: EdgeLocal, o: Element, n: nat): nat
  {
    if n == 0 then 0 else OwnerDOFCount(edge, o, n - 1) + |edge.OwnerList(o, n)|
  }

  lemma {:induction false} NodeDOFsUpToCount(edge: EdgeLocal, o: Element, parent: Element, be: Element, n: nat)
    requires edge.BuiltAsWritten(o, parent, be)
    requires n <= edge.NodeCount()
    ensures |be.NodeDOFsUpTo(n)| == OwnerDOFCount(edge, o, n)
  {
    if n > 0 {
      NodeDOFsUpToCount(edge, o, parent, be, n - 1);
      assert be.NodeDOFList(n) == edge.NodeDOFsAsWritten(o, n);
    }
  }

  /**
   * The boundary element carries exactly as many DOFs as the owner lists of
   * its begin vertex, end vertex and edge nodes hold together, and its parent
   * is the element passed in.
   */
  lemma BoundaryElementDOFCount(edge: EdgeLocal, o: Element, parent: Element, be: Element)
    requires edge.BuiltAsWritten(o, parent, be)
    ensures |be.Nodes()| == edge.NodeCount()
    ensures |be.AllDOFList()| == OwnerDOFCount(edge, o, edge.NodeCount())
    ensures be.parent == Some(parent)
  {
    var shell := be.(nodeDOFs := map[]);
    assert |be.Nodes()| == |shell.vertices| + |shell.extraNodes|;
    NodeDOFsUpToCount(edge, o, parent, be, edge.NodeCount());
  }

  /**
   * As written, edge node i numbers its DOFs from i: the first DOF of the
   * first edge node gets local index 1, the index of the begin vertex's first
   * DOF.
   */
  lemma AsWrittenIndicesCollide(edge: EdgeLocal, o: Element, parent: Element, be: Element)
    requires edge.BuiltAsWritten(o, parent, be)
    requires |edge.EdgeNodeList()| >= 1
    requires |edge.OwnerList(o, 1)| >= 1 && |edge.OwnerList(o, 3)| >= 1
    ensures |be.NodeDOFList(1)| >= 1 && |be.NodeDOFList(3)| >= 1
    ensures be.NodeDOFList(1)[0].localIndex == be.NodeDOFList(3)[0].localIndex == 1
  {
    assert be.NodeDOFList(1) == edge.NodeDOFsAsWritten(o, 1);
    assert be.NodeDOFList(3) == edge.NodeDOFsAsWritten(o, 3);
  }

  /**
   * Numbered from p, the DOFs of different local nodes, or different DOFs of
   * one node, never share a local index: index p + k*nNode determines p (its
   * residue) and k.
   */
  lemma CorrectedIndicesDistinct(edge: EdgeLocal, o: Element, p1: int, k1: int, p2: int, k2: int)
    requires 1 <= p1 <= edge.NodeCount() && 1 <= p2 <= edge.NodeCount()
    requires 0 <= k1 < |edge.OwnerList(o, p1)| && 0 <= k2 < |edge.OwnerList(o, p2)|
    requires (p1, k1) != (p2, k2)
    ensures edge.NodeDOFsCorrected(o, p1)[k1].localIndex != edge.NodeDOFsCorrected(o, p2)[k2].localIndex
  {
    var n := edge.NodeCount();
    if p1 + k1 * n == p2 + k2 * n {
      ResidueDistinct(n, p1, k1, p2, k2);
    }
  }
}
