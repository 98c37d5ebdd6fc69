// Records for the FEM classes the core relies on but does not define (Node,
// NodeLocal, DOF, Element, Mesh). They carry exactly the data the modelled
// code reads: global indices, per-component boundary types, DOF lists keyed by
// local node index, and the border sub-elements of an element.

module FemCore {
  import opened Common

  /** Boundary type of a node for one vector-field component. */
  datatype NodeType = Inner | Dirichlet | Neumann | Robin

  /** A mesh node: its global index and its type per VVF component (absent = null). */
  datatype Node = Node(globalIndex: int, types: map<int, NodeType>)
  {
    /** `getNodeType(c)` */
    function TypeOf(c: int): Option<NodeType>
    {
      if c in types then Some(types[c]) else None
    }
  }

  /** A node as seen from one element: its local index there and the global node. */
  datatype NodeLocal = NodeLocal(localIndex: int, globalNode: Node)

  /** A vertex: local vertex number and the local node it stands on. */
  datatype Vertex = Vertex(localIndex: int, localNode: NodeLocal)

  /** A shape function handle; `Restricted(f, k)` is `f.restrictTo(k)`. */
  datatype ShapeFun = Shape(id: int) | Restricted(base: ShapeFun, index: int)

  /** A handle for a symbolic function supplied by the caller (a `MathFunc`). */
  datatype MathFunc = MathFunc(id: int)

  /** One degree of freedom: local index, global index, VVF component, shape function. */
  datatype DOF = DOF(localIndex: int, globalIndex: int, component: int, sf: Option<ShapeFun>)

  /**
   * An element. `vertices` come first in the node list and `extraNodes`
   * (edge nodes of higher-order or boundary elements) follow them. Node DOFs
   * are filed by local node index (1-based); edge, face and volume DOFs are
   * kept in the order they were added.
   */
  datatype Element = Element(
    globalIndex: int,
    dim: int,
    vertices: seq<Node>,
    extraNodes: seq<Node>,
    nodeDOFs: map<int, seq<DOF>>,
    edgeDOFs: seq<DOF>,
    faceDOFs: seq<DOF>,
    volumeDOFs: seq<DOF>,
    borderElements: seq<Element>,
    borderNodeType: Option<NodeType>,
    parent: Option<Element>)
  {
    /** `e.nodes`: vertices first, then the extra nodes. */
    function Nodes(): seq<Node>
    {
      vertices + extraNodes
    }

    /** `getNodeDOFList(k)`, with an absent (null) list read as empty. */
    function NodeDOFList(k: int): seq<DOF>
    {
      DOFListAt(nodeDOFs, k)
    }

    /** `addNodeDOF(k, dof)`: append to the list of local node k. */
    function AddNodeDOF(k: int, dof: DOF): (r: Element)
      ensures r.NodeDOFList(k) == NodeDOFList(k) + [dof]
      ensures forall k' :: k' != k ==> r.NodeDOFList(k') == NodeDOFList(k')
    {
      this.(nodeDOFs := nodeDOFs[k := NodeDOFList(k) + [dof]])
    }

    /** `addVolumeDOF(dof)` */
    function AddVolumeDOF(dof: DOF): Element
    {
      this.(volumeDOFs := volumeDOFs + [dof])
    }

    /** Node DOFs of local nodes 1..k, node by node. */
    function NodeDOFsUpTo(k: nat): seq<DOF>
    {
      if k == 0 then [] else NodeDOFsUpTo(k - 1) + NodeDOFList(k)
    }

    /** `getAllDOFList(DOFOrder.NEFV)`: node, edge, face, then volume DOFs. */
    function AllDOFList(): seq<DOF>
    {
      NodeDOFsUpTo(|Nodes()|) + edgeDOFs + faceDOFs + volumeDOFs
    }

    /** The global index of every DOF of `AllDOFList()`, position by position. */
    function GlobalIndices(): (g: seq<int>)
      ensures |g| == |AllDOFList()|
      ensures forall k :: 0 <= k < |g| ==> g[k] == AllDOFList()[k].globalIndex
    {
      var all := AllDOFList();
      seq(|all|, k requires 0 <= k < |all| => all[k].globalIndex)
    }
  }

  /** The DOF list filed under key k, with an absent list read as empty. */
  function DOFListAt(lists: map<int, seq<DOF>>, k: int): seq<DOF>
  {
    if k in lists then lists[k] else []
  }

  /** A mesh: its node list and element list. */
  datatype Mesh = Mesh(nodes: seq<Node>, elements: seq<Element>)
}
