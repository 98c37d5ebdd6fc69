// The base class of vector-valued weak forms: numerical integration over an
// element by a reference-element quadrature rule chosen from the element's
// dimension and vertex count, the binding of a trial/test DOF pair, and the
// operations a concrete weak form must override. Quadrature values are
// floating-point numerics and enter as an oracle.

module VectorWeakForm {
  import opened Common
  import opened FemCore

  /** A symbolic integrand handed to a quadrature rule. */
  datatype Integrand =
    | Given(f: MathFunc)                 // a caller-supplied function
    | Dot(u: ShapeFun, v: ShapeFun)      // u.dot(v) of two vector shape functions
    | Div(v: ShapeFun)                   // div(v)
    | Interpolated(source: Option<MathFunc>)  // a function interpolated on the element (it may be null)
    | Scaled(c: real, body: Integrand)   // the constant c times body

  /** The reference-element quadrature rules. */
  datatype Rule = Triangle | Rectangle | Tetrahedron | Hexahedron | Line

  /**
   * A quadrature: the value of `intOn<rule>RefElement(fun.M(e.getJacobin()), order)`
   * for an integrand `fun` on element `e`.
   */
  type Quadrature = (Rule, int, Element, Integrand) -> real

  /**
   * `integrate(e, fun)`: a null integrand integrates to 0.0; otherwise the
   * rule is picked by dimension and vertex count. `verticesText` stands for
   * the text of `e.vertices()` that the message for an unknown dimension
   * appends. Every success is a quadrature value; planar and solid elements
   * of an unknown shape fail with "Error: integrate".
   */
  function Integrate(e: Element, fun: Option<Integrand>, quad: Quadrature, verticesText: string): (r: Result<real>)
    ensures fun.None? ==> r == Ok(0.0)
    ensures fun.Some? && r.Ok? ==> exists rule, order :: r.value == quad(rule, order, e, fun.value)
    ensures e.dim == 1 && fun.Some? ==> r == Ok(quad(Line, 5, e, fun.value))
    ensures r.Err? ==> r.error == Runtime(if e.dim == 2 || e.dim == 3 then "Error: integrate" else "Can integrate on e" + verticesText)
  {
    if fun.None? then Ok(0.0)
    else if e.dim == 2 then
      if |e.vertices| == 3 then Ok(quad(Triangle, 4, e, fun.value))
      else if |e.vertices| == 4 then Ok(quad(Rectangle, 2, e, fun.value))
      else Err(Runtime("Error: integrate"))
    else if e.dim == 3 then
      if |e.vertices| == 4 then Ok(quad(Tetrahedron, 2, e, fun.value))
      else if |e.vertices| == 8 then Ok(quad(Hexahedron, 2, e, fun.value))
      else Err(Runtime("Error: integrate"))
    else if e.dim == 1 then Ok(quad(Line, 5, e, fun.value))
    else Err(Runtime("Can integrate on e" + verticesText))
  }

  /** The element kinds with a fixed vertex count: (dimension, vertices, rule, order). */
  const RuleTable: seq<(int, int, Rule, int)> :=
    [(2, 3, Triangle, 4), (2, 4, Rectangle, 2), (3, 4, Tetrahedron, 2), (3, 8, Hexahedron, 2)]

  /** The first row of `table` for (dim, nVertices), if any. */
  function Lookup(table: seq<(int, int, Rule, int)>, dim: int, nVertices: int): Option<(Rule, int)>
  {
    if table == [] then None
    else if table[0].0 == dim && table[0].1 == nVertices then Some((table[0].2, table[0].3))
    else Lookup(table[1..], dim, nVertices)
  }

  /** The rule and order for (dim, nVertices): segments take the line rule of order 5 whatever their vertex count, the rest the table's row. */
  function LookupRule(dim: int, nVertices: int): Option<(Rule, int)>
  {
    if dim == 1 then Some((Line, 5)) else Lookup(RuleTable, dim, nVertices)
  }

  /**
   * `integrate` follows the rule table: it integrates exactly the element
   * kinds the table lists, with the listed rule and order; unlisted planar
   * and solid elements fail with "Error: integrate", other dimensions with
   * "Can integrate on e".
   */
  lemma IntegrateFollowsTable(e: Element, f: Integrand, quad: Quadrature, verticesText: string)
    ensures LookupRule(e.dim, |e.vertices|).Some? ==>
      var rule := LookupRule(e.dim, |e.vertices|).value;
      Integrate(e, Some(f), quad, verticesText) == Ok(quad(rule.0, rule.1, e, f))
    ensures LookupRule(e.dim, |e.vertices|).None? ==>
      Integrate(e, Some(f), quad, verticesText)
      == Err(Runtime(if e.dim == 2 || e.dim == 3 then "Error: integrate" else "Can integrate on e" + verticesText))
  {
    var t1 := RuleTable[1..];
    var t2 := t1[1..];
    var t3 := t2[1..];
    assert t1 == [(2, 4, Rectangle, 2), (3, 4, Tetrahedron, 2), (3, 8, Hexahedron, 2)];
    assert t2 == [(3, 4, Tetrahedron, 2), (3, 8, Hexahedron, 2)];
    assert t3 == [(3, 8, Hexahedron, 2)];
    assert t3[1..] == [];
    var d, n := e.dim, |e.vertices|;
    assert Lookup(t3, d, n) == if d == 3 && n == 8 then Some((Hexahedron, 2)) else None;
    assert Lookup(t2, d, n) == if d == 3 && n == 4 then Some((Tetrahedron, 2)) else Lookup(t3, d, n);
    assert Lookup(t1, d, n) == if d == 2 && n == 4 then Some((Rectangle, 2)) else Lookup(t2, d, n);
    assert Lookup(RuleTable, d, n) == if d == 2 && n == 3 then Some((Triangle, 4)) else Lookup(t1, d, n);
  }

  /**
   * The fields every vector weak form carries: the DOF pair last bound by
   * `setDOF`, and the shape functions and local indices taken from them.
   */
  class AbstractVectorWeakForm {
    var trialDOF: Option<DOF>
    var testDOF: Option<DOF>
    var u: Option<ShapeFun>
    var v: Option<ShapeFun>
    var uDOFLocalIndex: int
    var vDOFLocalIndex: int

    constructor ()
      ensures trialDOF == None && testDOF == None && u == None && v == None
      ensures uDOFLocalIndex == 0 && vDOFLocalIndex == 0
    {
      trialDOF, testDOF := None, None;
      u, v := None, None;
      uDOFLocalIndex, vDOFLocalIndex := 0, 0;
    }

    /**
     * `setDOF(trial, test)`: both DOFs are stored as given; the shape
     * function and local index of each side change only when that DOF is
     * not null.
     */
    method SetDOF(trial: Option<DOF>, test: Option<DOF>)
      modifies this
      ensures TrialDOF() == trial && TestDOF() == test
      ensures u == (if trial.Some? then trial.value.sf else old(u))
      ensures uDOFLocalIndex == (if trial.Some? then trial.value.localIndex else old(uDOFLocalIndex))
      ensures v == (if test.Some? then test.value.sf else old(v))
      ensures vDOFLocalIndex == (if test.Some? then test.value.localIndex else old(vDOFLocalIndex))
    {
      trialDOF := trial;
      testDOF := test;
      if trial.Some? {
        u := trial.value.sf;
        uDOFLocalIndex := trial.value.localIndex;
      }
      if test.Some? {
        v := test.value.sf;
        vDOFLocalIndex := test.value.localIndex;
      }
    }

    /** `getTrialDOF()` */
    function TrialDOF(): Option<DOF>
      reads this
    {
      trialDOF
    }

    /** `getTestDOF()` */
    function TestDOF(): Option<DOF>
      reads this
    {
      testDOF
    }

    /** `assembleElement`: a concrete weak form must override it; here it always fails. */
    method AssembleElement(e: Element) returns (r: Result<()>)
      ensures r == Err(Unsupported)
    {
      r := Err(Unsupported);
    }

    /** `leftHandSide(e, itemType)`: always fails. */
    method LeftHandSide(e: Element) returns (r: Result<MathFunc>)
      ensures r == Err(Unsupported)
    {
      r := Err(Unsupported);
    }

    /** `rightHandSide(e, itemType)`: always fails. */
    method RightHandSide(e: Element) returns (r: Result<MathFunc>)
      ensures r == Err(Unsupported)
    {
      r := Err(Unsupported);
    }

    /** `isVVFComponentCoupled(c1, c2)`: the coupling must be supplied by a subclass; here it always fails. */
    method IsVVFComponentCoupled(c1: int, c2: int) returns (r: Result<bool>)
      ensures r == Err(Runtime("Please specify coupling informaton of components of vector valued funtion(VVF) problem!"))
    {
      r := Err(Runtime("Please specify coupling informaton of components of vector valued funtion(VVF) problem!"));
    }

    /** `preProcess(e)`: a hook that does nothing; the form is left as it was. */
    method PreProcess(e: Element)
      ensures unchanged(this)
    {
    }
  }
}
