// The four linear shape functions of a tetrahedron in volume coordinates
// (r, s, t, u) with u = 1 - r - s - t: N1 = r, N2 = s, N3 = t, N4 = u. Their
// derivatives with respect to the free local coordinates r, s, t are
// constants read off that linear form; derivatives with respect to the
// physical coordinates x, y, z are cofactor ratios of the element geometry
// and stay symbolic here.

module LinearLocal3D {
  import opened Common

  /** The result of `diff`: a constant, or the physical-coordinate derivative of N(index+1) along axis x, y or z. */
  datatype Derivative = Const(c: real) | Physical(axis: string, index: int)

  /** The face functions `restrictTo` hands out: the 2-D linear shape function with this number. */
  datatype FaceShape = SFLinearLocal2D(funID: int)

  /** The variable names `Create` sets for a valid function. */
  const LocalNames: seq<string> := ["r", "s", "t", "u"]
  const PhysicalNames: seq<string> := ["x", "y", "z"]

  /**
   * The linear form of N(index+1) over the free coordinates r, s, t, as
   * (constant, coefficient of r, of s, of t), with u eliminated.
   */
  function LinearForm(index: int): (real, real, real, real)
    requires 0 <= index < 4
  {
    if index == 0 then (0.0, 1.0, 0.0, 0.0)
    else if index == 1 then (0.0, 0.0, 1.0, 0.0)
    else if index == 2 then (0.0, 0.0, 0.0, 1.0)
    else (1.0, -1.0, -1.0, -1.0)
  }

  /** The coefficient of `name` (one of r, s, t) in a linear form. */
  function Coefficient(form: (real, real, real, real), name: string): real
  {
    if name == "r" then form.1 else if name == "s" then form.2 else form.3
  }

  class SFLinearLocal3D {
    var funIndex: int
    /** The variable names; null until `Create` succeeds. */
    var varNames: Option<seq<string>>
    var innerVarNames: Option<seq<string>>
    /** The element volume: an absolute value, so never negative. */
    var volume: real

    /** `SFLinearLocal3D(funID)`: runs `Create(funID)` on a fresh function. */
    constructor (funID: int)
      ensures funIndex == funID - 1 && volume == 0.0
      ensures 1 <= funID <= 4 ==> varNames == Some(LocalNames) && innerVarNames == Some(PhysicalNames)
      ensures !(1 <= funID <= 4) ==> varNames == None && innerVarNames == None
    {
      varNames := None;
      innerVarNames := None;
      volume := 0.0;
      funIndex := funID - 1;
      if 1 <= funID <= 4 {
        varNames := Some(LocalNames);
        innerVarNames := Some(PhysicalNames);
      }
    }

    /**
     * `Create(funID)`: the function index is set before the check; an
     * invalid funID prints an error message (not modelled) and leaves the
     * names as they were.
     */
    method Create(funID: int)
      modifies this
      ensures funIndex == funID - 1 && volume == old(volume)
      ensures 1 <= funID <= 4 ==> varNames == Some(LocalNames) && innerVarNames == Some(PhysicalNames)
      ensures !(1 <= funID <= 4) ==> varNames == old(varNames) && innerVarNames == old(innerVarNames)
    {
      funIndex := funID - 1;
      if funID < 1 || funID > 4 {
        return;
      }
      varNames := Some(LocalNames);
      innerVarNames := Some(PhysicalNames);
    }

    /**
     * `diff(var)`. A negative volume is refused first; u is not free; r, s
     * and t give constants; x, y and z give the physical derivative of a
     * valid function; any other name is refused.
     */
    function Diff(name: string): (r: Result<Derivative>)
      reads this
      ensures volume < 0.0 ==> r == Err(Runtime("SFLinearLocal3D: volume < 0.0"))
      ensures volume >= 0.0 && name == "u" ==> r == Err(Runtime("Error: u is not free variable"))
      ensures volume >= 0.0 && name in PhysicalNames ==>
        && (r.Ok? <==> 0 <= funIndex <= 3)
        && (r.Ok? ==> r.value == Physical(name, funIndex))
        && (r.Err? ==> r.error == Runtime("Error: derivative(" + name + "), funIndex=" + IntToString(funIndex)))
      ensures volume >= 0.0 && name !in LocalNames && name !in PhysicalNames ==>
        r == Err(Runtime("Error: derivative(), var=" + name + ", should be x,y or z!"))
    {
      assert LocalNames == ["r", "s", "t", "u"] && PhysicalNames == ["x", "y", "z"];
      if volume < 0.0 then Err(Runtime("SFLinearLocal3D: volume < 0.0"))
      else if name == "r" || name == "s" || name == "t" then
        if funIndex == 3 then Ok(Const(-1.0))
        else if varNames.None? then Err(NullPointer)
        else if !(0 <= funIndex < |varNames.value|) then Err(OutOfBounds(funIndex, |varNames.value|))
        else if name == varNames.value[funIndex] then Ok(Const(1.0))
        else Ok(Const(0.0))
      else if name == "u" then Err(Runtime("Error: u is not free variable"))
      else if name == "x" || name == "y" || name == "z" then
        if 0 <= funIndex <= 3 then Ok(Physical(name, funIndex))
        else Err(Runtime("Error: derivative(" + name + "), funIndex=" + IntToString(funIndex)))
      else Err(Runtime("Error: derivative(), var=" + name + ", should be x,y or z!"))
    }

    /**
     * `apply(v)`: the value of the function's own coordinate at the point v.
     * At a point whose u is 1 - r - s - t this is the function's linear form.
     */
    function Apply(point: string -> real): (r: Result<real>)
      reads this
      ensures r.Ok? <==> 0 <= funIndex <= 3
      ensures r.Err? ==> r.error == Runtime("Error: funIndex=" + IntToString(funIndex))
      ensures 0 <= funIndex <= 3 && point("u") == 1.0 - point("r") - point("s") - point("t") ==>
        var form := LinearForm(funIndex);
        r == Ok(form.0 + form.1 * point("r") + form.2 * point("s") + form.3 * point("t"))
    {
      if 0 <= funIndex <= 3 then Ok(point(LocalNames[funIndex]))
      else Err(Runtime("Error: funIndex=" + IntToString(funIndex)))
    }

    /** `restrictTo(funID)`: the funID-th of the three face functions. */
    function RestrictTo(funID: int): (r: Result<FaceShape>)
      ensures r.Ok? <==> 1 <= funID <= 3
      ensures r.Ok? ==> r.value == SFLinearLocal2D(funID)
      ensures r.Err? ==> r.error == OutOfBounds(funID - 1, 3)
    {
      var faces := [SFLinearLocal2D(1), SFLinearLocal2D(2), SFLinearLocal2D(3)];
      if 0 <= funID - 1 < |faces| then Ok(faces[funID - 1]) else Err(OutOfBounds(funID - 1, |faces|))
    }

    /** `apply(double...)`: not supported. */
    function ApplyArgs(args: seq<real>): (r: Result<real>)
      ensures r == Err(Unsupported)
    {
      Err(Unsupported)
    }

    /** `innerVarNames()` */
    function InnerVarNames(): Option<seq<string>>
      reads this
    {
      innerVarNames
    }
  }

  // ---------------------------------------------------------------------
  // Properties

  /**
   * On a created function, the derivative along a free coordinate r, s or t
   * is that coordinate's coefficient in the function's linear form.
   */
  lemma DiffIsLinearCoefficient(f: SFLinearLocal3D, name: string)
    requires 0 <= f.funIndex <= 3 && f.varNames == Some(LocalNames) && f.volume >= 0.0
    requires name == "r" || name == "s" || name == "t"
    ensures f.Diff(name) == Ok(Const(Coefficient(LinearForm(f.funIndex), name)))
  {
    assert LocalNames[0] == "r" && LocalNames[1] == "s" && LocalNames[2] == "t";
    assert "s" != "r" && "t" != "r" && "t" != "s";
  }

  /**
   * A function whose funID was out of range and never got its names fails
   * on every derivative and on `apply`.
   */
  lemma InvalidFunctionFails(f: SFLinearLocal3D, name: string, point: string -> real)
    requires !(0 <= f.funIndex <= 3) && f.varNames == None
    ensures f.Diff(name).Err? && f.Apply(point).Err?
  {
  }
}
