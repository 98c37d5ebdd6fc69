// Physicists' Hermite polynomials by the recursion H(n) = 2X H(n-1) - H(n-1)'
// with hard-coded H(0) = 1, H(1) = 2X, H(2) = 4X^2 - 2. Every coefficient is
// an integer, so a polynomial is its coefficient sequence, lowest power
// first.

module Hermite {
  import opened Common

  /** c[k] is the coefficient of X^k. */
  type Poly = seq<int>

  /** The coefficient of X^k; powers beyond the sequence are 0. */
  function Coef(p: Poly, k: nat): int
  {
    if k < |p| then p[k] else 0
  }

  /** X times p. */
  function ShiftUp(p: Poly): (r: Poly)
    ensures |r| == |p| + 1
    ensures r[0] == 0 && forall k :: 1 <= k < |r| ==> r[k] == p[k - 1]
  {
    [0] + p
  }

  /** c times p. */
  function Scale(c: int, p: Poly): (r: Poly)
    ensures |r| == |p| && forall k :: 0 <= k < |p| ==> r[k] == c * p[k]
  {
    seq(|p|, k requires 0 <= k < |p| => c * p[k])
  }

  /** p - q, as long as the longer of the two. */
  function Sub(p: Poly, q: Poly): (r: Poly)
    ensures |r| == if |p| < |q| then |q| else |p|
    ensures forall k :: 0 <= k < |r| ==> r[k] == Coef(p, k) - Coef(q, k)
  {
    var n := if |p| < |q| then |q| else |p|;
    seq(n, k requires 0 <= k < n => Coef(p, k) - Coef(q, k))
  }

  /** The derivative p'. */
  function Deriv(p: Poly): (r: Poly)
    ensures |r| == if |p| == 0 then 0 else |p| - 1
    ensures forall k :: 0 <= k < |r| ==> r[k] == (k + 1) * p[k + 1]
  {
    if |p| == 0 then [] else seq(|p| - 1, k requires 0 <= k < |p| - 1 => (k + 1) * p[k + 1])
  }

  /** One step of the recursion: 2X p - p'. */
  function Step(p: Poly): Poly
  {
    Sub(Scale(2, ShiftUp(p)), Deriv(p))
  }

  function Pow2(n: nat): nat
  {
    if n == 0 then 1 else 2 * Pow2(n - 1)
  }

  /** `hermite(n)` for n >= 0: degree n, leading coefficient 2^n. */
  function H(n: nat): (r: Poly)
    ensures |r| == n + 1 && r[n] == Pow2(n)
  {
    if n == 0 then [1]
    else if n == 1 then [0, 2]
    else if n == 2 then [-2, 0, 4]
    else
      var prev := H(n - 1);
      Step(prev)
  }

  /** `hermite(degree)`: a negative degree is rejected. */
  function Hermite(degree: int): (r: Result<Poly>)
    ensures r.Err? <==> degree < 0
    ensures r.Err? ==> r.error == IllegalArgument("degree must be greater than or equal to 0")
    ensures r.Ok? ==> r.value == H(degree) && |r.value| == degree + 1
  {
    if degree < 0 then Err(IllegalArgument("degree must be greater than or equal to 0"))
    else Ok(H(degree))
  }

  // ---------------------------------------------------------------------
  // Properties

  /** The recursion applied at n = 2 reproduces the hard-coded 4X^2 - 2. */
  lemma RecursionAgreesAtTwo()
    ensures Step(H(1)) == H(2)
  {
    assert Step(H(1)) == [-2, 0, 4];
  }

  /** Only powers of parity `parity` (0 or 1) occur in p. */
  ghost predicate OnlyParity(p: Poly, parity: int)
  {
    forall k: nat :: k % 2 != parity ==> Coef(p, k) == 0
  }

  /** One step of the recursion flips the parity of the powers that occur. */
  lemma StepFlipsParity(p: Poly, parity: int)
    requires parity == 0 || parity == 1
    requires OnlyParity(p, parity)
    ensures OnlyParity(Step(p), 1 - parity)
  {
    forall k: nat | k % 2 != 1 - parity
      ensures Coef(Step(p), k) == 0
    {
      StepCoefficient(p, parity, k);
    }
  }

  /** A power of the other parity gets 0 from both 2X p and p'. */
  lemma StepCoefficient(p: Poly, parity: int, k: nat)
    requires parity == 0 || parity == 1
    requires OnlyParity(p, parity) && k % 2 != 1 - parity
    ensures Coef(Step(p), k) == 0
  {
    var up := Scale(2, ShiftUp(p));
    var d := Deriv(p);
    var q := Step(p);
    if k < |q| {
      assert q[k] == Coef(up, k) - Coef(d, k);
      if 1 <= k < |up| {
        assert (k - 1) % 2 != parity;
        assert Coef(p, k - 1) == 0;
        assert up[k] == 2 * p[k - 1];
      }
      if k < |d| {
        assert (k + 1) % 2 != parity;
        assert Coef(p, k + 1) == 0;
        assert d[k] == (k + 1) * p[k + 1];
      }
    }
  }

  lemma ParityOfPredecessor(n: nat)
    requires n >= 1
    ensures 1 - (n - 1) % 2 == n % 2
  {
  }

  /** Only powers with the parity of n occur in hermite(n). */
  lemma {:induction false} ParityOfPowers(n: nat)
    ensures OnlyParity(H(n), n % 2)
    decreases n
  {
    if n >= 3 {
      var prev := H(n - 1);
      ParityOfPowers(n - 1);
      StepFlipsParity(prev, (n - 1) % 2);
      ParityOfPredecessor(n);
      assert H(n) == Step(prev);
    } else {
      BaseParity(n);
    }
  }

  /** The hard-coded cases 1, 2X and 4X^2 - 2. */
  lemma BaseParity(n: nat)
    requires n < 3
    ensures OnlyParity(H(n), n % 2)
  {
    if n == 0 {
      assert H(0) == [1];
      forall k: nat | k % 2 != 0
        ensures Coef(H(0), k) == 0
      {
        assert k >= 1;
      }
    } else if n == 1 {
      assert H(1) == [0, 2];
      forall k: nat | k % 2 != 1
        ensures Coef(H(1), k) == 0
      {
        assert k == 0 || k >= 2;
      }
    } else {
      assert H(2) == [-2, 0, 4];
      forall k: nat | k % 2 != 0
        ensures Coef(H(2), k) == 0
      {
        assert k == 1 || k >= 3;
      }
    }
  }
}
