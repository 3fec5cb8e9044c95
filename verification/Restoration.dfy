/** src/main/restoration.c: feasibility as a least-squares problem. The variables are those of the problem followed by
    one slack per constraint, bounded like the constraint; the residuals are the constraint values less the slacks. */
module Restoration {
  import opened LinearAlgebra
  import opened SparseVec
  import opened SparseMat
  import opened Problems
  import opened Feasibility
  import opened AugMatrix
  import opened Optimality

  // ----- the transformation of points

  /** The value in [l, u] that is next to c. */
  function Clip(c: real, l: real, u: real): real
  {
    Max(Min(c, u), l)
  }

  /** Clipping removes exactly the residual and yields a value within the bounds. */
  lemma ClipResidual(c: real, l: real, u: real)
    requires l <= u
    ensures c - Clip(c, l, u) == SignedResidual(c, l, u) && l <= Clip(c, l, u) <= u
  {
  }

  /** No other value within the bounds is closer to c. */
  lemma ClipIsClosest(c: real, l: real, u: real, s: real)
    requires l <= s <= u
    ensures Abs(c - Clip(c, l, u)) <= Abs(c - s)
  {
  }

  function Clipped(c: Vector, l: Vector, u: Vector): (s: Vector)
    requires |c| == |l| == |u|
    ensures |s| == |c|
  {
    seq(|c|, i requires 0 <= i < |c| => Clip(c[i], l[i], u[i]))
  }

  /** sleqp_restoration_problem_transform: the clipped constraint values behind the variables */
  method Transform(problem: Problem, primal: Vec, consVal: Vec) returns (result: Vec)
    requires problem.Shaped() && primal.Valid() && primal.dim == problem.NumVars()
    requires consVal.Valid() && consVal.dim == problem.NumCons()
    ensures result.Valid() && result.dim == problem.NumVars() + problem.NumCons()
    ensures result.Dense() == primal.Dense() + Clipped(consVal.Dense(), problem.consLb.Dense(), problem.consUb.Dense())
  {
    var slacks := ClippedValues(consVal, problem.consLb, problem.consUb);
    result := Concat(primal, slacks);
  }

  /** The merge loop of the transformation. */
  method ClippedValues(c: Vec, lb: Vec, ub: Vec) returns (slacks: Vec)
    requires c.Valid() && lb.Valid() && ub.Valid() && c.dim == lb.dim == ub.dim
    ensures slacks.Valid() && slacks.dim == c.dim
    ensures slacks.Dense() == Clipped(c.Dense(), lb.Dense(), ub.Dense())
  {
    hide Vec.At, Clip;
    slacks := Empty(c.dim);
    var kc, kl, ku := 0, 0, 0;
    ghost var j := 0;
    while kc < |c.indices| || kl < |lb.indices| || ku < |ub.indices|
      invariant 0 <= j <= c.dim && c.Cursor(kc, j) && lb.Cursor(kl, j) && ub.Cursor(ku, j)
      invariant slacks.Valid() && slacks.dim == c.dim
      invariant forall p :: 0 <= p < |slacks.indices| ==> slacks.indices[p] < j
      invariant forall i :: 0 <= i < j ==> slacks.At(i) == Clip(c.At(i), lb.At(i), ub.At(i))
      invariant forall i :: j <= i ==> slacks.At(i) == 0.0
      decreases |c.indices| - kc + |lb.indices| - kl + |ub.indices| - ku
    {
      var idx, cVal, lbVal, ubVal;
      idx, cVal, lbVal, ubVal, kc, kl, ku := Read3(c, lb, ub, kc, kl, ku, j);
      ClipZero();
      var value := Clip(cVal, lbVal, ubVal);
      if value != 0.0 { slacks := Push(slacks, idx, value); }
      j := idx + 1;
    }
    CursorEnd(c, j);
    CursorEnd(lb, j);
    CursorEnd(ub, j);
    ClipZero();
    assert slacks.Dense() == Clipped(c.Dense(), lb.Dense(), ub.Dense());
  }

  lemma ClipZero()
    ensures Clip(0.0, 0.0, 0.0) == 0.0
  {
  }

  /** sleqp_restoration_problem_restore: the entries before the first slack */
  method Restore(problem: Problem, input: Vec) returns (result: Vec)
    requires input.Valid() && input.dim == problem.NumVars() + problem.NumCons()
    ensures result.Valid() && result.dim == problem.NumVars()
    ensures result.Dense() == input.Dense()[..problem.NumVars()]
  {
    hide Vec.At;
    var n := problem.NumVars();
    result := Empty(n);
    ghost var j := 0;
    for k := 0 to |input.indices|
      invariant 0 <= j <= n && input.Cursor(k, j)
      invariant result.Valid() && result.dim == n
      invariant forall p :: 0 <= p < |result.indices| ==> result.indices[p] < j
      invariant forall i :: 0 <= i < j ==> result.At(i) == input.At(i)
      invariant forall i :: j <= i ==> result.At(i) == 0.0
    {
      var i := input.indices[k];
      if i >= n {
        CursorSkip(input, k, j, n);
        assert result.Dense() == input.Dense()[..n];
        return;
      }
      CursorSkip(input, k, j, i);
      CursorAt(input, k, i);
      result := Push(result, i, input.data[k]);
      j := i + 1;
    }
    CursorEnd(input, j);
    assert result.Dense() == input.Dense()[..n];
  }

  /** Restoring a transformed point returns the point. */
  method RestoreTransformed(problem: Problem, primal: Vec, consVal: Vec) returns (restored: Vec)
    requires problem.Shaped() && primal.Valid() && primal.dim == problem.NumVars()
    requires consVal.Valid() && consVal.dim == problem.NumCons()
    ensures restored.Valid() && restored.Dense() == primal.Dense()
  {
    var transformed := Transform(problem, primal, consVal);
    restored := Restore(problem, transformed);
  }

  // ----- the least-squares problem, densely

  /** c - s, the residuals of the restoration problem. */
  function Residuals(c: Vector, slacks: Vector): Vector
    requires |c| == |slacks|
  {
    LinComb(1.0, c, -1.0, slacks)
  }

  /** At a transformed point the residuals are the signed feasibility residuals, and the slacks are within bounds. */
  lemma ResidualsAreViolations(c: Vector, l: Vector, u: Vector)
    requires |c| == |l| == |u| && forall i :: 0 <= i < |c| ==> l[i] <= u[i]
    ensures var s := Clipped(c, l, u);
      forall i :: 0 <= i < |c| ==> Residuals(c, s)[i] == SignedResidual(c[i], l[i], u[i]) && l[i] <= s[i] <= u[i]
  {
    forall i | 0 <= i < |c|
      ensures Residuals(c, Clipped(c, l, u))[i] == SignedResidual(c[i], l[i], u[i])
           && l[i] <= Clipped(c, l, u)[i] <= u[i]
    {
      ClipResidual(c[i], l[i], u[i]);
    }
  }

  /** The objective vanishes at the transformed point exactly when the constraint values are feasible. */
  lemma ZeroIffFeasible(c: Vector, l: Vector, u: Vector)
    requires |c| == |l| == |u| && forall i :: 0 <= i < |c| ==> l[i] <= u[i]
    ensures NormSq(Residuals(c, Clipped(c, l, u))) == 0.0 <==> forall i :: 0 <= i < |c| ==> l[i] <= c[i] <= u[i]
  {
    hide Clip;
    ResidualsAreViolations(c, l, u);
    var r := Residuals(c, Clipped(c, l, u));
    NormSqNonneg(r);
    forall i | 0 <= i < |c| ensures r[i] == 0.0 <==> l[i] <= c[i] <= u[i] {
      assert r[i] == SignedResidual(c[i], l[i], u[i]);
    }
  }

  /** The clipped values are the best slacks for the given constraint values. */
  lemma {:induction false} ClippedIsBestTo(c: Vector, l: Vector, u: Vector, s: Vector, k: nat)
    requires |c| == |l| == |u| == |s| && k <= |c| && forall i :: 0 <= i < |c| ==> l[i] <= s[i] <= u[i]
    ensures DotTo(Residuals(c, Clipped(c, l, u)), Residuals(c, Clipped(c, l, u)), k)
         <= DotTo(Residuals(c, s), Residuals(c, s), k)
  {
    hide Clip, Abs;
    if k > 0 {
      ClippedIsBestTo(c, l, u, s, k - 1);
      ClipIsClosest(c[k - 1], l[k - 1], u[k - 1], s[k - 1]);
      CloserSquare(c[k - 1] - Clip(c[k - 1], l[k - 1], u[k - 1]), c[k - 1] - s[k - 1]);
    }
  }

  lemma CloserSquare(a: real, b: real)
    requires Abs(a) <= Abs(b)
    ensures a * a <= b * b
  {
    AbsSquare(a);
    AbsSquare(b);
    var p, q := Abs(a), Abs(b);
    hide Abs;
    assert p * p <= p * q by { ScaleLe(p, p, q); }
    assert q * p <= q * q by { ScaleLe(q, p, q); }
    assert p * q == q * p;
  }

  lemma AbsSquare(a: real)
    ensures Abs(a) * Abs(a) == a * a && Abs(a) >= 0.0
  {
  }

  lemma ClippedIsBest(c: Vector, l: Vector, u: Vector, s: Vector)
    requires |c| == |l| == |u| == |s| && forall i :: 0 <= i < |c| ==> l[i] <= s[i] <= u[i]
    ensures NormSq(Residuals(c, Clipped(c, l, u))) <= NormSq(Residuals(c, s))
  {
    ClippedIsBestTo(c, l, u, s, |c|);
  }

  /** [J, -I]*d and [J, -I]^T*y */
  function Forward(J: Matrix, d: Vector, n: nat): (p: Vector)
    requires IsMatrix(J, |J|, n) && |d| == n + |J|
  {
    LinComb(1.0, MatVec(J, d[..n]), -1.0, d[n..])
  }

  function AdjointOf(J: Matrix, y: Vector, n: nat): (q: Vector)
    requires IsMatrix(J, |J|, n) && |y| == |J|
  {
    TransVec(J, y, n) + LinearAlgebra.Scale(-1.0, y)
  }

  /** <[J, -I]*d, y> == <d, [J, -I]^T*y> */
  lemma ProductsAreAdjoint(J: Matrix, d: Vector, y: Vector, n: nat)
    requires IsMatrix(J, |J|, n) && |d| == n + |J| && |y| == |J|
    ensures |Forward(J, d, n)| == |y| && |AdjointOf(J, y, n)| == |d|
    ensures Dot(Forward(J, d, n), y) == Dot(d, AdjointOf(J, y, n))
  {
    hide MatVec, TransVec;
    var x, s := d[..n], d[n..];
    DotLinear(1.0, MatVec(J, x), -1.0, s, y);
    Adjoint(J, x, y);
    assert d == x + s;
    DotConcat(x, s, TransVec(J, y, n), LinearAlgebra.Scale(-1.0, y));
    DotScale(-1.0, y, s);
    DotSymmetric(MatVec(J, x), y);
  }

  /** The residuals of the restoration problem change linearly, up to the linearisation of the constraints. */
  lemma ForwardIsDerivative(J: Matrix, c: Vector, slacks: Vector, d: Vector, n: nat)
    requires IsMatrix(J, |J|, n) && |c| == |slacks| == |J| && |d| == n + |J|
    ensures LinComb(1.0, Residuals(c, slacks), 1.0, Forward(J, d, n))
         == Residuals(LinComb(1.0, c, 1.0, MatVec(J, d[..n])), LinComb(1.0, slacks, 1.0, d[n..]))
  {
    hide MatVec;
  }

  /** In the slacks a transformed point is optimal, with the residuals as multipliers of the slack bounds: the
      gradient of the objective 1/2*|c - s|^2 with respect to the slacks is taken back and complementarity holds. */
  lemma SlacksAreOptimal(J: Matrix, c: Vector, l: Vector, u: Vector, n: nat, i: nat)
    requires IsMatrix(J, |J|, n) && |c| == |l| == |u| == |J| && i < |c| && l[i] <= u[i]
    ensures var s := Clipped(c, l, u);
      var r := Residuals(c, s);
      |AdjointOf(J, r, n)| == n + |c| && AdjointOf(J, r, n)[n + i] + r[i] == 0.0 && Slack(s[i], l[i], u[i], r[i]) == 0.0
  {
    ClipResidual(c[i], l[i], u[i]);
  }

  // ----- the restoration problem and its cached evaluations

  /** sleqp_restoration_problem_create: the bounds of the new variables */
  method CreateBounds(problem: Problem) returns (restoration: Problem)
    requires problem.Valid()
    ensures restoration.Valid() && restoration.NumVars() == problem.NumVars() + problem.NumCons()
    ensures restoration.NumCons() == 0
    ensures restoration.varsLb.Dense() == problem.varsLb.Dense() + problem.consLb.Dense()
    ensures restoration.varsUb.Dense() == problem.varsUb.Dense() + problem.consUb.Dense()
  {
    var lb := Concat(problem.varsLb, problem.consLb);
    var ub := Concat(problem.varsUb, problem.consUb);
    restoration := Problem(lb, ub, Empty(0), Empty(0));
    BoundsOrdered(problem, lb, ub);
  }

  lemma BoundsOrdered(problem: Problem, lb: Vec, ub: Vec)
    requires problem.Valid() && lb.Valid() && ub.Valid()
    requires lb.dim == ub.dim == problem.NumVars() + problem.NumCons()
    requires lb.Dense() == problem.varsLb.Dense() + problem.consLb.Dense()
    requires ub.Dense() == problem.varsUb.Dense() + problem.consUb.Dense()
    ensures forall j :: 0 <= j < lb.dim ==> lb.At(j) <= ub.At(j)
  {
    hide Vec.At;
    forall j | 0 <= j < lb.dim ensures lb.At(j) <= ub.At(j) {
      assert lb.Dense()[j] == lb.At(j) && ub.Dense()[j] == ub.At(j);
      var n := problem.NumVars();
      if j < n {
        assert lb.Dense()[j] == problem.varsLb.Dense()[j] && ub.Dense()[j] == problem.varsUb.Dense()[j];
      } else {
        assert lb.Dense()[j] == problem.consLb.Dense()[j - n] && ub.Dense()[j] == problem.consUb.Dense()[j - n];
      }
    }
  }

  class RestorationFunc {
    const numVars: nat
    const numCons: nat
    /** The problem's own callbacks, and the functions behind them. */
    const consValAt: Vec -> Vec
    const consJacAt: Vec -> Mat
    ghost const values: Vector -> Vector
    ghost const jacobians: Vector -> Matrix
    const forwardCache: array<real>

    var varPrimal: Vec
    var consPrimal: Vec
    var consVal: Vec
    var consJac: Mat
    var hasConsVal: bool
    var hasConsJac: bool

    ghost predicate IsConsVal(x: Vector, v: Vec)
    {
      v.Valid() && v.dim == numCons && v.Dense() == values(x)
    }

    ghost predicate IsConsJac(x: Vector, m: Mat)
    {
      m.Valid() && m.numRows == numCons && m.numCols == numVars && m.Dense() == jacobians(x)
    }

    /** The callbacks evaluate the functions at every point. */
    ghost predicate Evaluates()
    {
      && forwardCache.Length == numCons
      && forall x: Vec :: x.Valid() && x.dim == numVars ==>
           IsConsVal(x.Dense(), consValAt(x)) && IsConsJac(x.Dense(), consJacAt(x))
    }

    /** A set flag says that the stored evaluation belongs to the current point. */
    ghost predicate Valid()
      reads this
    {
      && Evaluates()
      && varPrimal.Valid() && varPrimal.dim == numVars && consPrimal.Valid() && consPrimal.dim == numCons
      && (hasConsVal ==> IsConsVal(varPrimal.Dense(), consVal))
      && (hasConsJac ==> IsConsJac(varPrimal.Dense(), consJac))
    }

    /** The point of the restoration problem at which the function is evaluated. */
    ghost function Point(): Vector
      reads this
      requires Valid()
    {
      varPrimal.Dense() + consPrimal.Dense()
    }

    constructor (numVars: nat, numCons: nat, consValAt: Vec -> Vec, consJacAt: Vec -> Mat,
                 ghost values: Vector -> Vector, ghost jacobians: Vector -> Matrix)
      ensures this.numVars == numVars && this.numCons == numCons
      ensures this.consValAt == consValAt && this.consJacAt == consJacAt
      ensures this.values == values && this.jacobians == jacobians
      ensures fresh(forwardCache) && forwardCache.Length == numCons && !hasConsVal && !hasConsJac
    {
      this.numVars, this.numCons, this.consValAt, this.consJacAt := numVars, numCons, consValAt, consJacAt;
      this.values, this.jacobians := values, jacobians;
      forwardCache := new real[numCons];
      varPrimal, consPrimal, consVal := Empty(numVars), Empty(numCons), Empty(numCons);
      consJac := Mat(numCons, numVars, seq(numVars + 1, c => 0), [], []);
      hasConsVal, hasConsJac := false, false;
    }

    /** restoration_func_set */
    method SetPoint(value: Vec)
      requires Evaluates() && value.Valid() && value.dim == numVars + numCons
      modifies this`varPrimal, this`consPrimal, this`hasConsVal, this`hasConsJac
      ensures Valid() && Point() == value.Dense() && !hasConsVal && !hasConsJac
    {
      varPrimal, consPrimal := SplitAt(value, numVars);
      hasConsVal, hasConsJac := false, false;
    }

    /** sleqp_restoration_func_init: a point together with evaluations made elsewhere */
    method Init(value: Vec, origConsVal: Vec, origConsJac: Mat)
      requires Evaluates() && value.Valid() && value.dim == numVars + numCons
      requires IsConsVal(value.Dense()[..numVars], origConsVal) && IsConsJac(value.Dense()[..numVars], origConsJac)
      modifies this`varPrimal, this`consPrimal, this`consVal, this`consJac, this`hasConsVal, this`hasConsJac
      ensures Valid() && Point() == value.Dense() && hasConsVal && hasConsJac
    {
      varPrimal, consPrimal := SplitAt(value, numVars);
      consVal, hasConsVal := origConsVal, true;
      consJac, hasConsJac := origConsJac, true;
    }

    /** compute_cons_val */
    method ComputeConsVal()
      requires Valid()
      modifies this`consVal, this`hasConsVal
      ensures Valid() && hasConsVal
    {
      if !hasConsVal {
        consVal := consValAt(varPrimal);
        hasConsVal := true;
      }
    }

    /** compute_cons_jac */
    method ComputeConsJac()
      requires Valid()
      modifies this`consJac, this`hasConsJac
      ensures Valid() && hasConsJac
    {
      if !hasConsJac {
        consJac := consJacAt(varPrimal);
        hasConsJac := true;
      }
    }

    /** restoration_lsq_residuals */
    method LsqResiduals() returns (residuals: Vec)
      requires Valid()
      modifies this`consVal, this`hasConsVal
      ensures Valid() && residuals.Valid() && residuals.dim == numCons
      ensures |values(Point()[..numVars])| == numCons
      ensures residuals.Dense() == Residuals(values(Point()[..numVars]), Point()[numVars..])
    {
      ComputeConsVal();
      residuals := AddScaled(consVal, consPrimal, 1.0, -1.0);
      assert Point()[..numVars] == varPrimal.Dense() && Point()[numVars..] == consPrimal.Dense();
    }

    /** restoration_lsq_jac_forward */
    method JacForward(direction: Vec) returns (product: Vec)
      requires Valid() && direction.Valid() && direction.dim == numVars + numCons
      modifies this`consJac, this`hasConsJac, forwardCache
      ensures Valid() && product.Valid() && product.dim == numCons
      ensures var J := jacobians(Point()[..numVars]);
        IsMatrix(J, numCons, numVars) && product.Dense() == Forward(J, direction.Dense(), numVars)
    {
      hide Vec.At, Mat.At;
      ComputeConsJac();
      var varForward, consForward := SplitAt(direction, numVars);
      MultVec(consJac, varForward, forwardCache);
      var forwardProduct := SetFromRaw(forwardCache, numCons);
      product := AddScaled(forwardProduct, consForward, 1.0, -1.0);
      assert Point()[..numVars] == varPrimal.Dense();
    }

    /** restoration_lsq_jac_adjoint with concat_adjoint */
    method JacAdjoint(direction: Vec) returns (product: Vec)
      requires Valid() && direction.Valid() && direction.dim == numCons
      modifies this`consJac, this`hasConsJac
      ensures Valid() && product.Valid() && product.dim == numVars + numCons
      ensures var J := jacobians(Point()[..numVars]);
        IsMatrix(J, numCons, numVars) && product.Dense() == AdjointOf(J, direction.Dense(), numVars)
    {
      hide Vec.At, Mat.At;
      ComputeConsJac();
      var adjointProduct := MultVecTrans(consJac, direction);
      var negated := ScaleBy(direction, -1.0);
      product := Concat(adjointProduct, negated);
      assert Point()[..numVars] == varPrimal.Dense();
    }

    /** Started from an iterate of the problem, the residuals are the iterate's signed feasibility residuals. */
    method ResidualsAtIterate(problem: Problem, primal: Vec, iterateConsVal: Vec) returns (residuals: Vec)
      requires Evaluates() && problem.Valid() && problem.NumVars() == numVars && problem.NumCons() == numCons
      requires primal.Valid() && primal.dim == numVars && IsConsVal(primal.Dense(), iterateConsVal)
      modifies this`varPrimal, this`consPrimal, this`consVal, this`hasConsVal, this`hasConsJac
      ensures Valid() && residuals.Valid() && residuals.dim == numCons
      ensures forall i :: 0 <= i < numCons ==>
        residuals.At(i) == SignedResidual(iterateConsVal.At(i), problem.consLb.At(i), problem.consUb.At(i))
    {
      hide Vec.At, Clip, SignedResidual;
      ghost var c, l, u := iterateConsVal.Dense(), problem.consLb.Dense(), problem.consUb.Dense();
      var transformed := Transform(problem, primal, iterateConsVal);
      SetPoint(transformed);
      residuals := LsqResiduals();
      assert Point()[..numVars] == primal.Dense() && Point()[numVars..] == Clipped(c, l, u);
      ResidualsAreViolations(c, l, u);
      forall i | 0 <= i < numCons
        ensures residuals.At(i) == SignedResidual(iterateConsVal.At(i), problem.consLb.At(i), problem.consUb.At(i))
      {
        assert residuals.At(i) == residuals.Dense()[i];
      }
    }
  }
}
