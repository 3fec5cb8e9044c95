/** Dense matrices between scaled spaces: what scaling does to derivatives, Hessians and least-squares operators. */
module ScaledOperators {
  import opened LinearAlgebra
  import opened SparseVec
  import opened SparseMat
  import opened Directions
  import opened Scaling
  import opened KktTransport
  import opened Optimality

  /** Entry (i, j) times two to the power rowExps[i] + colExps[j]. */
  function StretchRows(M: Matrix, rowExps: seq<int>, colExps: seq<int>): (S: Matrix)
    requires IsMatrix(M, |rowExps|, |colExps|)
    ensures IsMatrix(S, |rowExps|, |colExps|)
  {
    seq(|M|, i requires 0 <= i < |M| => Stretch(M[i], Up(colExps, rowExps[i])))
  }

  lemma MoveFactor(r: real, d: real, b: int, a: int)
    ensures Times(Ldexp(r, b + a), d) == Ldexp(Times(r, Ldexp(d, b)), a)
  {
    hide Ldexp, Times;
    LdexpProduct(r, d, b + a, 0);
    LdexpProduct(r, d, 0, b);
    LdexpZero(r, 0);
    LdexpZero(d, 0);
    LdexpTwice(Times(r, d), b, a);
  }

  lemma RowProductScaled(r: Vector, d: Vector, a: int, b: seq<int>)
    requires |r| == |d| == |b|
    ensures Dot(Stretch(r, Up(b, a)), d) == Ldexp(Dot(r, Stretch(d, b)), a)
  {
    hide Ldexp;
    var p, q := Stretch(r, Up(b, a)), Stretch(d, b);
    forall i | 0 <= i < |r| ensures p[i] * d[i] == Ldexp(r[i] * q[i], a) {
      MoveFactor(r[i], d[i], b[i], a);
      assert Up(b, a)[i] == b[i] + a && p[i] == Ldexp(r[i], b[i] + a) && q[i] == Ldexp(d[i], b[i]);
      assert p[i] * d[i] == Times(p[i], d[i]) && r[i] * q[i] == Times(r[i], q[i]);
    }
    DotToScaled(r, q, p, d, a, |r|);
  }

  /** Stretching before and after a product is the product with the stretched matrix. */
  lemma StretchedProduct(M: Matrix, d: Vector, a: seq<int>, b: seq<int>)
    requires IsMatrix(M, |a|, |b|) && |d| == |b|
    ensures IsMatrix(StretchRows(M, a, b), |a|, |b|)
    ensures Stretch(MatVec(M, Stretch(d, b)), a) == MatVec(StretchRows(M, a, b), d)
  {
    hide Ldexp, Stretch, Dot;
    forall i | 0 <= i < |a|
      ensures Ldexp(MatVec(M, Stretch(d, b))[i], a[i]) == MatVec(StretchRows(M, a, b), d)[i]
    {
      RowProductScaled(M[i], d, a[i], b);
    }
    StretchByEntries(MatVec(M, Stretch(d, b)), a, MatVec(StretchRows(M, a, b), d));
  }

  lemma StretchByEntries(x: Vector, e: seq<int>, z: Vector)
    requires |x| == |e| == |z| && forall i :: 0 <= i < |x| ==> Ldexp(x[i], e[i]) == z[i]
    ensures Stretch(x, e) == z
  {
  }

  lemma StretchedTransProduct(M: Matrix, y: Vector, a: seq<int>, b: seq<int>)
    requires IsMatrix(M, |a|, |b|) && |y| == |a|
    ensures IsMatrix(StretchRows(M, a, b), |a|, |b|)
    ensures Stretch(TransVec(M, Stretch(y, a), |b|), b) == TransVec(StretchRows(M, a, b), y, |b|)
  {
    hide Ldexp, TransVec, Dot;
    var S := StretchRows(M, a, b);
    forall j | 0 <= j < |b| ensures Ldexp(TransVec(M, Stretch(y, a), |b|)[j], b[j]) == TransVec(S, y, |b|)[j] {
      TransVecEntry(M, Stretch(y, a), |b|, j);
      TransVecEntry(S, y, |b|, j);
      assert Column(S, j) == Stretch(Column(M, j), Up(a, b[j]));
      RowProductScaled(Column(M, j), y, b[j], a);
    }
    StretchByEntries(TransVec(M, Stretch(y, a), |b|), b, TransVec(S, y, |b|));
  }

  // ----- first derivatives

  /** The scaled gradient belongs to the scaled objective: along a direction of the scaled space it gives the slope
      along the unscaled direction, divided by the objective's factor. */
  lemma GradientConsistent(w: Weights, g: Vector, d: Vector)
    requires |g| == |d| == |w.vars|
    ensures Dot(Stretch(g, Up(w.vars, -1 * w.obj)), d) == Ldexp(Dot(g, Stretch(d, Up(w.vars, 0))), -w.obj)
  {
    RowProductScaled(g, d, -w.obj, Up(w.vars, 0));
    assert Up(Up(w.vars, 0), -w.obj) == Up(w.vars, -1 * w.obj);
  }

  /** The scaled Jacobian belongs to the scaled constraints. */
  lemma JacobianConsistent(w: Weights, jac: Mat, d: Vector)
    requires jac.Valid() && |w.cons| == jac.numRows && |w.vars| == jac.numCols == |d|
    ensures StretchedMat(jac, Down(w.cons, 0), Up(w.vars, 0)).Valid()
    ensures MatVec(StretchedMat(jac, Down(w.cons, 0), Up(w.vars, 0)).Dense(), d)
         == Stretch(MatVec(jac.Dense(), Stretch(d, Up(w.vars, 0))), Down(w.cons, 0))
  {
    hide Ldexp, Stretch, StretchedMat, Mat.At, MatVec;
    var a, b := Down(w.cons, 0), Up(w.vars, 0);
    StretchedMatValid(jac, a, b);
    StretchedProduct(jac.Dense(), d, a, b);
    StretchedDenseRows(jac, a, b);
  }

  lemma StretchedDenseRows(jac: Mat, a: seq<int>, b: seq<int>)
    requires jac.Valid() && |a| == jac.numRows && |b| == jac.numCols
    ensures StretchedMat(jac, a, b).Valid() && StretchedMat(jac, a, b).Dense() == StretchRows(jac.Dense(), a, b)
  {
    hide Ldexp, StretchedMat, Mat.At;
    StretchedMatValid(jac, a, b);
    var r := StretchedMat(jac, a, b);
    forall i | 0 <= i < jac.numRows ensures r.Dense()[i] == StretchRows(jac.Dense(), a, b)[i] {
      forall j | 0 <= j < jac.numCols ensures r.Dense()[i][j] == StretchRows(jac.Dense(), a, b)[i][j] {
        StretchedMatAt(jac, a, b, i, j);
      }
    }
  }

  // ----- the Hessian of the Lagrangian

  ghost function ScaledHessian(w: Weights, H: Matrix): (S: Matrix)
    requires IsMatrix(H, |w.vars|, |w.vars|)
    ensures IsMatrix(S, |w.vars|, |w.vars|)
  {
    StretchRows(H, Up(w.vars, -1 * w.obj), Up(w.vars, 0))
  }

  lemma ScaledHessianSymmetric(w: Weights, H: Matrix)
    requires IsMatrix(H, |w.vars|, |w.vars|) && IsSymmetric(H)
    ensures IsSymmetric(ScaledHessian(w, H))
  {
  }

  /** Curvature along a scaled direction is the curvature along the unscaled one, divided by the objective's factor. */
  lemma CurvatureConsistent(w: Weights, H: Matrix, d: Vector)
    requires IsMatrix(H, |w.vars|, |w.vars|) && |d| == |w.vars|
    ensures var u := Stretch(d, Up(w.vars, 0));
      Dot(d, MatVec(ScaledHessian(w, H), d)) == Ldexp(Dot(u, MatVec(H, u)), -w.obj)
  {
    hide Ldexp, MatVec, Stretch;
    var a, b := Up(w.vars, -1 * w.obj), Up(w.vars, 0);
    var u := Stretch(d, b);
    var q := MatVec(H, u);
    StretchedProduct(H, d, a, b);
    DotSymmetric(d, Stretch(q, a));
    assert Up(b, -w.obj) == a;
    RowProductScaled(q, d, -w.obj, b);
    DotSymmetric(q, u);
  }

  /** Entry (i, j) of the Hessian of the Lagrangian, from the entries of the objective's and the constraints'. */
  function LagrangianEntry(f: real, c: Vector, duals: Vector): real
    requires |c| == |duals|
  {
    f + Dot(c, duals)
  }

  /** The Hessian taken at the unscaled multipliers and then scaled is the one of the scaled Lagrangian: the
      objective's part has the objective's factor, and every constraint's part the factor of that constraint. */
  lemma LagrangianConsistent(w: Weights, f: real, c: Vector, duals: Vector, e: int)
    requires |c| == |duals| == |w.cons|
    ensures Ldexp(LagrangianEntry(f, c, Stretch(duals, Down(w.cons, w.obj))), e - w.obj)
         == LagrangianEntry(Ldexp(f, e - w.obj), Stretch(c, Down(w.cons, e)), duals)
  {
    hide Ldexp, Stretch;
    var b := Down(w.cons, w.obj);
    LdexpSum(f, Dot(c, Stretch(duals, b)), e - w.obj);
    RowProductScaled(c, duals, e - w.obj, b);
    assert Up(b, e - w.obj) == Down(w.cons, e);
  }

  // ----- least squares

  ghost function ScaledResidualJac(w: Weights, J: Matrix): (S: Matrix)
    requires IsMatrix(J, |J|, |w.vars|)
    ensures IsMatrix(S, |J|, |w.vars|)
  {
    StretchRows(J, Const(|J|, -1 * w.obj), Up(w.vars, 0))
  }

  /** Scaling the residuals by the objective's factor divides the sum of squares by its square, as the value of a
      least-squares objective is scaled. */
  lemma LsqObjectiveScaled(w: Weights, r: Vector)
    ensures NormSq(Stretch(r, Const(|r|, -1 * w.obj))) == Ldexp(NormSq(r), -1 * 2 * w.obj)
  {
    hide Ldexp;
    var p := Stretch(r, Const(|r|, -1 * w.obj));
    forall i | 0 <= i < |r| ensures p[i] * p[i] == Ldexp(r[i] * r[i], -1 * 2 * w.obj) {
      LdexpProduct(r[i], r[i], -1 * w.obj, -1 * w.obj);
    }
    DotToScaled(r, r, p, p, -1 * 2 * w.obj, |r|);
  }

  /** So the scaled objective of an iterate that holds half the sum of squares of its residuals is half that of the
      scaled residuals. */
  lemma LsqScaledObjective(w: Weights, s: State, r: Vector)
    requires Scalable(w, s) && s.objVal == Times(0.5, NormSq(r))
    ensures Scaled(w, s, true).objVal == Times(0.5, NormSq(Stretch(r, Const(|r|, -1 * w.obj))))
  {
    hide Times, NormSq, Stretch, Pow2, Stretched, StretchedMat;
    LsqObjectiveScaled(w, r);
    TimesAssociate(0.5, NormSq(r), Pow2(-1 * 2 * w.obj));
  }

  /** The linear model of the scaled objective along a scaled direction is that of the unscaled one along the unscaled
      direction, divided by the objective's factor. */
  lemma ScaledModel(w: Weights, s: State, d: Vector)
    requires Scalable(w, s) && |d| == s.primal.dim
    ensures Scalable(w, Scaled(w, s, false))
    ensures Scaled(w, s, false).objVal + Dot(Scaled(w, s, false).objGrad.Dense(), d)
         == Ldexp(s.objVal + Dot(s.objGrad.Dense(), Stretch(d, Up(w.vars, 0))), -w.obj)
  {
    hide Ldexp, Stretch, Dot, StretchedMat, Stretched;
    ScaledIsScalable(w, s, false);
    GradientConsistent(w, s.objGrad.Dense(), d);
    StretchedDense(s.objGrad, Up(w.vars, -1 * w.obj));
    LdexpSum(s.objVal, Dot(s.objGrad.Dense(), Stretch(d, Up(w.vars, 0))), -w.obj);
  }

  /** The gradient of the scaled sum of squares carries the square of the objective's factor. */
  lemma LsqGradientScaled(w: Weights, J: Matrix, r: Vector)
    requires IsMatrix(J, |J|, |w.vars|) && |r| == |J|
    ensures TransVec(ScaledResidualJac(w, J), Stretch(r, Const(|r|, -1 * w.obj)), |w.vars|)
         == Stretch(TransVec(J, r, |w.vars|), Up(w.vars, -1 * 2 * w.obj))
  {
    hide Ldexp, TransVec;
    var a, b, n := Const(|r|, -1 * w.obj), Up(w.vars, 0), |w.vars|;
    var rs := Stretch(r, a);
    StretchedTransProduct(J, rs, a, b);
    assert Stretch(rs, a) == Stretch(r, Const(|r|, -1 * 2 * w.obj)) by {
      forall i | 0 <= i < |r| ensures Stretch(rs, a)[i] == Ldexp(r[i], -1 * 2 * w.obj) {
        LdexpTwice(r[i], -1 * w.obj, -1 * w.obj);
      }
    }
    LsqGradientEntries(w, J, r);
  }

  lemma LsqGradientEntries(w: Weights, J: Matrix, r: Vector)
    requires IsMatrix(J, |J|, |w.vars|) && |r| == |J|
    ensures Stretch(TransVec(J, Stretch(r, Const(|r|, -1 * 2 * w.obj)), |w.vars|), Up(w.vars, 0))
         == Stretch(TransVec(J, r, |w.vars|), Up(w.vars, -1 * 2 * w.obj))
  {
    hide Ldexp, TransVec, Dot;
    var k, n := -1 * 2 * w.obj, |w.vars|;
    var rk := Stretch(r, Const(|r|, k));
    forall j | 0 <= j < n
      ensures Ldexp(TransVec(J, rk, n)[j], w.vars[j]) == Ldexp(TransVec(J, r, n)[j], w.vars[j] + k)
    {
      TransVecEntry(J, rk, n, j);
      TransVecEntry(J, r, n, j);
      var c := Column(J, j);
      FactorOut(c, r, k);
      LdexpTwice(Dot(c, r), k, w.vars[j]);
    }
  }

  lemma FactorOut(c: Vector, r: Vector, k: int)
    requires |c| == |r|
    ensures Dot(c, Stretch(r, Const(|r|, k))) == Ldexp(Dot(c, r), k)
  {
    hide Ldexp;
    var q := Stretch(r, Const(|r|, k));
    forall i | 0 <= i < |r| ensures c[i] * q[i] == Ldexp(c[i] * r[i], k) {
      LdexpProduct(c[i], r[i], 0, k);
      LdexpZero(c[i], 0);
    }
    DotToScaled(c, r, c, q, k, |r|);
  }

  lemma {:induction false} Pow2AboveOne(k: nat)
    ensures k > 0 ==> Pow2(k) > 1.0
  {
    if k > 0 { Pow2AboveOne(k - 1); }
  }

  lemma LdexpSame(x: real, a: int, b: int)
    ensures Ldexp(x, a) == Ldexp(x, b) <==> a == b || x == 0.0
  {
    LdexpZero(x, a);
    LdexpZero(x, b);
    if a != b {
      var low, k := if a < b then a else b, if a < b then b - a else a - b;
      LdexpTwice(x, low, k);
      Pow2AboveOne(k);
      Grown(Ldexp(x, low), Pow2(k));
    }
  }

  lemma Grown(x: real, y: real)
    requires y > 1.0
    ensures Times(x, y) == x <==> x == 0.0
  {
    assert Times(x, y) - x == x * (y - 1.0);
    if x > 0.0 { ScaledPositive(x, y - 1.0); } else if x < 0.0 { ScaledPositive(-x, y - 1.0); }
  }

  /** sleqp_scale_obj_grad applies the factor of a plain objective. For a least-squares problem the result is the
      gradient of the scaled objective exactly if the objective's weight is zero or the gradient vanishes. */
  lemma LsqGradientAgreesIff(w: Weights, J: Matrix, r: Vector)
    requires IsMatrix(J, |J|, |w.vars|) && |r| == |J|
    ensures (Stretch(TransVec(J, r, |w.vars|), Up(w.vars, -1 * w.obj))
             == TransVec(ScaledResidualJac(w, J), Stretch(r, Const(|r|, -1 * w.obj)), |w.vars|))
       <==> (w.obj == 0 || forall j :: 0 <= j < |w.vars| ==> TransVec(J, r, |w.vars|)[j] == 0.0)
  {
    hide Ldexp, TransVec;
    LsqGradientScaled(w, J, r);
    var g := TransVec(J, r, |w.vars|);
    var x, y := Stretch(g, Up(w.vars, -1 * w.obj)), Stretch(g, Up(w.vars, -1 * 2 * w.obj));
    forall j | 0 <= j < |w.vars| ensures x[j] == y[j] <==> w.obj == 0 || g[j] == 0.0 {
      LdexpSame(g[j], w.vars[j] - w.obj, w.vars[j] - 2 * w.obj);
    }
    assert x == y <==> forall j :: 0 <= j < |w.vars| ==> x[j] == y[j];
  }

  /** One residual, one variable and the objective weight one: the scaled gradient is 1/2, the gradient of the scaled
      objective 1/4. */
  lemma LsqGradientMayDiffer()
    ensures var w, J, r := Weights(1, [0], []), [[1.0]], [1.0];
      && IsMatrix(J, 1, 1)
      && Stretch(TransVec(J, r, 1), Up(w.vars, -1 * w.obj)) == [0.5]
      && TransVec(ScaledResidualJac(w, J), Stretch(r, Const(1, -1 * w.obj)), 1) == [0.25]
  {
    var w, J, r := Weights(1, [0], []), [[1.0]], [1.0];
    LsqGradientScaled(w, J, r);
    assert TransVec(J, r, 1) == [1.0] by {
      TransVecEntry(J, r, 1, 0);
      assert Column(J, 0) == [1.0];
      DotOne(Column(J, 0), r);
    }
    assert Pow2(-1) == Pow2(0) / 2.0 && Pow2(-2) == Pow2(-1) / 2.0;
    hide TransVec, Pow2;
    assert Stretch([1.0], Up(w.vars, -1)) == [0.5] && Stretch([1.0], Up(w.vars, -2)) == [0.25];
  }
}
