/** What an augmented Jacobian promises (src/main/aug_jac/aug_jac.h), and why its two linear systems keep the
    promise: A is the working-set matrix A_W with n columns. */
module AugJacSpec {
  import opened LinearAlgebra

  /** x solves A*x = b with minimum norm, and is the only vector to do so. */
  ghost predicate IsMinNorm(A: Matrix, b: Vector, x: Vector)
    requires IsMatrix(A, |A|, |x|)
  {
    && MatVec(A, x) == b
    && forall z :: |z| == |x| && MatVec(A, z) == b ==> z == x || NormSq(x) < NormSq(z)
  }

  /** x is the only point closest to r with A*x = 0. */
  ghost predicate IsNullProjection(A: Matrix, r: Vector, x: Vector)
    requires IsMatrix(A, |A|, |x|) && |r| == |x|
  {
    && MatVec(A, x) == Zero(|A|)
    && forall z :: |z| == |x| && MatVec(A, z) == Zero(|A|) ==> z == x || NormSq(Sub(x, r)) < NormSq(Sub(z, r))
  }

  /** y minimises |r - A^T*y|. */
  ghost predicate IsLeastSquares(A: Matrix, r: Vector, y: Vector)
    requires IsMatrix(A, |A|, |r|) && |y| == |A|
  {
    forall w :: |w| == |A| ==> NormSq(Sub(r, TransVec(A, y, |r|))) <= NormSq(Sub(r, TransVec(A, w, |r|)))
  }

  // ----- the row space is orthogonal to the null space

  lemma RowSpaceOrthogonal(A: Matrix, y: Vector, t: Vector)
    requires IsMatrix(A, |A|, |t|) && |y| == |A|
    requires MatVec(A, t) == Zero(|A|)
    ensures Dot(TransVec(A, y, |t|), t) == 0.0
  {
    Adjoint(A, t, y);
    DotZero(y);
  }

  lemma MatVecSub(A: Matrix, x: Vector, z: Vector, b: Vector)
    requires |x| == |z| && IsMatrix(A, |A|, |x|)
    requires MatVec(A, x) == b && MatVec(A, z) == b
    ensures MatVec(A, Sub(z, x)) == Zero(|A|)
  {
    MatVecLinear(A, 1.0, z, -1.0, x);
  }

  lemma SubZero(x: Vector, z: Vector)
    requires |x| == |z|
    ensures NormSq(Sub(z, x)) >= 0.0
    ensures NormSq(Sub(z, x)) == 0.0 <==> z == x
  {
    NormSqNonneg(Sub(z, x));
    if z == x {
      assert Sub(z, x) == Zero(|x|);
    }
    if NormSq(Sub(z, x)) == 0.0 {
      forall i | 0 <= i < |x| ensures z[i] == x[i] {
        assert Sub(z, x)[i] == Zero(|x|)[i];
      }
    }
  }

  /** Pythagoras: orthogonal parts add up in the square. */
  lemma Pythagoras(x: Vector, d: Vector)
    requires |x| == |d| && Dot(x, d) == 0.0
    ensures NormSq(LinComb(1.0, x, 1.0, d)) == NormSq(x) + NormSq(d)
  {
    NormSqLinComb(1.0, x, 1.0, d);
  }

  /** A solution that lies in the row space is the minimum-norm solution. */
  lemma RowSpaceIsMinNorm(A: Matrix, b: Vector, x: Vector, y: Vector)
    requires IsMatrix(A, |A|, |x|) && |y| == |A|
    requires x == TransVec(A, y, |x|) && MatVec(A, x) == b
    ensures IsMinNorm(A, b, x)
  {
    forall z | |z| == |x| && MatVec(A, z) == b
      ensures z == x || NormSq(x) < NormSq(z)
    {
      var d := Sub(z, x);
      MatVecSub(A, x, z, b);
      RowSpaceOrthogonal(A, y, d);
      Pythagoras(x, d);
      assert LinComb(1.0, x, 1.0, d) == z;
      SubZero(x, z);
    }
  }

  /** Splitting r into a null-space part x and a row-space part makes x the projection and y the least-squares
      multipliers. */
  lemma SplitIsProjection(A: Matrix, r: Vector, x: Vector, y: Vector)
    requires IsMatrix(A, |A|, |x|) && |y| == |A| && |r| == |x|
    requires MatVec(A, x) == Zero(|A|)
    requires x == Sub(r, TransVec(A, y, |x|))
    ensures IsNullProjection(A, r, x)
    ensures IsLeastSquares(A, r, y)
  {
    var s := TransVec(A, y, |x|);
    forall z | |z| == |x| && MatVec(A, z) == Zero(|A|)
      ensures z == x || NormSq(Sub(x, r)) < NormSq(Sub(z, r))
    {
      var d, e := Sub(z, x), Sub(x, r);
      MatVecSub(A, x, z, Zero(|A|));
      RowSpaceOrthogonal(A, y, d);
      DotScale(-1.0, s, d);
      assert e == Scale(-1.0, s);
      Pythagoras(e, d);
      assert Sub(z, r) == LinComb(1.0, e, 1.0, d);
      SubZero(x, z);
    }
    forall w | |w| == |A|
      ensures NormSq(Sub(r, s)) <= NormSq(Sub(r, TransVec(A, w, |r|)))
    {
      LeastSquaresStep(A, r, x, y, w);
    }
  }

  lemma LeastSquaresStep(A: Matrix, r: Vector, x: Vector, y: Vector, w: Vector)
    requires IsMatrix(A, |A|, |x|) && |y| == |w| == |A| && |r| == |x|
    requires MatVec(A, x) == Zero(|A|)
    requires x == Sub(r, TransVec(A, y, |x|))
    ensures NormSq(x) <= NormSq(Sub(r, TransVec(A, w, |r|)))
  {
    var e := TransVec(A, Sub(y, w), |x|);
    TransVecLinear(A, 1.0, y, -1.0, w, |x|);
    RowSpaceOrthogonal(A, Sub(y, w), x);
    DotSymmetric(e, x);
    Pythagoras(x, e);
    NormSqNonneg(e);
    assert Sub(r, TransVec(A, w, |r|)) == LinComb(1.0, x, 1.0, e);
  }

  // ----- the reduced system (A*A^T)*y = ...

  /** With (A*A^T)*y = b, the vector A^T*y is the minimum-norm solution. */
  lemma ReducedMinNorm(A: Matrix, b: Vector, y: Vector, n: nat)
    requires IsMatrix(A, |A|, n) && |y| == |A|
    requires MatVec(Gram(A, n), y) == b
    ensures IsMinNorm(A, b, TransVec(A, y, n))
  {
    GramVec(A, y, n);
    RowSpaceIsMinNorm(A, b, TransVec(A, y, n), y);
  }

  /** With (A*A^T)*y = A*r, the vector r - A^T*y is the projection of r, and y the least-squares solution. */
  lemma ReducedProjection(A: Matrix, r: Vector, y: Vector)
    requires IsMatrix(A, |A|, |r|) && |y| == |A|
    requires MatVec(Gram(A, |r|), y) == MatVec(A, r)
    ensures IsNullProjection(A, r, Sub(r, TransVec(A, y, |r|)))
    ensures IsLeastSquares(A, r, y)
  {
    var s := TransVec(A, y, |r|);
    GramVec(A, y, |r|);
    MatVecSub(A, s, r, MatVec(A, r));
    SplitIsProjection(A, r, Sub(r, s), y);
  }

  // ----- the standard system [[I, A^T], [A, 0]]

  /** The dense matrix [[I, A^T], [A, 0]] applied to (x, y). */
  function KktVec(A: Matrix, x: Vector, y: Vector): (z: Vector)
    requires IsMatrix(A, |A|, |x|) && |y| == |A|
  {
    LinComb(1.0, x, 1.0, TransVec(A, y, |x|)) + MatVec(A, x)
  }

  /** A solution of the standard system with right-hand side (0, b) is the minimum-norm solution. */
  lemma StandardMinNorm(A: Matrix, b: Vector, x: Vector, y: Vector)
    requires IsMatrix(A, |A|, |x|) && |y| == |A| && |b| == |A|
    requires KktVec(A, x, y) == Zero(|x|) + b
    ensures IsMinNorm(A, b, x)
  {
    var top := LinComb(1.0, x, 1.0, TransVec(A, y, |x|));
    assert KktVec(A, x, y)[..|x|] == top && (Zero(|x|) + b)[..|x|] == Zero(|x|);
    assert KktVec(A, x, y)[|x|..] == MatVec(A, x) && (Zero(|x|) + b)[|x|..] == b;
    var w := Scale(-1.0, y);
    assert w == LinComb(-1.0, y, 0.0, y);
    TransVecLinear(A, -1.0, y, 0.0, y, |x|);
    forall i | 0 <= i < |x| ensures x[i] == TransVec(A, w, |x|)[i] {
      assert top[i] == Zero(|x|)[i];
    }
    RowSpaceIsMinNorm(A, b, x, w);
  }

  /** A solution of the standard system with right-hand side (r, 0) is the projection and the least-squares
      solution at once. */
  lemma StandardProjection(A: Matrix, r: Vector, x: Vector, y: Vector)
    requires IsMatrix(A, |A|, |x|) && |y| == |A| && |r| == |x|
    requires KktVec(A, x, y) == r + Zero(|A|)
    ensures IsNullProjection(A, r, x)
    ensures IsLeastSquares(A, r, y)
  {
    var top := LinComb(1.0, x, 1.0, TransVec(A, y, |x|));
    assert KktVec(A, x, y)[..|x|] == top && (r + Zero(|A|))[..|x|] == r;
    assert KktVec(A, x, y)[|x|..] == MatVec(A, x) && (r + Zero(|A|))[|x|..] == Zero(|A|);
    forall i | 0 <= i < |x| ensures x[i] == Sub(r, TransVec(A, y, |x|))[i] {
      assert top[i] == r[i];
    }
    SplitIsProjection(A, r, x, y);
  }

  // ----- the specification determines the answer

  lemma MinNormUnique(A: Matrix, b: Vector, x: Vector, x': Vector)
    requires |x| == |x'| && IsMatrix(A, |A|, |x|)
    requires IsMinNorm(A, b, x) && IsMinNorm(A, b, x')
    ensures x == x'
  {
    assert MatVec(A, x) == b && MatVec(A, x') == b;
  }

  lemma ProjectionUnique(A: Matrix, r: Vector, x: Vector, x': Vector)
    requires |x| == |x'| == |r| && IsMatrix(A, |A|, |x|)
    requires IsNullProjection(A, r, x) && IsNullProjection(A, r, x')
    ensures x == x'
  {
    assert MatVec(A, x) == Zero(|A|) && MatVec(A, x') == Zero(|A|);
  }

  /** The two factorisations give the same vectors: y solves a system of the reduced form, (x, w) one of the standard
      form with the same data. */
  lemma VariantsAgree(A: Matrix, r: Vector, b: Vector, x: Vector, w: Vector, x': Vector, w': Vector, y: Vector,
                      y': Vector)
    requires |x| == |x'| == |r| && |w| == |w'| == |y| == |y'| == |b| == |A| && IsMatrix(A, |A|, |r|)
    requires KktVec(A, x, w) == Zero(|r|) + b && KktVec(A, x', w') == r + Zero(|A|)
    requires MatVec(Gram(A, |r|), y) == b && MatVec(Gram(A, |r|), y') == MatVec(A, r)
    ensures x == TransVec(A, y, |r|) && x' == Sub(r, TransVec(A, y', |r|))
  {
    hide *;
    StandardMinNorm(A, b, x, w);
    ReducedMinNorm(A, b, y, |r|);
    Lengths(A, r, y, y');
    MinNormUnique(A, b, x, TransVec(A, y, |r|));
    StandardProjection(A, r, x', w');
    ReducedProjection(A, r, y');
    ProjectionUnique(A, r, x', Sub(r, TransVec(A, y', |r|)));
  }

  lemma Lengths(A: Matrix, r: Vector, y: Vector, y': Vector)
    requires IsMatrix(A, |A|, |r|) && |y| == |y'| == |A|
    ensures |TransVec(A, y, |r|)| == |r| && |Sub(r, TransVec(A, y', |r|))| == |r|
  {
  }

  /** Moving from e by the right multiple of t shortens e unless e and t are orthogonal. */
  lemma ShorterAlong(e: Vector, t: Vector) returns (c: real)
    requires |e| == |t| && Dot(e, t) != 0.0
    ensures NormSq(LinComb(1.0, e, c, t)) < NormSq(e)
  {
    var p, q := Dot(e, t), NormSq(t);
    NormSqNonneg(t);
    if q == 0.0 {
      DotZero(e);
      assert false;
    }
    c := -p / q;
    NormSqLinComb(1.0, e, c, t);
    QuadraticDrop(p, q);
  }

  lemma QuadraticDrop(p: real, q: real)
    requires q > 0.0 && p != 0.0
    ensures var c := -p / q; 2.0 * c * p + c * c * q < 0.0
  {
    var c := -p / q;
    assert c * q == -p;
    var s := Square(p);
    assert c * c * q == c * (c * q) == -(c * p);
    assert c * p == -(s / q);
    assert s / q > 0.0;
  }

  lemma StayInNull(A: Matrix, x: Vector, c: real, t: Vector)
    requires |x| == |t| && IsMatrix(A, |A|, |x|)
    requires MatVec(A, t) == Zero(|A|)
    ensures MatVec(A, LinComb(1.0, x, c, t)) == MatVec(A, x)
  {
    MatVecLinear(A, 1.0, x, c, t);
    forall i | 0 <= i < |A| ensures MatVec(A, LinComb(1.0, x, c, t))[i] == MatVec(A, x)[i] {
      assert MatVec(A, t)[i] == 0.0;
    }
  }

  /** What the projection removes is orthogonal to the whole null space. */
  lemma ProjectionOrthogonal(A: Matrix, r: Vector, x: Vector, t: Vector)
    requires |r| == |x| == |t| && IsMatrix(A, |A|, |x|)
    requires IsNullProjection(A, r, x) && MatVec(A, t) == Zero(|A|)
    ensures Dot(Sub(x, r), t) == 0.0
    ensures Dot(x, t) == Dot(r, t)
  {
    var e := Sub(x, r);
    if Dot(e, t) != 0.0 {
      var c := ShorterAlong(e, t);
      var z := LinComb(1.0, x, c, t);
      StayInNull(A, x, c, t);
      SubStep(x, c, t, r);
      assert false;
    }
    DotLinear(1.0, x, -1.0, r, t);
  }

  lemma SubStep(x: Vector, c: real, t: Vector, r: Vector)
    requires |x| == |t| == |r|
    ensures Sub(LinComb(1.0, x, c, t), r) == LinComb(1.0, Sub(x, r), c, t)
  {
  }

  /** The minimum-norm solution is orthogonal to the null space. */
  lemma MinNormOrthogonal(A: Matrix, b: Vector, x: Vector, t: Vector)
    requires |x| == |t| && IsMatrix(A, |A|, |x|)
    requires IsMinNorm(A, b, x) && MatVec(A, t) == Zero(|A|)
    ensures Dot(x, t) == 0.0
  {
    if Dot(x, t) != 0.0 {
      var c := ShorterAlong(x, t);
      StayInNull(A, x, c, t);
      assert false;
    }
  }

  /** The null-space projection is symmetric: <P a, b> == <a, P b>. */
  lemma ProjectionSymmetric(A: Matrix, a: Vector, pa: Vector, b: Vector, pb: Vector)
    requires |a| == |pa| == |b| == |pb| && IsMatrix(A, |A|, |a|)
    requires IsNullProjection(A, a, pa) && IsNullProjection(A, b, pb)
    ensures Dot(pa, b) == Dot(a, pb)
  {
    ProjectionOrthogonal(A, a, pa, pb);
    ProjectionOrthogonal(A, b, pb, pa);
    DotSymmetric(pa, pb);
    DotSymmetric(b, pa);
  }
}
