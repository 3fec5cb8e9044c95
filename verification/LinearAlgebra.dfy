/** Dense vectors and matrices over the reals: the mathematical side of every kernel in this project. */
module LinearAlgebra {
  type Vector = seq<real>

  /** A matrix is the sequence of its rows. */
  type Matrix = seq<Vector>

  function Max(a: real, b: real): real { if a > b then a else b }

  function Min(a: real, b: real): real { if a < b then a else b }

  function Abs(a: real): real { if a >= 0.0 then a else -a }

  /** A product as a function: where its body is hidden, equal factors give equal products without arithmetic. */
  function Times(a: real, x: real): real { a * x }

  lemma TimesAdd(a: real, x: real, y: real)
    ensures Times(a, x + y) == Times(a, x) + Times(a, y)
  {
  }

  lemma TimesZero(a: real)
    ensures Times(a, 0.0) == 0.0 && Times(0.0, a) == 0.0
  {
  }

  lemma TimesSwap(a: real, b: real, x: real)
    ensures Times(a, Times(b, x)) == Times(b, Times(a, x))
  {
  }

  // ----- vectors

  /** The inner product of the first k entries. */
  function DotTo(x: Vector, y: Vector, k: nat): real
    requires k <= |x| && k <= |y|
  {
    if k == 0 then 0.0 else DotTo(x, y, k - 1) + x[k - 1] * y[k - 1]
  }

  function Dot(x: Vector, y: Vector): real
    requires |x| == |y|
  {
    DotTo(x, y, |x|)
  }

  function NormSq(x: Vector): real { Dot(x, x) }

  function Zero(n: nat): (z: Vector)
  {
    seq(n, i => 0.0)
  }

  /** a*x + b*y */
  function LinComb(a: real, x: Vector, b: real, y: Vector): (z: Vector)
    requires |x| == |y|
  {
    seq(|x|, i requires 0 <= i < |x| => a * x[i] + b * y[i])
  }

  function Scale(a: real, x: Vector): Vector
  {
    seq(|x|, i requires 0 <= i < |x| => a * x[i])
  }

  function Sub(x: Vector, y: Vector): Vector
    requires |x| == |y|
  {
    LinComb(1.0, x, -1.0, y)
  }

  lemma {:induction false} DotToLinear(a: real, x: Vector, b: real, y: Vector, z: Vector, k: nat)
    requires |x| == |y| == |z| && k <= |x|
    ensures DotTo(LinComb(a, x, b, y), z, k) == a * DotTo(x, z, k) + b * DotTo(y, z, k)
  {
    if k > 0 {
      DotToLinear(a, x, b, y, z, k - 1);
      var p, q, r := x[k - 1], y[k - 1], z[k - 1];
      assert (a * p + b * q) * r == a * (p * r) + b * (q * r);
    }
  }

  lemma {:induction false} DotToSymmetric(x: Vector, y: Vector, k: nat)
    requires k <= |x| && k <= |y|
    ensures DotTo(x, y, k) == DotTo(y, x, k)
  {
    if k > 0 { DotToSymmetric(x, y, k - 1); }
  }

  lemma DotSymmetric(x: Vector, y: Vector)
    requires |x| == |y|
    ensures Dot(x, y) == Dot(y, x)
  {
    DotToSymmetric(x, y, |x|);
  }

  /** The inner product is linear in both arguments. */
  lemma DotLinear(a: real, x: Vector, b: real, y: Vector, z: Vector)
    requires |x| == |y| == |z|
    ensures Dot(LinComb(a, x, b, y), z) == Times(a, Dot(x, z)) + Times(b, Dot(y, z))
    ensures Dot(z, LinComb(a, x, b, y)) == Times(a, Dot(z, x)) + Times(b, Dot(z, y))
  {
    DotToLinear(a, x, b, y, z, |x|);
    DotSymmetric(LinComb(a, x, b, y), z);
    DotSymmetric(x, z);
    DotSymmetric(y, z);
  }

  lemma {:induction false} DotToScale(a: real, x: Vector, y: Vector, k: nat)
    requires |x| == |y| && k <= |x|
    ensures DotTo(Scale(a, x), y, k) == a * DotTo(x, y, k)
  {
    if k > 0 {
      DotToScale(a, x, y, k - 1);
      assert (a * x[k - 1]) * y[k - 1] == a * (x[k - 1] * y[k - 1]);
    }
  }

  lemma DotScale(a: real, x: Vector, y: Vector)
    requires |x| == |y|
    ensures Dot(Scale(a, x), y) == a * Dot(x, y)
    ensures Dot(y, Scale(a, x)) == a * Dot(y, x)
  {
    DotToScale(a, x, y, |x|);
    DotSymmetric(Scale(a, x), y);
    DotSymmetric(x, y);
  }

  lemma DotOne(x: Vector, y: Vector)
    requires |x| == |y| == 1
    ensures Dot(x, y) == x[0] * y[0]
  {
    assert DotTo(x, y, 0) == 0.0;
  }

  lemma DotTwo(x: Vector, y: Vector)
    requires |x| == |y| == 2
    ensures Dot(x, y) == x[0] * y[0] + x[1] * y[1]
  {
    assert DotTo(x, y, 0) == 0.0;
    assert DotTo(x, y, 1) == x[0] * y[0];
  }

  lemma NormSqScale(a: real, x: Vector)
    ensures NormSq(Scale(a, x)) == a * a * NormSq(x)
  {
    DotScale(a, x, Scale(a, x));
    DotScale(a, x, x);
  }

  lemma {:induction false} DotToZero(x: Vector, y: Vector, k: nat)
    requires k <= |x| && k <= |y|
    requires forall i :: 0 <= i < k ==> x[i] == 0.0
    ensures DotTo(x, y, k) == 0.0 && DotTo(y, x, k) == 0.0
  {
    if k > 0 {
      DotToZero(x, y, k - 1);
      assert x[k - 1] == 0.0;
    }
  }

  lemma DotZero(x: Vector)
    ensures Dot(Zero(|x|), x) == 0.0 && Dot(x, Zero(|x|)) == 0.0
  {
    DotToZero(Zero(|x|), x, |x|);
  }

  /** Entries j with a zero factor add nothing to the inner product. */
  lemma {:induction false} DotToSkip(x: Vector, y: Vector, j: nat, k: nat)
    requires j <= k <= |x| && k <= |y|
    requires forall i :: j <= i < k ==> x[i] == 0.0 || y[i] == 0.0
    ensures DotTo(x, y, k) == DotTo(x, y, j)
  {
    if j < k {
      DotToSkip(x, y, j, k - 1);
      assert x[k - 1] == 0.0 || y[k - 1] == 0.0;
    }
  }

  /** One step of a merge loop: nothing up to entry i, then entry i. */
  lemma DotToAdvance(x: Vector, y: Vector, j: nat, i: nat)
    requires j <= i < |x| && i < |y|
    requires forall l :: j <= l < i ==> x[l] == 0.0 || y[l] == 0.0
    ensures DotTo(x, y, i + 1) == DotTo(x, y, j) + x[i] * y[i]
  {
    DotToSkip(x, y, j, i);
  }

  lemma {:induction false} NormSqToNonneg(x: Vector, k: nat)
    requires k <= |x|
    ensures 0.0 <= DotTo(x, x, k)
    ensures DotTo(x, x, k) == 0.0 ==> forall i :: 0 <= i < k ==> x[i] == 0.0
  {
    if k > 0 {
      NormSqToNonneg(x, k - 1);
      var s := Square(x[k - 1]);
      assert DotTo(x, x, k) == DotTo(x, x, k - 1) + s;
    }
  }

  lemma ProductSign(a: real, b: real, c: real)
    requires c == a * b
    ensures (a > 0.0 && b > 0.0) || (a < 0.0 && b < 0.0) ==> c > 0.0
  {
    if a < 0.0 && b < 0.0 { assert c == (-a) * (-b); }
  }

  lemma ScaleLe(s: real, x: real, y: real)
    requires s >= 0.0 && x <= y
    ensures s * x <= s * y
  {
  }

  /** s*(p + q) in two products. */
  lemma Distribute(s: real, p: real, q: real)
    ensures s * (p + q) == s * p + s * q
  {
  }

  function Square(a: real): (s: real)
    ensures s >= 0.0
    ensures s == 0.0 <==> a == 0.0
    ensures s == a * a
  {
    var s := a * a;
    ProductSign(a, a, s);
    s
  }

  lemma NormSqNonneg(x: Vector)
    ensures 0.0 <= NormSq(x)
    ensures NormSq(x) == 0.0 <==> x == Zero(|x|)
  {
    NormSqToNonneg(x, |x|);
    if x == Zero(|x|) { DotZero(x); }
  }

  /** |a*x + b*y|^2 expanded. */
  lemma NormSqLinComb(a: real, x: Vector, b: real, y: Vector)
    requires |x| == |y|
    ensures NormSq(LinComb(a, x, b, y))
         == a * a * NormSq(x) + 2.0 * (a * b) * Dot(x, y) + b * b * NormSq(y)
  {
    var z := LinComb(a, x, b, y);
    DotLinear(a, x, b, y, z);
    DotLinear(a, x, b, y, x);
    DotLinear(a, x, b, y, y);
    DotSymmetric(x, y);
    var p, q, r := NormSq(x), Dot(x, y), NormSq(y);
    assert NormSq(z) == a * Dot(x, z) + b * Dot(y, z);
    assert a * (a * p + b * q) + b * (a * q + b * r) == a * a * p + 2.0 * (a * b) * q + b * b * r;
  }

  /** The step is no longer than the radius. */
  ghost predicate Inside(x: Vector, radius: real)
  {
    NormSq(x) <= radius * radius
  }

  /** A square root function on the nonnegative reals. */
  ghost predicate IsSqrt(sqrt: real -> real)
  {
    forall a :: a >= 0.0 ==> sqrt(a) >= 0.0 && sqrt(a) * sqrt(a) == a
  }

  /** For nonnegative roots the order of the roots is the order of the squares. */
  lemma RootOrder(norm: real, radius: real)
    requires norm >= 0.0 && radius > 0.0
    ensures norm <= radius <==> norm * norm <= radius * radius
  {
    if norm <= radius {
      ScaleLe(norm, norm, radius);
      ScaleLe(radius, norm, radius);
    } else {
      ScaleLe(radius, radius, norm);
      var w := norm * (norm - radius);
      ProductSign(norm, norm - radius, w);
    }
  }

  // ----- sums

  function SumTo(x: Vector, k: nat): real
    requires k <= |x|
  {
    if k == 0 then 0.0 else SumTo(x, k - 1) + x[k - 1]
  }

  lemma {:induction false} SumToLinear(a: real, x: Vector, b: real, y: Vector, k: nat)
    requires |x| == |y| && k <= |x|
    ensures SumTo(LinComb(a, x, b, y), k) == Times(a, SumTo(x, k)) + Times(b, SumTo(y, k))
  {
    if k > 0 {
      SumToLinear(a, x, b, y, k - 1);
      assert LinComb(a, x, b, y)[k - 1] == Times(a, x[k - 1]) + Times(b, y[k - 1]);
      hide Times;
      TimesAdd(a, SumTo(x, k - 1), x[k - 1]);
      TimesAdd(b, SumTo(y, k - 1), y[k - 1]);
    }
  }

  lemma {:induction false} SumToMonotone(x: Vector, y: Vector, k: nat)
    requires k <= |x| && k <= |y|
    requires forall i :: 0 <= i < k ==> x[i] <= y[i]
    ensures SumTo(x, k) <= SumTo(y, k)
  {
    if k > 0 { SumToMonotone(x, y, k - 1); }
  }

  lemma {:induction false} SumToSkip(x: Vector, j: nat, k: nat)
    requires j <= k <= |x|
    requires forall i :: j <= i < k ==> x[i] == 0.0
    ensures SumTo(x, k) == SumTo(x, j)
  {
    if j < k { SumToSkip(x, j, k - 1); }
  }

  lemma {:induction false} SumToNonneg(x: Vector, j: nat, k: nat)
    requires j <= k <= |x|
    requires forall i :: 0 <= i < k ==> x[i] >= 0.0
    ensures SumTo(x, k) >= SumTo(x, j) >= 0.0
    ensures SumTo(x, k) == SumTo(x, j) <==> forall i :: j <= i < k ==> x[i] == 0.0
  {
    if j < k {
      SumToNonneg(x, j, k - 1);
    } else if k > 0 {
      SumToNonneg(x, k - 1, k - 1);
    }
  }

  // ----- matrices

  ghost predicate IsMatrix(A: Matrix, m: nat, n: nat)
  {
    |A| == m && forall i :: 0 <= i < m ==> |A[i]| == n
  }

  /** A*x */
  function MatVec(A: Matrix, x: Vector): (y: Vector)
    requires IsMatrix(A, |A|, |x|)
    ensures |y| == |A|
  {
    seq(|A|, i requires 0 <= i < |A| => Dot(A[i], x))
  }

  /** The combination of the first k rows of A with weights y. */
  function CombineRows(A: Matrix, y: Vector, n: nat, k: nat): (x: Vector)
    requires IsMatrix(A, |A|, n) && |y| == |A| && k <= |A|
    ensures |x| == n
  {
    if k == 0 then Zero(n) else LinComb(1.0, CombineRows(A, y, n, k - 1), y[k - 1], A[k - 1])
  }

  /** A^T*y for a matrix with n columns */
  function TransVec(A: Matrix, y: Vector, n: nat): (x: Vector)
    requires IsMatrix(A, |A|, n) && |y| == |A|
    ensures |x| == n
  {
    CombineRows(A, y, n, |A|)
  }

  lemma {:induction false} CombineRowsAdjoint(A: Matrix, x: Vector, y: Vector, k: nat)
    requires IsMatrix(A, |A|, |x|) && |y| == |A| && k <= |A|
    ensures Dot(CombineRows(A, y, |x|, k), x) == DotTo(y, MatVec(A, x), k)
  {
    if k == 0 {
      DotZero(x);
    } else {
      CombineRowsAdjoint(A, x, y, k - 1);
      DotLinear(1.0, CombineRows(A, y, |x|, k - 1), y[k - 1], A[k - 1], x);
    }
  }

  /** <A^T y, x> == <y, A x> */
  lemma Adjoint(A: Matrix, x: Vector, y: Vector)
    requires IsMatrix(A, |A|, |x|) && |y| == |A|
    ensures Dot(TransVec(A, y, |x|), x) == Dot(y, MatVec(A, x))
    ensures Dot(x, TransVec(A, y, |x|)) == Dot(MatVec(A, x), y)
  {
    CombineRowsAdjoint(A, x, y, |A|);
    DotSymmetric(TransVec(A, y, |x|), x);
    DotSymmetric(y, MatVec(A, x));
  }

  lemma MatVecLinear(A: Matrix, a: real, x: Vector, b: real, y: Vector)
    requires |x| == |y| && IsMatrix(A, |A|, |x|)
    ensures MatVec(A, LinComb(a, x, b, y)) == LinComb(a, MatVec(A, x), b, MatVec(A, y))
  {
    forall i | 0 <= i < |A|
      ensures MatVec(A, LinComb(a, x, b, y))[i] == LinComb(a, MatVec(A, x), b, MatVec(A, y))[i]
    {
      DotLinear(a, x, b, y, A[i]);
    }
  }

  lemma {:induction false} CombineRowsLinear(A: Matrix, a: real, x: Vector, b: real, y: Vector, n: nat, k: nat)
    requires IsMatrix(A, |A|, n) && |x| == |y| == |A| && k <= |A|
    ensures CombineRows(A, LinComb(a, x, b, y), n, k)
         == LinComb(a, CombineRows(A, x, n, k), b, CombineRows(A, y, n, k))
  {
    if k > 0 {
      CombineRowsLinear(A, a, x, b, y, n, k - 1);
      var z := LinComb(a, x, b, y);
      forall i | 0 <= i < n
        ensures CombineRows(A, z, n, k)[i]
             == LinComb(a, CombineRows(A, x, n, k), b, CombineRows(A, y, n, k))[i]
      {
        var p, q, r := CombineRows(A, x, n, k - 1)[i], CombineRows(A, y, n, k - 1)[i], A[k - 1][i];
        var s, t := x[k - 1], y[k - 1];
        assert CombineRows(A, z, n, k - 1)[i] == a * p + b * q;
        assert (a * s + b * t) * r == a * (s * r) + b * (t * r);
      }
    }
  }

  lemma TransVecLinear(A: Matrix, a: real, x: Vector, b: real, y: Vector, n: nat)
    requires IsMatrix(A, |A|, n) && |x| == |y| == |A|
    ensures TransVec(A, LinComb(a, x, b, y), n) == LinComb(a, TransVec(A, x, n), b, TransVec(A, y, n))
  {
    CombineRowsLinear(A, a, x, b, y, n, |A|);
  }

  function Column(A: Matrix, j: nat): (c: Vector)
    requires forall i :: 0 <= i < |A| ==> j < |A[i]|
  {
    seq(|A|, i requires 0 <= i < |A| => A[i][j])
  }

  lemma {:induction false} CombineRowsEntry(A: Matrix, y: Vector, n: nat, k: nat, j: nat)
    requires IsMatrix(A, |A|, n) && |y| == |A| && k <= |A| && j < n
    ensures CombineRows(A, y, n, k)[j] == DotTo(Column(A, j), y, k)
  {
    if k > 0 { CombineRowsEntry(A, y, n, k - 1, j); }
  }

  /** Entry j of A^T*y is the inner product of column j with y. */
  lemma TransVecEntry(A: Matrix, y: Vector, n: nat, j: nat)
    requires IsMatrix(A, |A|, n) && |y| == |A| && j < n
    ensures TransVec(A, y, n)[j] == Dot(Column(A, j), y)
  {
    CombineRowsEntry(A, y, n, |A|, j);
  }

  /** A*A^T */
  function Gram(A: Matrix, n: nat): (G: Matrix)
    requires IsMatrix(A, |A|, n)
    ensures IsMatrix(G, |A|, |A|)
  {
    seq(|A|, i requires 0 <= i < |A| => seq(|A|, j requires 0 <= j < |A| => Dot(A[i], A[j])))
  }

  /** (A*A^T)*y == A*(A^T*y) */
  lemma GramVec(A: Matrix, y: Vector, n: nat)
    requires IsMatrix(A, |A|, n) && |y| == |A|
    ensures MatVec(Gram(A, n), y) == MatVec(A, TransVec(A, y, n))
  {
    forall i | 0 <= i < |A|
      ensures MatVec(Gram(A, n), y)[i] == MatVec(A, TransVec(A, y, n))[i]
    {
      Adjoint(A, A[i], y);
      assert MatVec(A, A[i]) == Gram(A, n)[i] by {
        forall j | 0 <= j < |A| ensures Dot(A[j], A[i]) == Dot(A[i], A[j]) { DotSymmetric(A[i], A[j]); }
      }
    }
  }
}
