/** src/main/aug_jac/box_constrained_aug_jac.c: the augmented Jacobian of a working set that holds variables only. */
module BoxAugJac {
  import opened LinearAlgebra
  import opened SparseVec
  import opened SparseMat
  import opened Problems
  import opened WorkingSets
  import opened WorkingMatrices
  import opened Polishing
  import opened AugJacSpec
  import opened AugMatrix
  import opened BoxCauchy

  /** Only variables are active, and their positions follow their indices. */
  ghost predicate IsBoxSet(s: Sets, jac: Mat)
  {
    s.WellFormed() && Fits(s, jac) && s.numActiveVars == s.Size() && Increasing(s.content, 0)
  }

  /** The working set of the box-constrained Cauchy step is one of these. */
  lemma CauchySetIsBoxSet(workingSet: WorkingSet, states: seq<ActiveState>, jac: Mat)
    requires HoldsStates(workingSet, states) && Fits(workingSet.View(), jac)
    ensures IsBoxSet(workingSet.View(), jac)
  {
    hide Mat.Valid;
  }

  lemma RowIsUnit(s: Sets, jac: Mat, k: nat)
    requires IsBoxSet(s, jac) && k < s.Size()
    ensures WorkingMatrix(s, jac)[k] == Unit(s.NumVars(), s.content[k]) && 0 <= s.content[k] < s.NumVars()
  {
    assert WorkingMatrix(s, jac)[k] == WorkingRow(s, jac, k) == EntryRow(jac, s.content[k]);
  }

  /** A_W*x lists the active entries of x. */
  lemma ProductLists(s: Sets, jac: Mat, x: Vector)
    requires IsBoxSet(s, jac) && |x| == s.NumVars()
    ensures forall k :: 0 <= k < s.Size() ==>
      0 <= s.content[k] < |x| && MatVec(WorkingMatrix(s, jac), x)[k] == x[s.content[k]]
  {
    hide Dot;
    forall k | 0 <= k < s.Size() ensures MatVec(WorkingMatrix(s, jac), x)[k] == x[s.content[k]] {
      RowIsUnit(s, jac, k);
      DotUnit(s.NumVars(), s.content[k], x);
    }
  }

  /** A_W^T*y puts the entries of y at the active variables. */
  lemma TransposeSpreads(s: Sets, jac: Mat, y: Vector, j: nat)
    requires IsBoxSet(s, jac) && |y| == s.Size() && j < s.NumVars()
    ensures var x := TransVec(WorkingMatrix(s, jac), y, s.NumVars());
      && (s.varIndices[j] == NONE ==> x[j] == 0.0)
      && (s.varIndices[j] != NONE ==> 0 <= s.varIndices[j] < |y| && x[j] == y[s.varIndices[j]])
  {
    var A := WorkingMatrix(s, jac);
    TransVecEntry(A, y, s.NumVars(), j);
    var c := Column(A, j);
    forall k | 0 <= k < s.Size() ensures c[k] == if s.varIndices[j] == k then 1.0 else 0.0 {
      RowIsUnit(s, jac, k);
      assert s.varIndices[s.content[k]] == k;
    }
    if s.varIndices[j] == NONE {
      DotToZero(c, y, |y|);
    } else {
      assert c == Unit(|y|, s.varIndices[j]);
      DotUnit(|y|, s.varIndices[j], y);
    }
  }

  // ----- the three solves

  /** sol holds the entries of rhs at the content positions. */
  ghost predicate IsSpread(s: Sets, rhs: Vec, sol: Vec)
    requires rhs.Valid() && sol.Valid() && |s.varIndices| == s.NumVars()
  {
    && rhs.dim == s.Size() && sol.dim == s.NumVars()
    && forall j :: 0 <= j < s.NumVars() ==>
         sol.At(j) == if s.varIndices[j] == NONE then 0.0 else rhs.At(s.varIndices[j])
  }

  /** solve_min_norm */
  method SolveMinNorm(s: Sets, ghost jac: Mat, rhs: Vec) returns (sol: Vec)
    requires IsBoxSet(s, jac) && rhs.Valid() && rhs.dim == s.Size()
    ensures sol.Valid() && sol.dim == s.NumVars()
    ensures IsMinNorm(WorkingMatrix(s, jac), rhs.Dense(), sol.Dense())
  {
    hide Vec.At, IsMinNorm;
    sol := Empty(|s.varStates|);
    ghost var i := 0;
    for k := 0 to |rhs.indices|
      invariant 0 <= i <= rhs.dim && rhs.Cursor(k, i)
      invariant sol.Valid() && sol.dim == s.NumVars()
      invariant forall p, q :: 0 <= p < |sol.indices| && i <= q < s.Size() ==> sol.indices[p] < s.content[q]
      invariant forall j :: 0 <= j < s.NumVars() && 0 <= s.varIndices[j] < i ==> sol.At(j) == rhs.At(s.varIndices[j])
      invariant forall j :: 0 <= j < s.NumVars() && !(0 <= s.varIndices[j] < i) ==> sol.At(j) == 0.0
    {
      var idx, value := rhs.indices[k], rhs.data[k];
      CursorSkip(rhs, k, i, idx);
      CursorAt(rhs, k, idx);
      ghost var before := sol;
      sol := Push(sol, s.content[idx], value);
      i := idx + 1;
    }
    CursorEnd(rhs, i);
    SpreadIsMinNorm(s, jac, rhs, sol);
  }

  lemma SpreadIsMinNorm(s: Sets, jac: Mat, rhs: Vec, sol: Vec)
    requires IsBoxSet(s, jac) && rhs.Valid() && sol.Valid() && IsSpread(s, rhs, sol)
    ensures IsMinNorm(WorkingMatrix(s, jac), rhs.Dense(), sol.Dense())
  {
    var A, b, x := WorkingMatrix(s, jac), rhs.Dense(), sol.Dense();
    hide Vec.At, TransVec, MatVec;
    forall j | 0 <= j < s.NumVars() ensures x[j] == TransVec(A, b, s.NumVars())[j] { TransposeSpreads(s, jac, b, j); }
    ProductLists(s, jac, x);
    forall k | 0 <= k < s.Size() ensures MatVec(A, x)[k] == b[k] { assert s.varIndices[s.content[k]] == k; }
    assert MatVec(A, x) == b;
    RowSpaceIsMinNorm(A, b, x, b);
  }

  /** The active entries of r, by position. */
  ghost function Restricted(s: Sets, r: Vector): (y: Vector)
    requires s.Placed() && s.numActiveVars == s.Size() && |r| == s.NumVars()
    ensures |y| == s.Size()
  {
    seq(s.Size(), k requires 0 <= k < s.Size() => r[s.content[k]])
  }

  /** r with its active entries replaced by zero. */
  ghost function WithoutActive(s: Sets, r: Vector): (x: Vector)
    requires |s.varIndices| == s.NumVars() == |r|
    ensures |x| == |r|
  {
    seq(|r|, j requires 0 <= j < |r| => if s.varIndices[j] == NONE then r[j] else 0.0)
  }

  lemma SplitMeets(s: Sets, jac: Mat, r: Vector)
    requires IsBoxSet(s, jac) && |r| == s.NumVars()
    ensures IsNullProjection(WorkingMatrix(s, jac), r, WithoutActive(s, r))
    ensures IsLeastSquares(WorkingMatrix(s, jac), r, Restricted(s, r))
  {
    var A, x, y := WorkingMatrix(s, jac), WithoutActive(s, r), Restricted(s, r);
    hide TransVec, MatVec;
    ProductLists(s, jac, x);
    forall k | 0 <= k < s.Size() ensures MatVec(A, x)[k] == 0.0 { assert s.varIndices[s.content[k]] == k; }
    assert MatVec(A, x) == Zero(|A|);
    forall j | 0 <= j < |r| ensures x[j] == Sub(r, TransVec(A, y, |r|))[j] { TransposeSpreads(s, jac, y, j); }
    assert x == Sub(r, TransVec(A, y, |r|));
    SplitIsProjection(A, r, x, y);
  }

  /** solve_lsq */
  method SolveLsq(s: Sets, ghost jac: Mat, rhs: Vec) returns (sol: Vec)
    requires IsBoxSet(s, jac) && rhs.Valid() && rhs.dim == s.NumVars()
    ensures sol.Valid() && sol.dim == s.Size()
    ensures IsLeastSquares(WorkingMatrix(s, jac), rhs.Dense(), sol.Dense())
  {
    hide *;
    sol := PickActive(s, jac, rhs);
    SplitMeets(s, jac, rhs.Dense());
  }

  /** The loop of the least-squares solution: active entries go to their positions. */
  method PickActive(s: Sets, ghost jac: Mat, rhs: Vec) returns (sol: Vec)
    requires IsBoxSet(s, jac) && rhs.Valid() && rhs.dim == s.NumVars()
    ensures sol.Valid() && sol.dim == s.Size() && s.Placed()
    ensures sol.Dense() == Restricted(s, rhs.Dense())
  {
    hide Vec.At;
    sol := Empty(|s.content|);
    ghost var i := 0;
    for k := 0 to |rhs.indices|
      invariant 0 <= i <= rhs.dim && rhs.Cursor(k, i)
      invariant sol.Valid() && sol.dim == s.Size()
      invariant forall p, j :: 0 <= p < |sol.indices| && i <= j < s.NumVars() && s.varIndices[j] != NONE ==>
        sol.indices[p] < s.varIndices[j]
      invariant forall q :: 0 <= q < s.Size() ==> sol.At(q) == if s.content[q] < i then rhs.At(s.content[q]) else 0.0
    {
      var j, value := rhs.indices[k], rhs.data[k];
      CursorSkip(rhs, k, i, j);
      CursorAt(rhs, k, j);
      var index := s.varIndices[j];
      if index != NONE {
        PositionsIncrease(s, jac, j);
        sol := Push(sol, index, value);
      }
      i := j + 1;
    }
    CursorEnd(rhs, i);
    assert sol.Dense() == Restricted(s, rhs.Dense());
  }

  /** Later variables have later positions. */
  lemma PositionsIncrease(s: Sets, jac: Mat, j: nat)
    requires IsBoxSet(s, jac) && j < s.NumVars() && s.varIndices[j] != NONE
    ensures forall i :: j < i < s.NumVars() && s.varIndices[i] != NONE ==> s.varIndices[j] < s.varIndices[i]
  {
    forall i | j < i < s.NumVars() && s.varIndices[i] != NONE ensures s.varIndices[j] < s.varIndices[i] {
      assert s.content[s.varIndices[j]] == j && s.content[s.varIndices[i]] == i;
    }
  }

  /** project_nullspace */
  method ProjectNullspace(s: Sets, ghost jac: Mat, rhs: Vec) returns (sol: Vec)
    requires IsBoxSet(s, jac) && rhs.Valid() && rhs.dim == s.NumVars()
    ensures sol.Valid() && sol.dim == s.NumVars()
    ensures IsNullProjection(WorkingMatrix(s, jac), rhs.Dense(), sol.Dense())
  {
    hide *;
    BoxSize(s, jac);
    sol := KeepInactive(s, rhs);
    SplitMeets(s, jac, rhs.Dense());
  }

  lemma BoxSize(s: Sets, jac: Mat)
    requires IsBoxSet(s, jac)
    ensures |s.varIndices| == s.NumVars()
  {
  }

  /** The loop of the projection: active entries are left out. */
  method KeepInactive(s: Sets, rhs: Vec) returns (sol: Vec)
    requires |s.varIndices| == s.NumVars() && rhs.Valid() && rhs.dim == s.NumVars()
    ensures sol.Valid() && sol.dim == s.NumVars() && sol.Dense() == WithoutActive(s, rhs.Dense())
  {
    hide Vec.At;
    sol := Empty(|s.varStates|);
    ghost var i := 0;
    for k := 0 to |rhs.indices|
      invariant 0 <= i <= rhs.dim && rhs.Cursor(k, i)
      invariant sol.Valid() && sol.dim == s.NumVars()
      invariant forall p :: 0 <= p < |sol.indices| ==> sol.indices[p] < i
      invariant forall j :: 0 <= j < s.NumVars() ==>
        sol.At(j) == if j < i && s.varIndices[j] == NONE then rhs.At(j) else 0.0
    {
      var j, value := rhs.indices[k], rhs.data[k];
      CursorSkip(rhs, k, i, j);
      CursorAt(rhs, k, j);
      var index := s.varIndices[j];
      if index == NONE { sol := Push(sol, j, value); }
      i := j + 1;
    }
    CursorEnd(rhs, i);
    assert sol.Dense() == WithoutActive(s, rhs.Dense());
  }
}
