/** src/main/working_step.c: the step onto the active bounds and what it leaves of the trust region. */
module WorkingSteps {
  import opened LinearAlgebra
  import opened SparseVec
  import opened SparseMat
  import opened Problems
  import opened WorkingSets
  import opened WorkingMatrices
  import opened Directions
  import opened Feasibility
  import opened Comparisons
  import opened AugJacSpec
  import opened AugMatrix
  import opened ReducedAugJac

  const NORM_RATIO: real := 0.8

  // ----- the right-hand side

  /** How far an entry in the given state is from its active bound. */
  function ActiveDiff(state: ActiveState, lower: real, upper: real): real
  {
    match state
    case Inactive => 0.0
    case ActiveUpper => upper
    case ActiveLower => lower
    case ActiveBoth => lower
  }

  /** Positions ascend with the indices of the active entries. */
  ghost predicate PositionsAscend(indices: seq<int>)
  {
    forall i, k :: 0 <= i < k < |indices| && indices[i] != NONE && indices[k] != NONE ==> indices[i] < indices[k]
  }

  /** The entries below j have been pushed behind everything in start. */
  ghost predicate Pushed(start: Vec, rhs: Vec, lower: Vec, upper: Vec, states: seq<ActiveState>, indices: seq<int>,
                         from: int, to: int, j: nat)
    requires lower.Valid() && upper.Valid() && start.Valid()
    requires |states| == |indices| == lower.dim == upper.dim
  {
    && rhs.Valid() && rhs.dim == start.dim
    && (forall p, i :: 0 <= p < |rhs.indices| && j <= i < |indices| && indices[i] != NONE ==>
          rhs.indices[p] < indices[i])
    && (forall i :: 0 <= i < j && i < |indices| && indices[i] != NONE ==>
          rhs.At(indices[i]) == ActiveDiff(states[i], lower.At(i), upper.At(i)))
    && (forall i :: j <= i < |indices| && indices[i] != NONE ==> rhs.At(indices[i]) == 0.0)
    && (forall q :: q < from ==> rhs.At(q) == start.At(q))
    && (forall p :: 0 <= p < |rhs.indices| ==> rhs.indices[p] < to)
  }

  /** What the merge asks for: positions from from on, in order, with everything pushed so far in front of them. */
  ghost predicate CanPush(start: Vec, lower: Vec, upper: Vec, states: seq<ActiveState>, indices: seq<int>, from: int,
                          to: int)
  {
    && from <= to && start.Valid() && lower.Valid() && upper.Valid() && |states| == |indices| == lower.dim == upper.dim
    && PositionsAscend(indices)
    && (forall i :: 0 <= i < |indices| ==> (indices[i] == NONE <==> states[i] == Inactive))
    && (forall i :: 0 <= i < |indices| && indices[i] != NONE ==> from <= indices[i] < to && 0 <= indices[i] < start.dim)
    && (forall p :: 0 <= p < |start.indices| ==> start.indices[p] < from)
  }

  lemma PushedStart(start: Vec, lower: Vec, upper: Vec, states: seq<ActiveState>, indices: seq<int>, from: int, to: int)
    requires CanPush(start, lower, upper, states, indices, from, to)
    ensures Pushed(start, start, lower, upper, states, indices, from, to, 0)
  {
    forall i | 0 <= i < |indices| && indices[i] != NONE ensures start.At(indices[i]) == 0.0 {
      AbsentAt(start, indices[i]);
    }
  }

  /** Entries without a difference contribute nothing. */
  lemma PushedSkip(start: Vec, rhs: Vec, lower: Vec, upper: Vec, states: seq<ActiveState>, indices: seq<int>,
                   from: int, to: int, j: nat, k: nat)
    requires CanPush(start, lower, upper, states, indices, from, to)
    requires Pushed(start, rhs, lower, upper, states, indices, from, to, j) && j <= k <= |indices|
    requires forall i :: j <= i < k ==> lower.At(i) == 0.0 && upper.At(i) == 0.0
    ensures Pushed(start, rhs, lower, upper, states, indices, from, to, k)
  {
    hide Vec.At, Vec.Valid;
    forall i | 0 <= i < k && i < |indices| && indices[i] != NONE
      ensures rhs.At(indices[i]) == ActiveDiff(states[i], lower.At(i), upper.At(i))
    {
    }
  }

  lemma PushedStep(start: Vec, rhs: Vec, lower: Vec, upper: Vec, states: seq<ActiveState>, indices: seq<int>,
                   from: int, to: int, j: nat, rhs': Vec)
    requires CanPush(start, lower, upper, states, indices, from, to)
    requires Pushed(start, rhs, lower, upper, states, indices, from, to, j) && j < |indices|
    requires indices[j] == NONE ==> rhs' == rhs
    requires indices[j] != NONE ==> rhs'.Valid() && rhs'.dim == rhs.dim && rhs'.indices == rhs.indices + [indices[j]]
    requires indices[j] != NONE ==> rhs'.At(indices[j]) == ActiveDiff(states[j], lower.At(j), upper.At(j))
    requires indices[j] != NONE ==> forall i :: i != indices[j] ==> rhs'.At(i) == rhs.At(i)
    ensures Pushed(start, rhs', lower, upper, states, indices, from, to, j + 1)
  {
    hide Vec.At, Vec.Valid;
  }

  /** The branches of one entry. */
  method PushDiff(start: Vec, index: int, state: ActiveState, lowerValue: real, upperValue: real) returns (rhs: Vec)
    requires start.Valid() && (index == NONE <==> state == Inactive)
    requires index != NONE ==>
      0 <= index < start.dim && forall p :: 0 <= p < |start.indices| ==> start.indices[p] < index
    ensures index == NONE ==> rhs == start
    ensures index != NONE ==>
      && rhs.Valid() && rhs.dim == start.dim && rhs.indices == start.indices + [index]
      && rhs.At(index) == ActiveDiff(state, lowerValue, upperValue)
      && forall i :: i != index ==> rhs.At(i) == start.At(i)
  {
    rhs := start;
    match state {
      case ActiveUpper => rhs := SparseVec.Push(rhs, index, upperValue);
      case ActiveLower => rhs := SparseVec.Push(rhs, index, lowerValue);
      case ActiveBoth => rhs := SparseVec.Push(rhs, index, lowerValue);
      case Inactive =>
    }
  }

  /** The merge of the two differences into the right-hand side, for the variables or for the constraints. */
  method PushDiffs(start: Vec, lower: Vec, upper: Vec, states: seq<ActiveState>, indices: seq<int>, ghost from: int,
                   ghost to: int)
    returns (rhs: Vec)
    requires CanPush(start, lower, upper, states, indices, from, to)
    ensures Pushed(start, rhs, lower, upper, states, indices, from, to, |indices|)
  {
    PushedStart(start, lower, upper, states, indices, from, to);
    assert lower.Cursor(0, 0) && upper.Cursor(0, 0);
    hide Vec.At, Pushed, PositionsAscend, ActiveDiff;
    rhs := start;
    var kLower, kUpper := 0, 0;
    ghost var j := 0;
    while kLower < |lower.indices| || kUpper < |upper.indices|
      invariant 0 <= j <= |indices| && lower.Cursor(kLower, j) && upper.Cursor(kUpper, j)
      invariant Pushed(start, rhs, lower, upper, states, indices, from, to, j)
      decreases |lower.indices| - kLower + |upper.indices| - kUpper
    {
      var idx, lowerValue, upperValue;
      idx, lowerValue, upperValue, kLower, kUpper := Read2(lower, upper, kLower, kUpper, j);
      PushedSkip(start, rhs, lower, upper, states, indices, from, to, j, idx);
      ghost var before := rhs;
      PushRoom(start, rhs, lower, upper, states, indices, from, to, idx);
      rhs := PushDiff(rhs, indices[idx], states[idx], lowerValue, upperValue);
      PushedStep(start, before, lower, upper, states, indices, from, to, idx, rhs);
      j := idx + 1;
    }
    CursorEnd(lower, j);
    CursorEnd(upper, j);
    PushedSkip(start, rhs, lower, upper, states, indices, from, to, j, |indices|);
  }

  lemma PushRoom(start: Vec, rhs: Vec, lower: Vec, upper: Vec, states: seq<ActiveState>, indices: seq<int>,
                 from: int, to: int, j: nat)
    requires CanPush(start, lower, upper, states, indices, from, to)
    requires Pushed(start, rhs, lower, upper, states, indices, from, to, j) && j < |indices|
    ensures rhs.Valid() && (indices[j] == NONE <==> states[j] == Inactive)
    ensures indices[j] != NONE ==>
      0 <= indices[j] < rhs.dim && forall p :: 0 <= p < |rhs.indices| ==> rhs.indices[p] < indices[j]
  {
  }

  /** Active variables and constraints appear in the order of their indices. */
  ghost predicate InOrder(s: Sets)
  {
    PositionsAscend(s.varIndices) && PositionsAscend(s.consIndices)
  }

  /** Every active entry has its distance to the active bound at its position. */
  ghost predicate IsInitialRhs(b: Vector, s: Sets, problem: Problem, iterate: EvaluatedPoint)
  {
    && s.WellFormed() && iterate.Fits(problem) && |b| == s.Size()
    && s.NumVars() == problem.NumVars() && s.NumCons() == problem.NumCons()
    && (forall j :: 0 <= j < s.NumVars() && s.varIndices[j] != NONE ==>
          b[s.varIndices[j]] == ActiveDiff(s.varStates[j], problem.varsLb.At(j) - iterate.primal.At(j),
                                           problem.varsUb.At(j) - iterate.primal.At(j)))
    && (forall i :: 0 <= i < s.NumCons() && s.consIndices[i] != NONE ==>
          b[s.consIndices[i]] == ActiveDiff(s.consStates[i], problem.consLb.At(i) - iterate.consVal.At(i),
                                            problem.consUb.At(i) - iterate.consVal.At(i)))
  }

  lemma DiffAt(values: Vec, bound: Vec, diff: Vec)
    requires values.Valid() && bound.Valid() && diff.Valid() && values.dim == bound.dim == diff.dim
    requires diff.Dense() == LinComb(-1.0, values.Dense(), 1.0, bound.Dense())
    ensures forall i :: 0 <= i < values.dim ==> diff.At(i) == bound.At(i) - values.At(i)
  {
    hide Vec.At;
    forall i | 0 <= i < values.dim ensures diff.At(i) == bound.At(i) - values.At(i) {
      assert diff.Dense()[i] == -1.0 * values.Dense()[i] + 1.0 * bound.Dense()[i];
    }
  }

  lemma CanPushVars(s: Sets, lower: Vec, upper: Vec)
    requires s.WellFormed() && InOrder(s) && lower.Valid() && upper.Valid() && lower.dim == upper.dim == s.NumVars()
    ensures CanPush(Empty(s.Size()), lower, upper, s.varStates, s.varIndices, 0, s.numActiveVars)
  {
  }

  lemma CanPushCons(s: Sets, start: Vec, lower: Vec, upper: Vec)
    requires s.WellFormed() && InOrder(s) && lower.Valid() && upper.Valid() && lower.dim == upper.dim == s.NumCons()
    requires start.Valid() && start.dim == s.Size()
    requires forall p :: 0 <= p < |start.indices| ==> start.indices[p] < s.numActiveVars
    ensures CanPush(start, lower, upper, s.consStates, s.consIndices, s.numActiveVars, s.Size())
  {
  }

  lemma PushedValues(start: Vec, rhs: Vec, lower: Vec, upper: Vec, states: seq<ActiveState>, indices: seq<int>,
                     from: int, to: int)
    requires CanPush(start, lower, upper, states, indices, from, to)
    requires Pushed(start, rhs, lower, upper, states, indices, from, to, |indices|)
    ensures rhs.Valid() && rhs.dim == start.dim
    ensures forall p :: 0 <= p < |rhs.indices| ==> rhs.indices[p] < to
    ensures forall i :: 0 <= i < |indices| && indices[i] != NONE ==>
      rhs.At(indices[i]) == ActiveDiff(states[i], lower.At(i), upper.At(i))
    ensures forall q :: q < from ==> rhs.At(q) == start.At(q)
  {
  }

  /** compute_initial_rhs */
  method ComputeInitialRhs(s: Sets, problem: Problem, iterate: EvaluatedPoint) returns (initialRhs: Vec)
    requires s.WellFormed() && InOrder(s) && iterate.Fits(problem)
    requires s.NumVars() == problem.NumVars() && s.NumCons() == problem.NumCons()
    ensures initialRhs.Valid() && initialRhs.dim == s.Size()
    ensures IsInitialRhs(initialRhs.Dense(), s, problem, iterate)
  {
    hide CanPush, Pushed, Vec.At, Vec.Valid, Sets.WellFormed, InOrder, ActiveDiff, LinComb;
    var upperDiff := AddScaled(iterate.primal, problem.varsUb, -1.0, 1.0);
    var lowerDiff := AddScaled(iterate.primal, problem.varsLb, -1.0, 1.0);
    CanPushVars(s, lowerDiff, upperDiff);
    var start := Empty(|s.content|);
    var varsRhs := PushDiffs(start, lowerDiff, upperDiff, s.varStates, s.varIndices, 0, s.numActiveVars);
    PushedValues(start, varsRhs, lowerDiff, upperDiff, s.varStates, s.varIndices, 0, s.numActiveVars);

    var upperCons := AddScaled(iterate.consVal, problem.consUb, -1.0, 1.0);
    var lowerCons := AddScaled(iterate.consVal, problem.consLb, -1.0, 1.0);
    CanPushCons(s, varsRhs, lowerCons, upperCons);
    initialRhs := PushDiffs(varsRhs, lowerCons, upperCons, s.consStates, s.consIndices, s.numActiveVars, |s.content|);
    PushedValues(varsRhs, initialRhs, lowerCons, upperCons, s.consStates, s.consIndices, s.numActiveVars, s.Size());
    RhsFrom(s, problem, iterate, varsRhs, initialRhs, lowerDiff, upperDiff, lowerCons, upperCons);
  }

  lemma RhsFrom(s: Sets, problem: Problem, iterate: EvaluatedPoint, varsRhs: Vec, rhs: Vec, lowerDiff: Vec,
                upperDiff: Vec, lowerCons: Vec, upperCons: Vec)
    requires s.WellFormed() && iterate.Fits(problem) && varsRhs.Valid() && rhs.Valid() && rhs.dim == s.Size()
    requires s.NumVars() == problem.NumVars() && s.NumCons() == problem.NumCons()
    requires lowerDiff.Valid() && upperDiff.Valid() && lowerCons.Valid() && upperCons.Valid()
    requires lowerDiff.dim == upperDiff.dim == s.NumVars() && lowerCons.dim == upperCons.dim == s.NumCons()
    requires upperDiff.Dense() == LinComb(-1.0, iterate.primal.Dense(), 1.0, problem.varsUb.Dense())
    requires lowerDiff.Dense() == LinComb(-1.0, iterate.primal.Dense(), 1.0, problem.varsLb.Dense())
    requires upperCons.Dense() == LinComb(-1.0, iterate.consVal.Dense(), 1.0, problem.consUb.Dense())
    requires lowerCons.Dense() == LinComb(-1.0, iterate.consVal.Dense(), 1.0, problem.consLb.Dense())
    requires forall j :: 0 <= j < s.NumVars() && s.varIndices[j] != NONE ==>
      varsRhs.At(s.varIndices[j]) == ActiveDiff(s.varStates[j], lowerDiff.At(j), upperDiff.At(j))
    requires forall i :: 0 <= i < s.NumCons() && s.consIndices[i] != NONE ==>
      rhs.At(s.consIndices[i]) == ActiveDiff(s.consStates[i], lowerCons.At(i), upperCons.At(i))
    requires forall q :: q < s.numActiveVars ==> rhs.At(q) == varsRhs.At(q)
    ensures IsInitialRhs(rhs.Dense(), s, problem, iterate)
  {
    DiffAt(iterate.primal, problem.varsUb, upperDiff);
    DiffAt(iterate.primal, problem.varsLb, lowerDiff);
    DiffAt(iterate.consVal, problem.consUb, upperCons);
    DiffAt(iterate.consVal, problem.consLb, lowerCons);
    hide Vec.At, Vec.Valid, LinComb, ActiveDiff;
  }

  // ----- what the direction does

  /** Any solution of the working-set system with this right-hand side, in particular the minimum-norm one, puts every
      active variable on its bound and every active constraint on its bound to first order. */
  lemma DirectionMeetsBounds(s: Sets, problem: Problem, iterate: EvaluatedPoint, b: Vector, d: Vector)
    requires IsInitialRhs(b, s, problem, iterate) && Fits(s, iterate.consJac) && |d| == s.NumVars()
    requires MatVec(WorkingMatrix(s, iterate.consJac), d) == b
    ensures forall j :: 0 <= j < s.NumVars() && s.varStates[j] != Inactive ==>
      iterate.primal.At(j) + d[j]
      == if s.varStates[j] == ActiveUpper then problem.varsUb.At(j) else problem.varsLb.At(j)
    ensures forall i :: 0 <= i < s.NumCons() && s.consStates[i] != Inactive ==>
      iterate.consVal.At(i) + MatVec(iterate.consJac.Dense(), d)[i]
      == if s.consStates[i] == ActiveUpper then problem.consUb.At(i) else problem.consLb.At(i)
  {
    var A := WorkingMatrix(s, iterate.consJac);
    hide Vec.At, Mat.Valid, Dot;
    forall j | 0 <= j < s.NumVars() && s.varStates[j] != Inactive ensures b[s.varIndices[j]] == d[j] {
      var k := s.varIndices[j];
      assert A[k] == WorkingRow(s, iterate.consJac, k) == Unit(s.NumVars(), j);
      DotUnit(s.NumVars(), j, d);
    }
    forall i | 0 <= i < s.NumCons() && s.consStates[i] != Inactive
      ensures b[s.consIndices[i]] == MatVec(iterate.consJac.Dense(), d)[i]
    {
      var k := s.consIndices[i];
      assert A[k] == WorkingRow(s, iterate.consJac, k) == iterate.consJac.Row(i);
    }
  }

  // ----- the split of the trust region

  /** The step is left as it is. */
  predicate Unscaled(norm: real, radius: real, eps: real)
    requires norm > 0.0
  {
    IsEq(Min(NORM_RATIO * radius / norm, 1.0), 1.0, eps)
  }

  /** Exactly up to a tolerance of 0.2 an unscaled step fits into the trust region, so that a root can be taken. */
  lemma UnscaledFitsIff(eps: real)
    requires 0.0 <= eps < 1.0
    ensures (forall norm, radius :: norm > 0.0 && radius > 0.0 && Unscaled(norm, radius, eps) ==> norm <= radius)
       <==> eps <= 0.2
  {
    if eps <= 0.2 {
      forall norm, radius | norm > 0.0 && radius > 0.0 && Unscaled(norm, radius, eps) ensures norm <= radius {
        UnscaledBound(norm, radius, eps);
      }
    } else {
      var norm := NORM_RATIO / (1.0 - eps);
      RatioOfSelf(eps, norm);
      assert Unscaled(norm, 1.0, eps) && norm > 1.0;
    }
  }

  lemma RatioOfSelf(eps: real, norm: real)
    requires 0.2 < eps < 1.0 && norm == NORM_RATIO / (1.0 - eps)
    ensures norm > 1.0 && Unscaled(norm, 1.0, eps)
  {
    var rest := 1.0 - eps;
    QuotientAbove(NORM_RATIO, rest, norm);
    QuotientBack(NORM_RATIO, rest, norm, NORM_RATIO * 1.0 / norm);
  }

  lemma QuotientAbove(a: real, b: real, q: real)
    requires 0.0 < b < a && q == a / b
    ensures q > 1.0
  {
    assert q * b == a;
    if q <= 1.0 { ScaleLe(b, q, 1.0); }
  }

  lemma QuotientBack(a: real, b: real, q: real, r: real)
    requires a > 0.0 && b > 0.0 && q == a / b && q > 0.0 && r == a / q
    ensures r == b
  {
    assert q * b == a && r * q == a;
    if r < b { ScaleLt(q, r, b); }
    if r > b { ScaleLt(q, b, r); }
  }

  lemma ScaleLt(s: real, x: real, y: real)
    requires s > 0.0 && x < y
    ensures s * x < s * y
  {
    ProductSign(s, y - x, s * (y - x));
    Distribute(s, y, -x);
  }

  lemma QuotientPositive(a: real, b: real, q: real)
    requires a > 0.0 && b > 0.0 && q == a / b
    ensures q > 0.0 && q * b == a
  {
    if q <= 0.0 { ScaleLe(b, q, 0.0); }
  }

  lemma UnscaledBound(norm: real, radius: real, eps: real)
    requires norm > 0.0 && radius > 0.0 && Unscaled(norm, radius, eps) && 0.0 <= eps <= 0.2
    ensures norm <= radius
  {
    var p := NORM_RATIO * radius;
    var q := NORM_RATIO * radius / norm;
    QuotientPositive(p, norm, q);
    RatioAtLeast(q, eps);
    NormFrom(norm, radius, q, q * norm);
  }

  lemma RatioAtLeast(q: real, eps: real)
    requires q > 0.0 && IsEq(Min(q, 1.0), 1.0, eps) && eps <= 0.2
    ensures q >= 0.8
  {
  }

  lemma NormFrom(norm: real, radius: real, q: real, w: real)
    requires norm > 0.0 && q >= 0.8 && w == q * norm && w == NORM_RATIO * radius
    ensures norm <= radius
  {
    ScaleLe(norm, 0.8, q);
  }

  /** The step and the radius that remains share the square of the trust radius between them. */
  ghost predicate Splits(p: Vector, reduced: real, radius: real)
  {
    reduced >= 0.0 && NormSq(p) + reduced * reduced == radius * radius
  }

  /** In the working set's null space one may then still move by the remaining radius. */
  lemma SplitStaysInside(A: Matrix, b: Vector, d: Vector, factor: real, reduced: real, radius: real, t: Vector)
    requires |d| == |t| && IsMatrix(A, |A|, |d|) && IsMinNorm(A, b, d) && MatVec(A, t) == Zero(|A|)
    requires Splits(Scale(factor, d), reduced, radius) && Inside(t, reduced)
    ensures Inside(LinComb(1.0, Scale(factor, d), 1.0, t), radius)
  {
    MinNormOrthogonal(A, b, d, t);
    DotScale(factor, d, t);
    TimesZero(factor);
    Pythagoras(Scale(factor, d), t);
  }

  /** The step is short enough to be left as it is: up to the tolerance its length is at most 0.8 of the radius. */
  ghost predicate IsShort(d: Vector, radius: real, eps: real)
  {
    eps >= 1.0 || (1.0 - eps) * (1.0 - eps) * NormSq(d) <= 0.64 * (radius * radius)
  }

  /** What becomes of the direction d and the trust region: a short direction is the step, a longer one is shortened to
      0.8 of the radius, which leaves 0.6 of it. Inside the trust region step and remaining radius share the square of
      the trust radius, and up to a tolerance of 0.2 the step is inside. */
  ghost predicate SplitOf(d: Vector, step: Vector, short: bool, reduced: real, radius: real, eps: real)
  {
    && (short <==> IsShort(d, radius, eps))
    && (short ==> step == d)
    && (!short ==> NormSq(step) == 0.64 * (radius * radius) && reduced == 0.6 * radius)
    && (Inside(step, radius) ==> Splits(step, reduced, radius))
    && (eps <= 0.2 ==> Inside(step, radius))
  }

  lemma UnscaledIffShort(d: Vector, norm: real, radius: real, eps: real)
    requires norm > 0.0 && norm * norm == NormSq(d) && radius > 0.0 && 0.0 <= eps
    ensures Unscaled(norm, radius, eps) <==> IsShort(d, radius, eps)
  {
    var q := NORM_RATIO * radius / norm;
    QuotientPositive(NORM_RATIO * radius, norm, q);
    IsEqMeans(Min(q, 1.0), 1.0, eps);
    assert Unscaled(norm, radius, eps) <==> q >= 1.0 - eps;
    if eps < 1.0 { RatioOrder(norm, radius, 1.0 - eps, q, NormSq(d)); }
  }

  lemma RatioOrder(norm: real, radius: real, rest: real, q: real, normsq: real)
    requires norm > 0.0 && radius > 0.0 && rest > 0.0 && q * norm == 0.8 * radius && normsq == norm * norm
    ensures q >= rest <==> rest * rest * normsq <= 0.64 * (radius * radius)
  {
    var w := rest * norm;
    ProductSign(rest, norm, w);
    assert rest * rest * (norm * norm) == w * w;
    assert (0.8 * radius) * (0.8 * radius) == 0.64 * (radius * radius);
    RootOrder(w, 0.8 * radius);
    if q >= rest { ScaleLe(norm, rest, q); } else { ScaleLt(norm, q, rest); }
  }

  lemma ShortSplit(d: Vector, norm: real, radius: real, eps: real, radicand: real, reduced: real)
    requires norm > 0.0 && norm * norm == NormSq(d) && radius > 0.0 && 0.0 <= eps && Unscaled(norm, radius, eps)
    requires radicand == radius * radius - norm * norm
    requires radicand >= 0.0 ==> reduced >= 0.0 && reduced * reduced == radicand
    ensures SplitOf(d, d, true, reduced, radius, eps)
  {
    UnscaledIffShort(d, norm, radius, eps);
    if eps <= 0.2 {
      UnscaledBound(norm, radius, eps);
      RootOrder(norm, radius);
    }
  }

  lemma ScaledSplit(d: Vector, norm: real, radius: real, eps: real, alpha: real, root: real)
    requires norm > 0.0 && norm * norm == NormSq(d) && radius > 0.0 && 0.0 <= eps && !Unscaled(norm, radius, eps)
    requires alpha == Min(NORM_RATIO * radius / norm, 1.0)
    requires root >= 0.0 && root * root == 1.0 - NORM_RATIO * NORM_RATIO
    ensures 0.0 < alpha < 1.0 && SplitOf(d, Scale(alpha, d), false, radius * root, radius, eps)
  {
    var q := NORM_RATIO * radius / norm;
    QuotientPositive(NORM_RATIO * radius, norm, q);
    RatioBelow(q, eps);
    NormSqScale(alpha, d);
    UnscaledIffShort(d, norm, radius, eps);
    SplitIdentity(norm, radius, alpha, root, NormSq(d), NormSq(Scale(alpha, d)));
    RootOfRest(root);
  }

  lemma RootOfRest(root: real)
    requires root >= 0.0 && root * root == 1.0 - NORM_RATIO * NORM_RATIO
    ensures root == 0.6
  {
    var w := (root - 0.6) * (root + 0.6);
    assert w == 0.0;
    if root != 0.6 { ProductSign(root - 0.6, root + 0.6, w); ProductSign(0.6 - root, root + 0.6, -w); }
  }

  lemma RatioBelow(q: real, eps: real)
    requires q > 0.0 && !IsEq(Min(q, 1.0), 1.0, eps) && eps >= 0.0
    ensures q < 1.0
  {
  }

  lemma SplitIdentity(norm: real, radius: real, alpha: real, root: real, normsq: real, scaled: real)
    requires alpha * norm == NORM_RATIO * radius && norm * norm == normsq && scaled == alpha * alpha * normsq
    requires root >= 0.0 && root * root == 1.0 - NORM_RATIO * NORM_RATIO && radius > 0.0
    ensures radius * root >= 0.0 && scaled + (radius * root) * (radius * root) == radius * radius
    ensures scaled == 0.64 * (radius * radius) <= radius * radius
  {
    var w, v := alpha * norm, radius * root;
    ScaleLe(radius, 0.0, root);
    assert scaled == w * w by { assert alpha * alpha * (norm * norm) == (alpha * norm) * (alpha * norm); }
    assert v * v == (radius * radius) * (root * root);
    assert w * w == (NORM_RATIO * NORM_RATIO) * (radius * radius);
  }

  // ----- the object

  class WorkingStep {
    var problem: Problem
    var eps: real
    var initialRhs: Vec
    var initialDirection: Vec
    var initialConsVal: Vec
    var violatedMultipliers: Vec
    var reducedTrustRadius: real
    var initialStepInWorkingSet: bool
    const stepDirection: Direction
    const denseCache: array<real>

    ghost predicate Valid()
      reads this, stepDirection
    {
      && problem.Shaped() && 0.0 <= eps && initialDirection.Valid() && initialDirection.dim == problem.NumVars()
      && stepDirection.Valid() && stepDirection.primal.dim == problem.NumVars()
      && stepDirection.consJac.dim == problem.NumCons()
      && problem.NumVars() <= denseCache.Length && problem.NumCons() <= denseCache.Length
    }

    /** sleqp_working_step_create */
    constructor (problem: Problem, eps: real)
      requires problem.Shaped() && 0.0 <= eps
      ensures Valid() && this.problem == problem && this.eps == eps && fresh(stepDirection) && fresh(denseCache)
    {
      var n, m := problem.NumVars(), problem.NumCons();
      this.problem, this.eps := problem, eps;
      initialRhs, initialDirection := Empty(m), Empty(n);
      initialConsVal, violatedMultipliers := Empty(m), Empty(m);
      reducedTrustRadius, initialStepInWorkingSet := 0.0, true;
      stepDirection := new Direction(n, m);
      denseCache := new real[if n < m then m else n];
    }

    /** compute_initial_step without fill_initial_step: the factor is one exactly when the step stays in the working
        set's affine space. */
    method SplitTrustRegion(trustRadius: real, sqrt: real -> real) returns (ghost factor: real)
      requires Valid() && trustRadius > 0.0 && IsSqrt(sqrt)
      modifies this`reducedTrustRadius, this`initialStepInWorkingSet, stepDirection`primal
      ensures IsSplit(factor, trustRadius)
    {
      hide IsSplit, Vec.At, NormSq, Scale, SplitOf, IsSqrt, Unscaled;
      assert initialDirection.Valid();
      var initialStep := initialDirection;
      var normsq := NormSquared(initialDirection);
      ghost var d := initialDirection.Dense();
      NormSqNonneg(d);
      SqrtAt(sqrt, normsq);
      var initialNorm := sqrt(normsq);
      initialStepInWorkingSet := true;
      if initialNorm == 0.0 {
        factor := 1.0;
        reducedTrustRadius := trustRadius;
        ZeroSplit(d, normsq, initialNorm, trustRadius, eps);
      } else {
        if Unscaled(initialNorm, trustRadius, eps) {
          factor := 1.0;
          reducedTrustRadius := RemainingRadius(initialNorm, trustRadius, eps, sqrt, d);
        } else {
          initialStepInWorkingSet := false;
          var alpha;
          alpha, reducedTrustRadius := ScaledRadius(initialNorm, trustRadius, eps, sqrt, d);
          factor := alpha;
          initialStep := ScaleBy(initialStep, alpha);
        }
      }
      ScaleOne(d);
      stepDirection.primal := initialStep;
      assert IsSplit(factor, trustRadius) by { SplitFrom(factor, trustRadius); }
    }

    /** What the split leaves behind. */
    ghost predicate IsSplit(factor: real, trustRadius: real)
      reads this, stepDirection
    {
      && Valid() && 0.0 < factor <= 1.0 && (initialStepInWorkingSet <==> factor == 1.0)
      && stepDirection.primal.Dense() == Scale(factor, initialDirection.Dense())
      && SplitOf(initialDirection.Dense(), stepDirection.primal.Dense(), initialStepInWorkingSet, reducedTrustRadius,
                 trustRadius, eps)
    }

    lemma SplitFrom(factor: real, trustRadius: real)
      requires Valid() && 0.0 < factor <= 1.0 && (initialStepInWorkingSet <==> factor == 1.0)
      requires stepDirection.primal.Dense() == Scale(factor, initialDirection.Dense())
      requires SplitOf(initialDirection.Dense(), stepDirection.primal.Dense(), initialStepInWorkingSet,
                       reducedTrustRadius, trustRadius, eps)
      ensures IsSplit(factor, trustRadius)
    {
    }

    /** fill_initial_step: all parts of the step but its Hessian product */
    method FillInitialStep(iterate: EvaluatedPoint)
      requires Valid() && iterate.Fits(problem)
      modifies stepDirection`objGrad, stepDirection`consJac, denseCache
      ensures Valid() && stepDirection.objGrad == Dot(iterate.objGrad.Dense(), stepDirection.primal.Dense())
      ensures stepDirection.consJac.Dense() == MatVec(iterate.consJac.Dense(), stepDirection.primal.Dense())
    {
      hide Vec.At, Dot, MatVec, Mat.Dense;
      DotSymmetric(stepDirection.primal.Dense(), iterate.objGrad.Dense());
      stepDirection.objGrad := DotProduct(stepDirection.primal, iterate.objGrad);
      MultVec(iterate.consJac, stepDirection.primal, denseCache);
      stepDirection.consJac := SetFromRaw(denseCache, problem.NumCons());
    }

    /** compute_initial_direction: the least-norm step onto the active bounds */
    method ComputeInitialDirection(iterate: EvaluatedPoint, s: Sets, jacobian: ReducedAugJac, ghost A: Matrix)
      requires Valid() && iterate.Fits(problem) && s.WellFormed() && InOrder(s)
      requires s.NumVars() == problem.NumVars() == jacobian.numVars && s.NumCons() == problem.NumCons()
      requires jacobian.CanSolve(A) && |A| == s.Size()
      modifies this`initialRhs, this`initialDirection, jacobian`rhs, jacobian.fact`solution, jacobian.cache
      ensures Valid() && initialRhs.Valid() && IsInitialRhs(initialRhs.Dense(), s, problem, iterate)
      ensures IsMatrix(A, |A|, problem.NumVars()) && IsMinNorm(A, initialRhs.Dense(), initialDirection.Dense())
    {
      hide IsInitialRhs, IsMinNorm, InOrder, Sets.WellFormed, Vec.At, Problem.Shaped, ReducedAugJac.CanSolve,
           EvaluatedPoint.Fits;
      initialRhs := ComputeInitialRhs(s, problem, iterate);
      initialDirection := jacobian.SolveMinNorm(initialRhs, A);
    }

    /** The last part of sleqp_working_step_set_iterate: constraint values behind the step, and the multipliers of the
        violated constraints outside the working set. */
    method ComputeViolatedMultipliers(iterate: EvaluatedPoint, s: Sets)
      requires Valid() && problem.Valid() && iterate.Fits(problem) && s.NumCons() == problem.NumCons()
      modifies this`initialConsVal, this`violatedMultipliers
      ensures Valid() && initialConsVal.Valid() && violatedMultipliers.Valid()
      ensures initialConsVal.dim == violatedMultipliers.dim == problem.NumCons()
      ensures initialConsVal.Dense() == LinComb(1.0, iterate.consVal.Dense(), 1.0, stepDirection.consJac.Dense())
      ensures forall i :: 0 <= i < problem.NumCons() ==>
        violatedMultipliers.At(i)
        == if s.consStates[i] != Inactive then 0.0
           else Sign(SignedResidual(initialConsVal.At(i), problem.consLb.At(i), problem.consUb.At(i)))
    {
      hide Vec.At;
      initialConsVal := Add(iterate.consVal, stepDirection.consJac);
      violatedMultipliers := ViolatedMultipliers(problem, initialConsVal, Some(s.consStates));
    }
  }

  /** What remains of the trust region next to an unscaled step. */
  method RemainingRadius(norm: real, radius: real, eps: real, sqrt: real -> real, ghost d: Vector)
    returns (reduced: real)
    requires norm > 0.0 && norm * norm == NormSq(d) && radius > 0.0 && 0.0 <= eps && Unscaled(norm, radius, eps)
    requires IsSqrt(sqrt)
    ensures SplitOf(d, d, true, reduced, radius, eps)
  {
    hide NormSq, SplitOf, IsSqrt, Unscaled;
    var radicand := radius * radius - norm * norm;
    if radicand >= 0.0 { SqrtAt(sqrt, radicand); }
    reduced := sqrt(radicand);
    ShortSplit(d, norm, radius, eps, radicand, reduced);
  }

  /** The factor of a step that is too long, and what then remains of the trust region. */
  method ScaledRadius(norm: real, radius: real, eps: real, sqrt: real -> real, ghost d: Vector)
    returns (alpha: real, reduced: real)
    requires norm > 0.0 && norm * norm == NormSq(d) && radius > 0.0 && 0.0 <= eps && !Unscaled(norm, radius, eps)
    requires IsSqrt(sqrt)
    ensures 0.0 < alpha < 1.0 && SplitOf(d, Scale(alpha, d), false, reduced, radius, eps)
  {
    hide NormSq, SplitOf, IsSqrt, Unscaled, Scale;
    alpha := Min(NORM_RATIO * radius / norm, 1.0);
    var root := sqrt(1.0 - NORM_RATIO * NORM_RATIO);
    SqrtAt(sqrt, 1.0 - NORM_RATIO * NORM_RATIO);
    reduced := radius * root;
    ScaledSplit(d, norm, radius, eps, alpha, root);
  }

  lemma SqrtAt(sqrt: real -> real, a: real)
    requires IsSqrt(sqrt) && a >= 0.0
    ensures sqrt(a) >= 0.0 && sqrt(a) * sqrt(a) == a
  {
  }

  lemma ScaleOne(d: Vector)
    ensures Scale(1.0, d) == d
  {
  }

  lemma ZeroSplit(d: Vector, normsq: real, norm: real, radius: real, eps: real)
    requires normsq == NormSq(d) && norm == 0.0 && norm * norm == normsq && radius > 0.0
    ensures SplitOf(d, d, true, radius, radius, eps)
  {
  }
}
