/** src/main/iterate.c: an iterate, its optimality residuals, and what they bound. */
module Optimality {
  import opened LinearAlgebra
  import opened SparseVec
  import opened SparseMat
  import opened Problems
  import opened Feasibility

  // ----- the values held by an iterate

  datatype State = State(
    primal: Vec, objVal: real, objGrad: Vec, consVal: Vec, consJac: Mat, consDual: Vec, varsDual: Vec)
  {
    ghost predicate Valid()
    {
      && primal.Valid() && objGrad.Valid() && consVal.Valid() && consJac.Valid() && consDual.Valid() && varsDual.Valid()
      && primal.dim == objGrad.dim == varsDual.dim == consJac.numCols
      && consVal.dim == consDual.dim == consJac.numRows
    }

    ghost predicate Fits(problem: Problem)
    {
      Valid() && problem.Valid() && primal.dim == problem.NumVars() && consVal.dim == problem.NumCons()
    }
  }

  // ----- residuals, densely

  /** The gradient of the Lagrangian: J^T*y + z + g. */
  ghost function Stationarity(s: State): (r: Vector)
    requires s.Valid()
    ensures |r| == s.primal.dim
  {
    Sum(Sum(TransVec(s.consJac.Dense(), s.consDual.Dense(), s.primal.dim), s.varsDual.Dense()), s.objGrad.Dense())
  }

  function Sum(x: Vector, y: Vector): (z: Vector)
    requires |x| == |y|
    ensures |z| == |x|
  {
    seq(|x|, i requires 0 <= i < |x| => x[i] + y[i])
  }

  /** The slackness residual of one value v in [l, u] with multiplier d: positive multipliers belong to the upper
      bound, negative ones to the lower bound. */
  function Slack(v: real, l: real, u: real, d: real): real
  {
    if d >= 0.0 then Max(u - v, 0.0) * d else Max(v - l, 0.0) * d
  }

  function Slacks(v: Vector, l: Vector, u: Vector, d: Vector): (r: Vector)
    requires |v| == |l| == |u| == |d|
    ensures |r| == |v|
  {
    seq(|v|, i requires 0 <= i < |v| => Slack(v[i], l[i], u[i], d[i]))
  }

  /** The largest absolute value of the first k entries. */
  function Largest(x: Vector, k: nat): (r: real)
    requires k <= |x|
    ensures r >= 0.0 && forall i :: 0 <= i < k ==> Abs(x[i]) <= r
  {
    if k == 0 then 0.0 else Max(Largest(x, k - 1), Abs(x[k - 1]))
  }

  function AbsSum(x: Vector): real
  {
    SumTo(seq(|x|, i requires 0 <= i < |x| => Abs(x[i])), |x|)
  }

  ghost function ConsSlacks(problem: Problem, s: State): (r: Vector)
    requires s.Fits(problem)
    ensures |r| == s.consVal.dim
  {
    Slacks(s.consVal.Dense(), problem.consLb.Dense(), problem.consUb.Dense(), s.consDual.Dense())
  }

  ghost function VarsSlacks(problem: Problem, s: State): (r: Vector)
    requires s.Fits(problem)
    ensures |r| == s.primal.dim
  {
    Slacks(s.primal.Dense(), problem.varsLb.Dense(), problem.varsUb.Dense(), s.varsDual.Dense())
  }

  lemma {:induction false} LargestSkip(x: Vector, j: nat, k: nat)
    requires j <= k <= |x| && forall i :: j <= i < k ==> x[i] == 0.0
    ensures Largest(x, k) == Largest(x, j)
  {
    if j < k { LargestSkip(x, j, k - 1); }
  }

  lemma LargestAdvance(x: Vector, j: nat, i: nat)
    requires j <= i < |x| && forall p :: j <= p < i ==> x[p] == 0.0
    ensures Largest(x, i + 1) == Max(Largest(x, j), Abs(x[i]))
  {
    LargestSkip(x, j, i);
  }

  /** The largest absolute value is attained, so it vanishes only together with all entries. */
  lemma {:induction false} LargestAttained(x: Vector, k: nat)
    requires k <= |x|
    ensures Largest(x, k) == 0.0 || exists i :: 0 <= i < k && Largest(x, k) == Abs(x[i])
    ensures Largest(x, k) == 0.0 <==> forall i :: 0 <= i < k ==> x[i] == 0.0
  {
    if k > 0 {
      LargestAttained(x, k - 1);
      assert Abs(x[k - 1]) == 0.0 <==> x[k - 1] == 0.0;
    }
  }

  // ----- what the residuals bound

  /** A multiplier times a feasible change of its value is at most the absolute slackness residual. */
  lemma SlackBoundsChange(v: real, l: real, u: real, d: real, p: real)
    requires l <= v + p <= u
    ensures d * p <= Abs(Slack(v, l, u, d))
  {
    if d >= 0.0 {
      ScaleLe(d, p, Max(u - v, 0.0));
      ScaleLe(d, 0.0, Max(u - v, 0.0));
    } else {
      ScaleLe(-d, -p, Max(v - l, 0.0));
      ScaleLe(-d, 0.0, Max(v - l, 0.0));
    }
  }

  /** The bound is attained: the residual is the gain of the change p to the bound the multiplier belongs to, and zero
      where the value has passed that bound. Inside the bounds it is thus the largest gain of a feasible change. */
  lemma SlackAttained(v: real, l: real, u: real, d: real) returns (p: real)
    ensures Times(d, p) == Abs(Slack(v, l, u, d)) && Slack(v, l, u, d) == Times(Abs(p), d)
    ensures d >= 0.0 ==> if v <= u then v + p == u else p == 0.0
    ensures d < 0.0 ==> if l <= v then v + p == l else p == 0.0
    ensures l <= v <= u ==> l <= v + p <= u
  {
    p := if d >= 0.0 then Max(u - v, 0.0) else -Max(v - l, 0.0);
    ProductSign(d, p, d * p);
    ProductSign(-d, -p, d * p);
  }

  lemma {:induction false} SlacksBoundChanges(v: Vector, l: Vector, u: Vector, d: Vector, p: Vector, k: nat)
    requires |v| == |l| == |u| == |d| == |p| && k <= |v|
    requires forall i :: 0 <= i < |v| ==> l[i] <= v[i] + p[i] <= u[i]
    ensures DotTo(d, p, k)
         <= SumTo(seq(|v|, i requires 0 <= i < |v| => Abs(Slacks(v, l, u, d)[i])), k)
  {
    if k > 0 {
      SlacksBoundChanges(v, l, u, d, p, k - 1);
      SlackBoundsChange(v[k - 1], l[k - 1], u[k - 1], d[k - 1], p[k - 1]);
    }
  }

  /** A step to a point within all bounds, with the constraints linearised. */
  ghost predicate IsLinearStep(problem: Problem, s: State, p: Vector)
    requires s.Fits(problem)
  {
    && |p| == s.primal.dim
    && (forall j :: 0 <= j < |p| ==> problem.varsLb.At(j) <= s.primal.At(j) + p[j] <= problem.varsUb.At(j))
    && (forall i :: 0 <= i < s.consVal.dim ==>
          problem.consLb.At(i) <= s.consVal.At(i) + MatVec(s.consJac.Dense(), p)[i] <= problem.consUb.At(i))
  }

  lemma StepLengths(problem: Problem, s: State, p: Vector)
    requires s.Fits(problem) && IsLinearStep(problem, s, p)
    ensures |p| == s.primal.dim
  {
  }

  /** A feasible step of the linearised problem cannot lower the objective by more than the residuals allow. */
  lemma ResidualsBoundDecrease(problem: Problem, s: State, p: Vector)
    requires s.Fits(problem) && IsLinearStep(problem, s, p)
    ensures Dot(s.objGrad.Dense(), p)
         >= Dot(Stationarity(s), p) - AbsSum(ConsSlacks(problem, s)) - AbsSum(VarsSlacks(problem, s))
  {
    var J, y, z, g := s.consJac.Dense(), s.consDual.Dense(), s.varsDual.Dense(), s.objGrad.Dense();
    LagrangianAlong(J, y, z, g, p);
    SlacksBoundChanges(s.consVal.Dense(), problem.consLb.Dense(), problem.consUb.Dense(), y, MatVec(J, p), |y|);
    SlacksBoundChanges(s.primal.Dense(), problem.varsLb.Dense(), problem.varsUb.Dense(), z, p, |z|);
  }

  lemma LagrangianAlong(J: Matrix, y: Vector, z: Vector, g: Vector, p: Vector)
    requires IsMatrix(J, |J|, |p|) && |y| == |J| && |z| == |g| == |p|
    ensures Dot(Sum(Sum(TransVec(J, y, |p|), z), g), p) == Dot(y, MatVec(J, p)) + Dot(z, p) + Dot(g, p)
  {
    var a := TransVec(J, y, |p|);
    assert Sum(a, z) == LinComb(1.0, a, 1.0, z);
    assert Sum(Sum(a, z), g) == LinComb(1.0, Sum(a, z), 1.0, g);
    DotLinear(1.0, a, 1.0, z, p);
    DotLinear(1.0, Sum(a, z), 1.0, g, p);
    Adjoint(J, p, y);
  }

  /** The stationarity residuals are the gradient of the Lagrangian: along any p they give the slope of the objective
      and of the constraints and bounds, weighted by their multipliers. */
  lemma StationarityAlong(s: State, p: Vector)
    requires s.Valid() && |p| == s.primal.dim
    ensures Dot(Stationarity(s), p)
         == Dot(s.objGrad.Dense(), p) + Dot(s.consDual.Dense(), MatVec(s.consJac.Dense(), p))
            + Dot(s.varsDual.Dense(), p)
  {
    LagrangianAlong(s.consJac.Dense(), s.consDual.Dense(), s.varsDual.Dense(), s.objGrad.Dense(), p);
  }

  /** All three residuals vanish. */
  ghost predicate IsKkt(problem: Problem, s: State)
    requires s.Fits(problem)
  {
    && MaxTo(s.consVal.Dense(), problem.consLb.Dense(), problem.consUb.Dense(), s.consVal.dim) == 0.0
    && Largest(Stationarity(s), s.primal.dim) == 0.0
    && Largest(ConsSlacks(problem, s), s.consVal.dim) == 0.0
    && Largest(VarsSlacks(problem, s), s.primal.dim) == 0.0
  }

  /** Where all residuals vanish, no feasible step of the linearised problem decreases the objective. */
  lemma KktIsOptimal(problem: Problem, s: State, p: Vector)
    requires s.Fits(problem) && IsKkt(problem, s) && IsLinearStep(problem, s, p)
    ensures Dot(s.objGrad.Dense(), p) >= 0.0
  {
    ResidualsBoundDecrease(problem, s, p);
    LargestAttained(Stationarity(s), s.primal.dim);
    DotToZero(Stationarity(s), p, |p|);
    AbsSumZero(ConsSlacks(problem, s));
    AbsSumZero(VarsSlacks(problem, s));
  }

  lemma AbsSumZero(x: Vector)
    requires Largest(x, |x|) == 0.0
    ensures AbsSum(x) == 0.0
  {
    LargestAttained(x, |x|);
    var a := seq(|x|, i requires 0 <= i < |x| => Abs(x[i]));
    SumToSkip(a, 0, |x|);
  }

  // ----- the loops

  /** slack_residuum: the merge ends when the multipliers, or all three other vectors, are exhausted */
  method SlackResiduum(v: Vec, lb: Vec, ub: Vec, d: Vec) returns (residuum: real)
    requires v.Valid() && lb.Valid() && ub.Valid() && d.Valid() && v.dim == lb.dim == ub.dim == d.dim
    ensures residuum == Largest(Slacks(v.Dense(), lb.Dense(), ub.Dense(), d.Dense()), v.dim)
  {
    hide Vec.At, Slack, Abs, Max;
    ghost var r := Slacks(v.Dense(), lb.Dense(), ub.Dense(), d.Dense());
    residuum := 0.0;
    var kv, kl, ku, kd := 0, 0, 0, 0;
    ghost var j := 0;
    while (kv < |v.indices| || kl < |lb.indices| || ku < |ub.indices|) && kd < |d.indices|
      invariant 0 <= j <= v.dim && v.Cursor(kv, j) && lb.Cursor(kl, j) && ub.Cursor(ku, j) && d.Cursor(kd, j)
      invariant residuum == Largest(r, j)
      decreases |v.indices| - kv + |lb.indices| - kl + |ub.indices| - ku + |d.indices| - kd
    {
      var idx, vVal, lbVal, ubVal, dVal;
      idx, vVal, lbVal, ubVal, dVal, kv, kl, ku, kd := Read4(v, lb, ub, d, kv, kl, ku, kd, j);
      forall i | j <= i < idx ensures r[i] == 0.0 { SlackVanishes(v.At(i), lb.At(i), ub.At(i), d.At(i)); }
      LargestAdvance(r, j, idx);
      var current := Slack(vVal, lbVal, ubVal, dVal);
      residuum := Max(residuum, Abs(current));
      j := idx + 1;
    }
    SlackTail(v, lb, ub, d, kv, kl, ku, kd, j);
    LargestSkip(r, j, v.dim);
  }

  /** Past the end of the merge every slackness residual is zero. */
  lemma SlackTail(v: Vec, lb: Vec, ub: Vec, d: Vec, kv: int, kl: int, ku: int, kd: int, j: nat)
    requires v.Valid() && lb.Valid() && ub.Valid() && d.Valid() && v.dim == lb.dim == ub.dim == d.dim && j <= v.dim
    requires v.Cursor(kv, j) && lb.Cursor(kl, j) && ub.Cursor(ku, j) && d.Cursor(kd, j)
    requires (kv == |v.indices| && kl == |lb.indices| && ku == |ub.indices|) || kd == |d.indices|
    ensures forall i :: j <= i < v.dim ==> Slack(v.At(i), lb.At(i), ub.At(i), d.At(i)) == 0.0
  {
    hide Vec.At, Slack;
    if kd == |d.indices| {
      CursorEnd(d, j);
      forall i | j <= i < v.dim ensures Slack(v.At(i), lb.At(i), ub.At(i), d.At(i)) == 0.0 {
        SlackVanishes(v.At(i), lb.At(i), ub.At(i), d.At(i));
      }
    } else {
      CursorEnd(v, j);
      CursorEnd(lb, j);
      CursorEnd(ub, j);
      forall i | j <= i < v.dim ensures Slack(v.At(i), lb.At(i), ub.At(i), d.At(i)) == 0.0 {
        SlackVanishes(v.At(i), lb.At(i), ub.At(i), d.At(i));
      }
    }
  }

  lemma SlackVanishes(v: real, l: real, u: real, d: real)
    requires d == 0.0 || (v == 0.0 && l == 0.0 && u == 0.0)
    ensures Slack(v, l, u, d) == 0.0
  {
  }

  /** slack_residuals with zero_eps = 0 */
  method SlackResiduals(v: Vec, lb: Vec, ub: Vec, d: Vec) returns (residuals: Vec)
    requires v.Valid() && lb.Valid() && ub.Valid() && d.Valid() && v.dim == lb.dim == ub.dim == d.dim
    ensures residuals.Valid() && residuals.dim == v.dim
    ensures residuals.Dense() == Slacks(v.Dense(), lb.Dense(), ub.Dense(), d.Dense())
  {
    hide Vec.At, Slack;
    ghost var r := Slacks(v.Dense(), lb.Dense(), ub.Dense(), d.Dense());
    residuals := Empty(v.dim);
    var kv, kl, ku, kd := 0, 0, 0, 0;
    ghost var j := 0;
    while (kv < |v.indices| || kl < |lb.indices| || ku < |ub.indices|) && kd < |d.indices|
      invariant 0 <= j <= v.dim && v.Cursor(kv, j) && lb.Cursor(kl, j) && ub.Cursor(ku, j) && d.Cursor(kd, j)
      invariant residuals.Valid() && residuals.dim == v.dim
      invariant forall p :: 0 <= p < |residuals.indices| ==> residuals.indices[p] < j
      invariant forall i :: 0 <= i < j ==> residuals.At(i) == r[i]
      invariant forall i :: j <= i ==> residuals.At(i) == 0.0
      decreases |v.indices| - kv + |lb.indices| - kl + |ub.indices| - ku + |d.indices| - kd
    {
      var idx, vVal, lbVal, ubVal, dVal;
      idx, vVal, lbVal, ubVal, dVal, kv, kl, ku, kd := Read4(v, lb, ub, d, kv, kl, ku, kd, j);
      var current := Slack(vVal, lbVal, ubVal, dVal);
      forall i | j <= i < idx ensures r[i] == 0.0 { SlackVanishes(v.At(i), lb.At(i), ub.At(i), d.At(i)); }
      if current != 0.0 { residuals := Push(residuals, idx, current); }
      j := idx + 1;
    }
    SlackTail(v, lb, ub, d, kv, kl, ku, kd, j);
    assert residuals.Dense() == r;
  }

  /** One of the loops that add a sparse vector to the dense cache. */
  method AddStored(v: Vec, cache: array<real>)
    requires v.Valid() && v.dim <= cache.Length
    modifies cache
    ensures cache[..v.dim] == Sum(old(cache[..v.dim]), v.Dense())
  {
    hide Vec.At;
    ghost var before := cache[..v.dim];
    ghost var j := 0;
    for k := 0 to |v.indices|
      invariant 0 <= j <= v.dim && v.Cursor(k, j)
      invariant forall i :: 0 <= i < v.dim ==> cache[i] == if i < j then before[i] + v.At(i) else before[i]
    {
      var i := v.indices[k];
      CursorSkip(v, k, j, i);
      CursorAt(v, k, i);
      cache[i] := cache[i] + v.data[k];
      j := i + 1;
    }
    CursorEnd(v, j);
    assert cache[..v.dim] == Sum(before, v.Dense());
  }

  /** The loop over the dense cache that sleqp_iterate_stationarity_residuum ends with. */
  method LargestStored(cache: array<real>, n: nat) returns (residuum: real)
    requires n <= cache.Length
    ensures residuum == Largest(cache[..n], n)
  {
    ghost var r := cache[..n];
    residuum := 0.0;
    for j := 0 to n
      invariant residuum == Largest(r, j)
    {
      residuum := Max(residuum, Abs(cache[j]));
    }
  }

  class Iterate {
    var primal: Vec
    var objVal: real
    var objGrad: Vec
    var consVal: Vec
    var consJac: Mat
    var consDual: Vec
    var varsDual: Vec

    function Contents(): State
      reads this
    {
      State(primal, objVal, objGrad, consVal, consJac, consDual, varsDual)
    }

    constructor (s: State)
      ensures Contents() == s
    {
      primal, objVal, objGrad, consVal := s.primal, s.objVal, s.objGrad, s.consVal;
      consJac, consDual, varsDual := s.consJac, s.consDual, s.varsDual;
    }

    /** write_stationarity_resiudals_to_cache */
    method WriteStationarityResiduals(cache: array<real>)
      requires Contents().Valid() && primal.dim <= cache.Length
      modifies cache
      ensures cache[..primal.dim] == Stationarity(Contents())
    {
      hide Mat.Valid, Vec.Valid, TransVec, Vec.At, Mat.Dense;
      ghost var z := TransVec(consJac.Dense(), consDual.Dense(), primal.dim);
      for j := 0 to primal.dim
        invariant forall i :: 0 <= i < j ==> cache[i] == z[i]
      {
        var column := ReadColumn(consJac, j);
        var sum := DotProduct(column, consDual);
        TransColumn(consJac, consDual.Dense(), j);
        cache[j] := sum;
      }
      assert cache[..primal.dim] == z;
      AddStored(varsDual, cache);
      AddStored(objGrad, cache);
    }

    /** sleqp_iterate_stationarity_residuals */
    method StationarityResiduals(cache: array<real>) returns (residuals: Vec)
      requires Contents().Valid() && primal.dim <= cache.Length
      modifies cache
      ensures residuals.Valid() && residuals.dim == primal.dim && residuals.Dense() == Stationarity(Contents())
    {
      WriteStationarityResiduals(cache);
      residuals := SetFromRaw(cache, primal.dim);
    }

    /** sleqp_iterate_stationarity_residuum */
    method StationarityResiduum(cache: array<real>) returns (residuum: real)
      requires Contents().Valid() && primal.dim <= cache.Length
      modifies cache
      ensures residuum == Largest(Stationarity(Contents()), primal.dim)
    {
      hide Stationarity, Largest;
      WriteStationarityResiduals(cache);
      residuum := LargestStored(cache, primal.dim);
    }

    /** sleqp_iterate_slackness_residuum */
    method SlacknessResiduum(problem: Problem) returns (residuum: real)
      requires Contents().Fits(problem)
      ensures residuum == Max(Largest(ConsSlacks(problem, Contents()), consVal.dim),
                              Largest(VarsSlacks(problem, Contents()), primal.dim))
    {
      hide Slacks, Largest, Vec.At;
      residuum := 0.0;
      var current := SlackResiduum(consVal, problem.consLb, problem.consUb, consDual);
      residuum := Max(residuum, current);
      current := SlackResiduum(primal, problem.varsLb, problem.varsUb, varsDual);
      residuum := Max(residuum, current);
    }

    /** sleqp_iterate_feasibility_residuum */
    method FeasibilityResiduum(problem: Problem) returns (residuum: real)
      requires Contents().Fits(problem)
      ensures residuum == MaxTo(consVal.Dense(), problem.consLb.Dense(), problem.consUb.Dense(), consVal.dim)
    {
      residuum := MaxViolation(problem, consVal);
    }
  }

  /** sleqp_iterate_is_optimal: the feasibility tolerance is inclusive, the other two are not */
  predicate IsOptimal(feasibility: real, slackness: real, stationarity: real, feasEps: real, slackEps: real,
                      statEps: real)
  {
    if !(feasibility <= feasEps) then false
    else if stationarity >= statEps then false
    else if slackness >= slackEps then false
    else true
  }

  /** The constraints hold and the residuals vanish up to the tolerances, entry by entry. */
  ghost predicate WithinTolerances(problem: Problem, s: State, feasEps: real, slackEps: real, statEps: real)
    requires s.Fits(problem)
  {
    && feasEps >= 0.0 && slackEps > 0.0 && statEps > 0.0
    && (forall i :: 0 <= i < s.consVal.dim ==>
          problem.consLb.At(i) - feasEps <= s.consVal.At(i) <= problem.consUb.At(i) + feasEps)
    && (forall j :: 0 <= j < s.primal.dim ==> Abs(Stationarity(s)[j]) < statEps)
    && (forall i :: 0 <= i < s.consVal.dim ==> Abs(ConsSlacks(problem, s)[i]) < slackEps)
    && (forall j :: 0 <= j < s.primal.dim ==> Abs(VarsSlacks(problem, s)[j]) < slackEps)
  }

  /** Exactly the iterates within the tolerances are accepted as optimal. */
  lemma AcceptedIff(problem: Problem, s: State, feasEps: real, slackEps: real, statEps: real)
    requires s.Fits(problem)
    ensures IsOptimal(
        MaxTo(s.consVal.Dense(), problem.consLb.Dense(), problem.consUb.Dense(), s.consVal.dim),
        Max(Largest(ConsSlacks(problem, s), s.consVal.dim), Largest(VarsSlacks(problem, s), s.primal.dim)),
        Largest(Stationarity(s), s.primal.dim), feasEps, slackEps, statEps)
      <==> WithinTolerances(problem, s, feasEps, slackEps, statEps)
  {
    hide Stationarity, ConsSlacks, VarsSlacks, Vec.At, Largest, Abs;
    LargestBelow(Stationarity(s), s.primal.dim, statEps);
    LargestBelow(ConsSlacks(problem, s), s.consVal.dim, slackEps);
    LargestBelow(VarsSlacks(problem, s), s.primal.dim, slackEps);
    ViolationWithin(problem, s, feasEps);
  }

  lemma {:induction false} LargestBelow(x: Vector, k: nat, bound: real)
    requires k <= |x|
    ensures Largest(x, k) < bound <==> 0.0 < bound && forall i :: 0 <= i < k ==> Abs(x[i]) < bound
  {
    hide Abs;
    if k > 0 { LargestBelow(x, k - 1, bound); }
  }

  lemma ViolationWithin(problem: Problem, s: State, feasEps: real)
    requires s.Fits(problem)
    ensures MaxTo(s.consVal.Dense(), problem.consLb.Dense(), problem.consUb.Dense(), s.consVal.dim) <= feasEps
       <==> 0.0 <= feasEps && forall i :: 0 <= i < s.consVal.dim ==>
              problem.consLb.At(i) - feasEps <= s.consVal.At(i) <= problem.consUb.At(i) + feasEps
  {
    hide Vec.At;
    var x, l, u := s.consVal.Dense(), problem.consLb.Dense(), problem.consUb.Dense();
    MaxWithin(x, l, u, s.consVal.dim, feasEps);
    assert forall i :: 0 <= i < s.consVal.dim ==>
      x[i] == s.consVal.At(i) && l[i] == problem.consLb.At(i) && u[i] == problem.consUb.At(i);
  }

  lemma {:induction false} MaxWithin(x: Vector, l: Vector, u: Vector, k: nat, eps: real)
    requires |x| == |l| == |u| && k <= |x| && forall i :: 0 <= i < |x| ==> l[i] <= u[i]
    ensures MaxTo(x, l, u, k) <= eps <==> 0.0 <= eps && forall i :: 0 <= i < k ==> l[i] - eps <= x[i] <= u[i] + eps
  {
    if k > 0 { MaxWithin(x, l, u, k - 1, eps); }
  }

  /** Every exact KKT point is accepted. */
  lemma KktIsAccepted(problem: Problem, s: State, feasEps: real, slackEps: real, statEps: real)
    requires s.Fits(problem) && IsKkt(problem, s) && feasEps >= 0.0 && slackEps > 0.0 && statEps > 0.0
    ensures WithinTolerances(problem, s, feasEps, slackEps, statEps)
  {
    AcceptedIff(problem, s, feasEps, slackEps, statEps);
  }

  /** At an iterate accepted as optimal, a feasible step of the linearised problem lowers the objective by at most
      the tolerances, weighted by the length of the step and the number of bounds. */
  lemma AcceptedIsNearlyOptimal(problem: Problem, s: State, p: Vector, feasEps: real, slackEps: real, statEps: real)
    requires s.Fits(problem) && IsLinearStep(problem, s, p)
    requires IsOptimal(
      MaxTo(s.consVal.Dense(), problem.consLb.Dense(), problem.consUb.Dense(), s.consVal.dim),
      Max(Largest(ConsSlacks(problem, s), s.consVal.dim), Largest(VarsSlacks(problem, s), s.primal.dim)),
      Largest(Stationarity(s), s.primal.dim), feasEps, slackEps, statEps)
    ensures Dot(s.objGrad.Dense(), p)
         >= -(statEps * AbsSum(p)) - slackEps * s.consVal.dim as real - slackEps * s.primal.dim as real
    ensures forall i :: 0 <= i < s.consVal.dim ==>
      problem.consLb.At(i) - feasEps <= s.consVal.At(i) <= problem.consUb.At(i) + feasEps
  {
    hide Stationarity, ConsSlacks, VarsSlacks, IsLinearStep, MatVec, Vec.At, Largest;
    ResidualsBoundDecrease(problem, s, p);
    assert |p| == s.primal.dim by { StepLengths(problem, s, p); }
    DotBounded(Stationarity(s), p, statEps);
    AbsSumBounded(ConsSlacks(problem, s), slackEps);
    AbsSumBounded(VarsSlacks(problem, s), slackEps);
    MaxIsLargest(s.consVal.Dense(), problem.consLb.Dense(), problem.consUb.Dense(), s.consVal.dim);
    forall i | 0 <= i < s.consVal.dim
      ensures problem.consLb.At(i) - feasEps <= s.consVal.At(i) <= problem.consUb.At(i) + feasEps
    {
      assert Abs(SignedResidual(s.consVal.Dense()[i], problem.consLb.Dense()[i], problem.consUb.Dense()[i])) <= feasEps;
    }
  }

  lemma {:induction false} DotToBounded(x: Vector, p: Vector, bound: real, k: nat)
    requires |x| == |p| && k <= |x| && forall i :: 0 <= i < |x| ==> Abs(x[i]) <= bound
    ensures DotTo(x, p, k) >= -(bound * SumTo(seq(|p|, i requires 0 <= i < |p| => Abs(p[i])), k))
  {
    hide Abs;
    if k > 0 {
      DotToBounded(x, p, bound, k - 1);
      var a := seq(|p|, i requires 0 <= i < |p| => Abs(p[i]));
      var q, r, t := x[k - 1] * p[k - 1], bound * Abs(p[k - 1]), bound * SumTo(a, k - 1);
      assert q >= -r by { ProductBounded(x[k - 1], p[k - 1], bound); }
      assert bound * SumTo(a, k) == t + r by { Distribute(bound, SumTo(a, k - 1), a[k - 1]); }
    }
  }

  lemma ProductBounded(a: real, p: real, bound: real)
    requires Abs(a) <= bound
    ensures a * p >= -(bound * Abs(p))
  {
    ScaleLe(Abs(p), a, bound);
    ScaleLe(Abs(p), -a, bound);
  }

  lemma DotBounded(x: Vector, p: Vector, bound: real)
    requires |x| == |p| && Largest(x, |x|) <= bound
    ensures Dot(x, p) >= -(bound * AbsSum(p))
  {
    DotToBounded(x, p, bound, |x|);
  }

  lemma {:induction false} SumToBounded(a: Vector, bound: real, k: nat)
    requires k <= |a| && forall i :: 0 <= i < k ==> a[i] <= bound
    ensures SumTo(a, k) <= bound * k as real
  {
    if k > 0 {
      SumToBounded(a, bound, k - 1);
      Distribute(bound, (k - 1) as real, 1.0);
    }
  }

  lemma AbsSumBounded(x: Vector, bound: real)
    requires Largest(x, |x|) <= bound
    ensures AbsSum(x) <= bound * |x| as real
  {
    SumToBounded(seq(|x|, i requires 0 <= i < |x| => Abs(x[i])), bound, |x|);
  }
}
