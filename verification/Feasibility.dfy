/** src/main/feas.c: violations and residuals of constraint values against their bounds, computed by merging
    three sparse vectors. */
module Feasibility {
  import opened LinearAlgebra
  import opened SparseVec
  import opened Problems

  // ----- dense definitions

  /** How far c lies outside [l, u], with its sign. */
  function SignedResidual(c: real, l: real, u: real): real
  {
    if c > u then c - u else if c < l then c - l else 0.0
  }

  /** The absolute residuals. */
  function Violations(c: Vector, l: Vector, u: Vector): (v: Vector)
    requires |c| == |l| == |u|
    ensures |v| == |c|
  {
    seq(|c|, i requires 0 <= i < |c| => Abs(SignedResidual(c[i], l[i], u[i])))
  }

  function Total(c: Vector, l: Vector, u: Vector): real
    requires |c| == |l| == |u|
  {
    SumTo(Violations(c, l, u), |c|)
  }

  function MaxTo(c: Vector, l: Vector, u: Vector, k: nat): real
    requires |c| == |l| == |u| && k <= |c|
  {
    if k == 0 then 0.0 else Max(MaxTo(c, l, u, k - 1), Abs(SignedResidual(c[k - 1], l[k - 1], u[k - 1])))
  }

  function Sign(a: real): real
  {
    if a > 0.0 then 1.0 else if a < 0.0 then -1.0 else 0.0
  }

  predicate Skipped(working: Option<seq<ActiveState>>, i: int)
    requires working.Some? ==> 0 <= i < |working.value|
  {
    working.Some? && working.value[i] != Inactive
  }

  ghost predicate Compatible(problem: Problem, c: Vec, working: Option<seq<ActiveState>>)
  {
    && problem.Shaped() && c.Valid() && c.dim == problem.NumCons()
    && (working.Some? ==> |working.value| == c.dim)
  }

  // ----- facts about the dense definitions

  lemma {:induction false} MaxSkip(c: Vector, l: Vector, u: Vector, j: nat, k: nat)
    requires |c| == |l| == |u| && j <= k <= |c|
    requires forall i :: j <= i < k ==> c[i] == 0.0 && l[i] == 0.0 && u[i] == 0.0
    ensures MaxTo(c, l, u, j) >= 0.0 && MaxTo(c, l, u, k) == MaxTo(c, l, u, j)
  {
    MaxNonneg(c, l, u, j);
    if j < k { MaxSkip(c, l, u, j, k - 1); }
  }

  lemma {:induction false} MaxNonneg(c: Vector, l: Vector, u: Vector, k: nat)
    requires |c| == |l| == |u| && k <= |c|
    ensures MaxTo(c, l, u, k) >= 0.0
  {
    if k > 0 { MaxNonneg(c, l, u, k - 1); }
  }

  lemma {:induction false} MaxIsLargest(c: Vector, l: Vector, u: Vector, k: nat)
    requires |c| == |l| == |u| && k <= |c|
    ensures forall i :: 0 <= i < k ==> Abs(SignedResidual(c[i], l[i], u[i])) <= MaxTo(c, l, u, k)
    ensures MaxTo(c, l, u, k) == 0.0
         || exists i :: 0 <= i < k && MaxTo(c, l, u, k) == Abs(SignedResidual(c[i], l[i], u[i]))
  {
    if k > 0 { MaxIsLargest(c, l, u, k - 1); }
  }

  /** Total and maximum violation vanish exactly at the feasible points. */
  lemma ViolationZeroIffFeasible(c: Vector, l: Vector, u: Vector)
    requires |c| == |l| == |u| && forall i :: 0 <= i < |l| ==> l[i] <= u[i]
    ensures Total(c, l, u) == 0.0 <==> forall i :: 0 <= i < |c| ==> l[i] <= c[i] <= u[i]
    ensures MaxTo(c, l, u, |c|) == 0.0 <==> forall i :: 0 <= i < |c| ==> l[i] <= c[i] <= u[i]
  {
    var v := Violations(c, l, u);
    MaxIsLargest(c, l, u, |c|);
    SumToNonneg(v, 0, |c|);
    forall i | 0 <= i < |c| ensures v[i] == 0.0 <==> l[i] <= c[i] <= u[i] {
      assert v[i] == Abs(SignedResidual(c[i], l[i], u[i]));
    }
    if MaxTo(c, l, u, |c|) == 0.0 {
      forall i | 0 <= i < |c| ensures l[i] <= c[i] <= u[i] {
        assert Abs(SignedResidual(c[i], l[i], u[i])) <= 0.0;
      }
    }
  }

  /** One step of the merge: nothing before entry i, then entry i. */
  lemma TotalAdvance(c: Vector, l: Vector, u: Vector, j: nat, i: nat)
    requires |c| == |l| == |u| && j <= i < |c|
    requires forall p :: j <= p < i ==> c[p] == 0.0 && l[p] == 0.0 && u[p] == 0.0
    ensures SumTo(Violations(c, l, u), i + 1)
         == SumTo(Violations(c, l, u), j) + Abs(SignedResidual(c[i], l[i], u[i]))
  {
    SumToSkip(Violations(c, l, u), j, i);
  }

  lemma ViolationConvexAt(a: Vector, b: Vector, l: Vector, u: Vector, s: real, t: real, i: nat)
    requires |a| == |b| == |l| == |u| && 0.0 <= s && 0.0 <= t && s + t == 1.0
    requires i < |a| && l[i] <= u[i]
    ensures Violations(LinComb(s, a, t, b), l, u)[i]
         <= LinComb(s, Violations(a, l, u), t, Violations(b, l, u))[i]
  {
    hide SignedResidual, Abs;
    var z := LinComb(s, a, t, b);
    assert z[i] == s * a[i] + t * b[i];
    assert Violations(z, l, u)[i] == Abs(SignedResidual(z[i], l[i], u[i]));
    ResidualConvex(z[i], a[i], b[i], l[i], u[i], s, t, Violations(a, l, u)[i], Violations(b, l, u)[i]);
  }

  /** The violation is convex along every segment. */
  lemma TotalConvex(a: Vector, b: Vector, l: Vector, u: Vector, s: real, t: real)
    requires |a| == |b| == |l| == |u| && 0.0 <= s && 0.0 <= t && s + t == 1.0
    requires forall i :: 0 <= i < |l| ==> l[i] <= u[i]
    ensures Total(LinComb(s, a, t, b), l, u) <= Times(s, Total(a, l, u)) + Times(t, Total(b, l, u))
  {
    hide Times, Violations;
    var x, y, z := Violations(a, l, u), Violations(b, l, u), Violations(LinComb(s, a, t, b), l, u);
    forall i | 0 <= i < |a| ensures z[i] <= LinComb(s, x, t, y)[i] {
      ViolationConvexAt(a, b, l, u, s, t, i);
    }
    SumToMonotone(z, LinComb(s, x, t, y), |a|);
    SumToLinear(s, x, t, y, |a|);
  }

  lemma ResidualWithin(m: real, l: real, u: real, r: real)
    requires l <= u && r >= 0.0 && l - r <= m <= u + r
    ensures Abs(SignedResidual(m, l, u)) <= r
  {
  }

  lemma ResidualConvex(m: real, a: real, b: real, l: real, u: real, s: real, t: real, ra: real, rb: real)
    requires l <= u && 0.0 <= s && 0.0 <= t && s + t == 1.0
    requires m == s * a + t * b
    requires ra == Abs(SignedResidual(a, l, u)) && rb == Abs(SignedResidual(b, l, u))
    ensures Abs(SignedResidual(m, l, u)) <= s * ra + t * rb
  {
    Bounded(s, t, a, b, u, ra, rb);
    Bounded(s, t, -a, -b, -l, ra, rb);
    ScaleLe(s, 0.0, ra);
    ScaleLe(t, 0.0, rb);
    assert s * -a + t * -b == -(s * a + t * b);
    ResidualWithin(m, l, u, s * ra + t * rb);
  }

  lemma Bounded(s: real, t: real, a: real, b: real, u: real, ra: real, rb: real)
    requires 0.0 <= s && 0.0 <= t && s + t == 1.0 && a <= u + ra && b <= u + rb
    ensures s * a + t * b <= u + (s * ra + t * rb)
  {
    var sa, sr, su := s * a, s * ra, s * u;
    var tb, tr, tu := t * b, t * rb, t * u;
    assert su + tu == u;
    assert sa <= su + sr by {
      ScaleLe(s, a, u + ra);
      Distribute(s, u, ra);
    }
    assert tb <= tu + tr by {
      ScaleLe(t, b, u + rb);
      Distribute(t, u, rb);
    }
  }

  /** The signs of the residuals form a subgradient of the total violation, for all perturbations. */
  lemma {:induction false} SignsAreSubgradient(c: Vector, p: Vector, l: Vector, u: Vector, m: Vector, k: nat)
    requires |c| == |p| == |l| == |u| == |m| && k <= |c|
    requires forall i :: 0 <= i < |l| ==> l[i] <= u[i]
    requires forall i :: 0 <= i < |c| ==> m[i] == Sign(SignedResidual(c[i], l[i], u[i]))
    ensures SumTo(Violations(LinComb(1.0, c, 1.0, p), l, u), k)
         >= SumTo(Violations(c, l, u), k) + DotTo(m, p, k)
  {
    if k > 0 { SignsAreSubgradient(c, p, l, u, m, k - 1); }
  }

  // ----- the merge loops

  /** sleqp_total_violation */
  method TotalViolation(problem: Problem, c: Vec) returns (total: real)
    requires Compatible(problem, c, None)
    ensures total == Total(c.Dense(), problem.consLb.Dense(), problem.consUb.Dense())
  {
    hide Vec.At;
    var lb, ub := problem.consLb, problem.consUb;
    ghost var x, l, u := c.Dense(), lb.Dense(), ub.Dense();
    ghost var v := Violations(x, l, u);
    total := 0.0;
    var kc, kl, ku := 0, 0, 0;
    ghost var j := 0;
    while kc < |c.indices| || kl < |lb.indices| || ku < |ub.indices|
      invariant 0 <= j <= c.dim && c.Cursor(kc, j) && lb.Cursor(kl, j) && ub.Cursor(ku, j)
      invariant total == SumTo(v, j)
      decreases |c.indices| - kc + |lb.indices| - kl + |ub.indices| - ku
    {
      var idx, cVal, lbVal, ubVal;
      idx, cVal, lbVal, ubVal, kc, kl, ku := Read3(c, lb, ub, kc, kl, ku, j);
      TotalAdvance(x, l, u, j, idx);
      var upper, lower := Max(cVal - ubVal, 0.0), Max(lbVal - cVal, 0.0);
      if upper > 0.0 {
        total := total + upper;
      } else if lower > 0.0 {
        total := total + lower;
      }
      j := idx + 1;
    }
    CursorEnd(c, j);
    CursorEnd(lb, j);
    CursorEnd(ub, j);
    SumToSkip(v, j, c.dim);
  }

  /** sleqp_max_violation */
  method MaxViolation(problem: Problem, c: Vec) returns (result: real)
    requires Compatible(problem, c, None)
    ensures result == MaxTo(c.Dense(), problem.consLb.Dense(), problem.consUb.Dense(), c.dim)
  {
    hide Vec.At;
    var lb, ub := problem.consLb, problem.consUb;
    ghost var x, l, u := c.Dense(), lb.Dense(), ub.Dense();
    result := 0.0;
    var kc, kl, ku := 0, 0, 0;
    ghost var j := 0;
    while kc < |c.indices| || kl < |lb.indices| || ku < |ub.indices|
      invariant 0 <= j <= c.dim && c.Cursor(kc, j) && lb.Cursor(kl, j) && ub.Cursor(ku, j)
      invariant result == MaxTo(x, l, u, j)
      decreases |c.indices| - kc + |lb.indices| - kl + |ub.indices| - ku
    {
      var idx, cVal, lbVal, ubVal;
      idx, cVal, lbVal, ubVal, kc, kl, ku := Read3(c, lb, ub, kc, kl, ku, j);
      MaxSkip(x, l, u, j, idx);
      var upper, lower := Max(cVal - ubVal, 0.0), Max(lbVal - cVal, 0.0);
      if upper > 0.0 {
        result := Max(upper, result);
      } else if lower > 0.0 {
        result := Max(lower, result);
      }
      j := idx + 1;
    }
    CursorEnd(c, j);
    CursorEnd(lb, j);
    CursorEnd(ub, j);
    MaxSkip(x, l, u, j, c.dim);
  }

  /** sleqp_violation_values */
  method ViolationValues(problem: Problem, c: Vec) returns (violation: Vec)
    requires Compatible(problem, c, None)
    ensures violation.Valid() && violation.dim == c.dim
    ensures forall i :: 0 <= i < c.dim ==>
      violation.At(i) == SignedResidual(c.At(i), problem.consLb.At(i), problem.consUb.At(i))
  {
    hide Vec.At;
    var lb, ub := problem.consLb, problem.consUb;
    violation := Empty(c.dim);
    var kc, kl, ku := 0, 0, 0;
    ghost var j := 0;
    while kc < |c.indices| || kl < |lb.indices| || ku < |ub.indices|
      invariant 0 <= j <= c.dim && c.Cursor(kc, j) && lb.Cursor(kl, j) && ub.Cursor(ku, j)
      invariant violation.Valid() && violation.dim == c.dim
      invariant forall p :: 0 <= p < |violation.indices| ==> violation.indices[p] < j
      invariant forall i :: 0 <= i < j ==> violation.At(i) == SignedResidual(c.At(i), lb.At(i), ub.At(i))
      invariant forall i :: j <= i ==> violation.At(i) == 0.0
      decreases |c.indices| - kc + |lb.indices| - kl + |ub.indices| - ku
    {
      var idx, cVal, lbVal, ubVal;
      idx, cVal, lbVal, ubVal, kc, kl, ku := Read3(c, lb, ub, kc, kl, ku, j);
      var upper, lower := Max(cVal - ubVal, 0.0), Max(lbVal - cVal, 0.0);
      if upper > 0.0 {
        violation := Push(violation, idx, cVal - ubVal);
      } else if lower > 0.0 {
        violation := Push(violation, idx, cVal - lbVal);
      }
      j := idx + 1;
    }
    CursorEnd(c, j);
    CursorEnd(lb, j);
    CursorEnd(ub, j);
  }

  /** feasibility_residuals: constraints in the working set are passed over */
  method FeasibilityResiduals(problem: Problem, c: Vec, working: Option<seq<ActiveState>>, signed: bool)
    returns (residuals: Vec)
    requires Compatible(problem, c, working) && problem.Valid()
    ensures residuals.Valid() && residuals.dim == c.dim
    ensures forall i :: 0 <= i < c.dim ==>
      var r := SignedResidual(c.At(i), problem.consLb.At(i), problem.consUb.At(i));
      residuals.At(i) == if Skipped(working, i) then 0.0 else if signed then r else Abs(r)
    ensures forall p :: 0 <= p < |residuals.data| ==> residuals.data[p] != 0.0
  {
    hide Vec.At;
    var lb, ub := problem.consLb, problem.consUb;
    residuals := Empty(c.dim);
    var kc, kl, ku := 0, 0, 0;
    ghost var j := 0;
    while kc < |c.indices| || kl < |lb.indices| || ku < |ub.indices|
      invariant 0 <= j <= c.dim && c.Cursor(kc, j) && lb.Cursor(kl, j) && ub.Cursor(ku, j)
      invariant residuals.Valid() && residuals.dim == c.dim
      invariant forall p :: 0 <= p < |residuals.indices| ==> residuals.indices[p] < j
      invariant forall p :: 0 <= p < |residuals.data| ==> residuals.data[p] != 0.0
      invariant forall i :: 0 <= i < j ==>
        var r := SignedResidual(c.At(i), lb.At(i), ub.At(i));
        residuals.At(i) == if Skipped(working, i) then 0.0 else if signed then r else Abs(r)
      invariant forall i :: j <= i ==> residuals.At(i) == 0.0
      decreases |c.indices| - kc + |lb.indices| - kl + |ub.indices| - ku
    {
      var idx, cVal, lbVal, ubVal;
      idx, cVal, lbVal, ubVal, kc, kl, ku := Read3(c, lb, ub, kc, kl, ku, j);
      j := idx + 1;
      if Skipped(working, idx) { continue; }
      assert lb.At(idx) <= ub.At(idx);
      var upper, lower := Max(cVal - ubVal, 0.0), Max(lbVal - cVal, 0.0);
      var residual := if signed then (if upper != 0.0 then upper else -lower) else Max(lower, upper);
      if residual != 0.0 { residuals := Push(residuals, idx, residual); }
    }
    CursorEnd(c, j);
    CursorEnd(lb, j);
    CursorEnd(ub, j);
  }

  /** sleqp_violated_cons_multipliers */
  method ViolatedMultipliers(problem: Problem, c: Vec, working: Option<seq<ActiveState>>)
    returns (multipliers: Vec)
    requires Compatible(problem, c, working)
    ensures multipliers.Valid() && multipliers.dim == c.dim
    ensures forall i :: 0 <= i < c.dim ==>
      multipliers.At(i) == if Skipped(working, i) then 0.0
                           else Sign(SignedResidual(c.At(i), problem.consLb.At(i), problem.consUb.At(i)))
    ensures forall p :: 0 <= p < |multipliers.data| ==> multipliers.data[p] == 1.0 || multipliers.data[p] == -1.0
  {
    hide Vec.At;
    var lb, ub := problem.consLb, problem.consUb;
    multipliers := Empty(c.dim);
    var kc, kl, ku := 0, 0, 0;
    ghost var j := 0;
    while kc < |c.indices| || kl < |lb.indices| || ku < |ub.indices|
      invariant 0 <= j <= c.dim && c.Cursor(kc, j) && lb.Cursor(kl, j) && ub.Cursor(ku, j)
      invariant multipliers.Valid() && multipliers.dim == c.dim
      invariant forall p :: 0 <= p < |multipliers.indices| ==> multipliers.indices[p] < j
      invariant forall p :: 0 <= p < |multipliers.data| ==> multipliers.data[p] == 1.0 || multipliers.data[p] == -1.0
      invariant forall i :: 0 <= i < j ==>
        multipliers.At(i) == if Skipped(working, i) then 0.0
                             else Sign(SignedResidual(c.At(i), lb.At(i), ub.At(i)))
      invariant forall i :: j <= i ==> multipliers.At(i) == 0.0
      decreases |c.indices| - kc + |lb.indices| - kl + |ub.indices| - ku
    {
      var idx, cVal, lbVal, ubVal;
      idx, cVal, lbVal, ubVal, kc, kl, ku := Read3(c, lb, ub, kc, kl, ku, j);
      j := idx + 1;
      if Skipped(working, idx) { continue; }
      var upper, lower := Max(cVal - ubVal, 0.0), Max(lbVal - cVal, 0.0);
      if upper > 0.0 {
        multipliers := Push(multipliers, idx, 1.0);
      } else if lower > 0.0 {
        multipliers := Push(multipliers, idx, -1.0);
      }
    }
    CursorEnd(c, j);
    CursorEnd(lb, j);
    CursorEnd(ub, j);
  }

  /** sleqp_violated_constraints */
  method ViolatedConstraints(problem: Problem, c: Vec) returns (violated: seq<int>)
    requires Compatible(problem, c, None)
    ensures forall p, q :: 0 <= p < q < |violated| ==> violated[p] < violated[q]
    ensures forall i :: i in violated <==>
      0 <= i < c.dim && SignedResidual(c.At(i), problem.consLb.At(i), problem.consUb.At(i)) != 0.0
  {
    hide Vec.At;
    var lb, ub := problem.consLb, problem.consUb;
    violated := [];
    var kc, kl, ku := 0, 0, 0;
    ghost var j := 0;
    while kc < |c.indices| || kl < |lb.indices| || ku < |ub.indices|
      invariant 0 <= j <= c.dim && c.Cursor(kc, j) && lb.Cursor(kl, j) && ub.Cursor(ku, j)
      invariant forall p, q :: 0 <= p < q < |violated| ==> violated[p] < violated[q]
      invariant forall p :: 0 <= p < |violated| ==> violated[p] < j
      invariant forall i :: i in violated <==>
        0 <= i < j && SignedResidual(c.At(i), lb.At(i), ub.At(i)) != 0.0
      decreases |c.indices| - kc + |lb.indices| - kl + |ub.indices| - ku
    {
      var idx, cVal, lbVal, ubVal;
      idx, cVal, lbVal, ubVal, kc, kl, ku := Read3(c, lb, ub, kc, kl, ku, j);
      var upper, lower := Max(cVal - ubVal, 0.0), Max(lbVal - cVal, 0.0);
      if upper > 0.0 {
        violated := violated + [idx];
      } else if lower > 0.0 {
        violated := violated + [idx];
      }
      j := idx + 1;
    }
    CursorEnd(c, j);
    CursorEnd(lb, j);
    CursorEnd(ub, j);
  }
}
