/** How scaling transports the optimality residuals of src/main/iterate.c, for an objective that is not a sum of
    squares. */
module KktTransport {
  import opened LinearAlgebra
  import opened SparseVec
  import opened SparseMat
  import opened Problems
  import opened Feasibility
  import opened Optimality
  import opened Scaling

  /** The bounds of the scaled problem: points and constraint values are scaled down. */
  ghost function ScaledProblem(w: Weights, problem: Problem): (p: Problem)
    requires problem.Shaped() && |w.vars| == problem.NumVars() && |w.cons| == problem.NumCons()
    ensures p.Shaped() && p.NumVars() == problem.NumVars() && p.NumCons() == problem.NumCons()
  {
    Problem(Stretched(problem.varsLb, Down(w.vars, 0)), Stretched(problem.varsUb, Down(w.vars, 0)),
            Stretched(problem.consLb, Down(w.cons, 0)), Stretched(problem.consUb, Down(w.cons, 0)))
  }

  lemma ScaledProblemValid(w: Weights, problem: Problem)
    requires problem.Valid() && |w.vars| == problem.NumVars() && |w.cons| == problem.NumCons()
    ensures ScaledProblem(w, problem).Valid()
  {
    hide Vec.At, Stretched, Ldexp;
    var p := ScaledProblem(w, problem);
    forall j | 0 <= j < problem.NumVars() ensures p.varsLb.At(j) <= p.varsUb.At(j) {
      StretchedAt(problem.varsLb, Down(w.vars, 0), j);
      StretchedAt(problem.varsUb, Down(w.vars, 0), j);
      LdexpSum(problem.varsLb.At(j), problem.varsUb.At(j), -1 * w.vars[j]);
    }
    forall i | 0 <= i < problem.NumCons() ensures p.consLb.At(i) <= p.consUb.At(i) {
      StretchedAt(problem.consLb, Down(w.cons, 0), i);
      StretchedAt(problem.consUb, Down(w.cons, 0), i);
      LdexpSum(problem.consLb.At(i), problem.consUb.At(i), -1 * w.cons[i]);
    }
  }

  ghost predicate Transports(w: Weights, problem: Problem, s: State)
  {
    s.Fits(problem) && |w.vars| == s.primal.dim && |w.cons| == s.consVal.dim
  }

  lemma ScaledFits(w: Weights, problem: Problem, s: State)
    requires Transports(w, problem, s)
    ensures Scalable(w, s) && Scaled(w, s, false).Fits(ScaledProblem(w, problem))
    ensures Transports(w, ScaledProblem(w, problem), Scaled(w, s, false))
  {
    ScaledProblemValid(w, problem);
    ScaledIsScalable(w, s, false);
  }

  // ----- scalars and sums

  /** All slackness residuals carry the same power of two when the multiplier's exponent takes back the value's. */
  lemma SlackScaled(v: real, l: real, u: real, d: real, a: int, b: int)
    ensures Slack(Ldexp(v, a), Ldexp(l, a), Ldexp(u, a), Ldexp(d, b)) == Ldexp(Slack(v, l, u, d), a + b)
  {
    hide Ldexp;
    LdexpZero(d, b);
    GapScaled(u, v, a);
    GapScaled(v, l, a);
    var x := if d >= 0.0 then Max(u - v, 0.0) else Max(v - l, 0.0);
    LdexpProduct(x, d, a, b);
    assert Slack(v, l, u, d) == Times(x, d);
    assert Slack(Ldexp(v, a), Ldexp(l, a), Ldexp(u, a), Ldexp(d, b)) == Times(Ldexp(x, a), Ldexp(d, b));
  }

  lemma GapScaled(u: real, v: real, a: int)
    ensures Max(Ldexp(u, a) - Ldexp(v, a), 0.0) == Ldexp(Max(u - v, 0.0), a)
  {
    hide Ldexp;
    LdexpSum(u, v, a);
    LdexpSum(u - v, 0.0, a);
    LdexpZero(0.0, a);
  }

  lemma ResidualScaled(c: real, l: real, u: real, a: int)
    ensures SignedResidual(Ldexp(c, a), Ldexp(l, a), Ldexp(u, a)) == Ldexp(SignedResidual(c, l, u), a)
  {
    hide Ldexp;
    LdexpSum(c, u, a);
    LdexpSum(c, l, a);
    LdexpSum(u, c, a);
    LdexpSum(l, c, a);
    LdexpZero(0.0, a);
  }

  lemma {:induction false} DotToScaled(p: Vector, q: Vector, p': Vector, q': Vector, e: int, k: nat)
    requires |p| == |q| == |p'| == |q'| && k <= |p|
    requires forall i :: 0 <= i < k ==> p'[i] * q'[i] == Ldexp(p[i] * q[i], e)
    ensures DotTo(p', q', k) == Ldexp(DotTo(p, q, k), e)
  {
    hide Ldexp;
    if k == 0 {
      LdexpZero(0.0, e);
    } else {
      DotToScaled(p, q, p', q', e, k - 1);
      LdexpSum(DotTo(p, q, k - 1), p[k - 1] * q[k - 1], e);
    }
  }

  lemma {:induction false} LargestScaled(x: Vector, y: Vector, e: int, k: nat)
    requires |x| == |y| && k <= |x| && forall i :: 0 <= i < k ==> y[i] == Ldexp(x[i], e)
    ensures Largest(y, k) == Ldexp(Largest(x, k), e)
  {
    hide Ldexp;
    if k == 0 {
      LdexpZero(0.0, e);
    } else {
      LargestScaled(x, y, e, k - 1);
      LdexpSum(Largest(x, k - 1), Abs(x[k - 1]), e);
      LdexpSum(x[k - 1], 0.0, e);
    }
  }

  // ----- the residuals

  /** Each stationarity residual is multiplied by two to the power of its variable's weight less the objective's. */
  lemma StationarityScaled(w: Weights, s: State, j: nat)
    requires Scalable(w, s) && j < s.primal.dim
    ensures Scaled(w, s, false).Valid()
    ensures Stationarity(Scaled(w, s, false))[j] == Ldexp(Stationarity(s)[j], w.vars[j] - w.obj)
  {
    hide *;
    ScaledParts(w, s);
    StationarityAt(s, j);
    StationarityAt(Scaled(w, s, false), j);
    TransScaled(w, s, j);
    var e := w.vars[j] - w.obj;
    DualAt(s.varsDual, w.vars, w.obj, j);
    DualAt(s.objGrad, w.vars, w.obj, j);
    var t := TransVec(s.consJac.Dense(), s.consDual.Dense(), s.primal.dim)[j];
    LdexpSum(t, s.varsDual.At(j), e);
    LdexpSum(t + s.varsDual.At(j), s.objGrad.At(j), e);
  }

  lemma ScaledParts(w: Weights, s: State)
    requires Scalable(w, s)
    ensures s.Valid() && |w.vars| == s.primal.dim == s.varsDual.dim == s.objGrad.dim
    ensures s.varsDual.Valid() && s.objGrad.Valid() && s.consDual.Valid() && s.consJac.Valid()
    ensures IsMatrix(s.consJac.Dense(), |s.consDual.Dense()|, s.primal.dim)
    ensures var t := Scaled(w, s, false);
      && t.Valid() && t.primal.dim == s.primal.dim && t.varsDual.Valid() && t.objGrad.Valid()
      && t.varsDual == Stretched(s.varsDual, Up(w.vars, -1 * w.obj))
      && t.objGrad == Stretched(s.objGrad, Up(w.vars, -1 * w.obj))
  {
    ScaledIsScalable(w, s, false);
  }

  lemma StationarityAt(s: State, j: nat)
    requires s.Valid() && j < s.primal.dim
    ensures s.varsDual.Valid() && s.objGrad.Valid() && s.consDual.Valid() && s.consJac.Valid()
    ensures IsMatrix(s.consJac.Dense(), |s.consDual.Dense()|, s.primal.dim)
    ensures Stationarity(s)[j] == TransVec(s.consJac.Dense(), s.consDual.Dense(), s.primal.dim)[j]
                                  + s.varsDual.At(j) + s.objGrad.At(j)
  {
  }

  lemma DualAt(v: Vec, scales: seq<int>, obj: int, j: nat)
    requires v.Valid() && |scales| == v.dim && j < v.dim
    ensures Stretched(v, Up(scales, -1 * obj)).At(j) == Ldexp(v.At(j), scales[j] - obj)
  {
    StretchedAt(v, Up(scales, -1 * obj), j);
  }

  lemma TransScaled(w: Weights, s: State, j: nat)
    requires Scalable(w, s) && j < s.primal.dim
    ensures var t := Scaled(w, s, false);
      && t.consJac.Valid() && t.consDual.Valid()
      && IsMatrix(t.consJac.Dense(), |t.consDual.Dense()|, s.primal.dim)
      && IsMatrix(s.consJac.Dense(), |s.consDual.Dense()|, s.primal.dim)
      && TransVec(t.consJac.Dense(), t.consDual.Dense(), s.primal.dim)[j]
         == Ldexp(TransVec(s.consJac.Dense(), s.consDual.Dense(), s.primal.dim)[j], w.vars[j] - w.obj)
  {
    hide Ldexp, TransVec, Stretched, StretchedMat, Vec.At, Mat.At;
    ScaledIsScalable(w, s, false);
    var t, n, e := Scaled(w, s, false), s.primal.dim, w.vars[j] - w.obj;
    TransVecEntry(s.consJac.Dense(), s.consDual.Dense(), n, j);
    TransVecEntry(t.consJac.Dense(), t.consDual.Dense(), n, j);
    var p, q := Column(s.consJac.Dense(), j), s.consDual.Dense();
    var p', q' := Column(t.consJac.Dense(), j), t.consDual.Dense();
    forall i | 0 <= i < |p| ensures p'[i] * q'[i] == Ldexp(p[i] * q[i], e) {
      StretchedMatAt(s.consJac, Down(w.cons, 0), Up(w.vars, 0), i, j);
      StretchedAt(s.consDual, Up(w.cons, -1 * w.obj), i);
      LdexpProduct(p[i], q[i], w.vars[j] - w.cons[i], w.cons[i] - w.obj);
    }
    DotToScaled(p, q, p', q', e, |p|);
  }

  /** All slackness residuals are divided by two to the power of the objective's weight. */
  lemma SlacksScaled(w: Weights, problem: Problem, s: State)
    requires Transports(w, problem, s)
    ensures Scalable(w, s) && Scaled(w, s, false).Fits(ScaledProblem(w, problem))
    ensures forall i :: 0 <= i < s.consVal.dim ==>
      ConsSlacks(ScaledProblem(w, problem), Scaled(w, s, false))[i] == Ldexp(ConsSlacks(problem, s)[i], -w.obj)
    ensures forall j :: 0 <= j < s.primal.dim ==>
      VarsSlacks(ScaledProblem(w, problem), Scaled(w, s, false))[j] == Ldexp(VarsSlacks(problem, s)[j], -w.obj)
  {
    hide Ldexp, Stretched, StretchedMat, Vec.At, Slack;
    ScaledFits(w, problem, s);
    var t, q := Scaled(w, s, false), ScaledProblem(w, problem);
    forall i | 0 <= i < s.consVal.dim ensures ConsSlacks(q, t)[i] == Ldexp(ConsSlacks(problem, s)[i], -w.obj) {
      SlackAt(s.consVal, problem.consLb, problem.consUb, s.consDual, w.cons, w.obj, i);
    }
    forall j | 0 <= j < s.primal.dim ensures VarsSlacks(q, t)[j] == Ldexp(VarsSlacks(problem, s)[j], -w.obj) {
      SlackAt(s.primal, problem.varsLb, problem.varsUb, s.varsDual, w.vars, w.obj, j);
    }
  }

  lemma SlackAt(v: Vec, l: Vec, u: Vec, d: Vec, scales: seq<int>, obj: int, i: nat)
    requires v.Valid() && l.Valid() && u.Valid() && d.Valid() && v.dim == l.dim == u.dim == d.dim == |scales|
    requires i < v.dim
    ensures Slack(Stretched(v, Down(scales, 0)).At(i), Stretched(l, Down(scales, 0)).At(i),
                  Stretched(u, Down(scales, 0)).At(i), Stretched(d, Up(scales, -1 * obj)).At(i))
         == Ldexp(Slack(v.At(i), l.At(i), u.At(i), d.At(i)), -obj)
  {
    hide Ldexp, Stretched, Vec.At, Slack;
    StretchedAt(v, Down(scales, 0), i);
    StretchedAt(l, Down(scales, 0), i);
    StretchedAt(u, Down(scales, 0), i);
    StretchedAt(d, Up(scales, -1 * obj), i);
    SlackScaled(v.At(i), l.At(i), u.At(i), d.At(i), -scales[i], scales[i] - obj);
  }

  /** Each feasibility residual is divided by two to the power of its constraint's weight. */
  lemma FeasibilityScaled(w: Weights, problem: Problem, s: State, i: nat)
    requires Transports(w, problem, s) && i < s.consVal.dim
    ensures Scalable(w, s)
    ensures var t, q := Scaled(w, s, false), ScaledProblem(w, problem);
      && t.Fits(q)
      && SignedResidual(t.consVal.At(i), q.consLb.At(i), q.consUb.At(i))
         == Ldexp(SignedResidual(s.consVal.At(i), problem.consLb.At(i), problem.consUb.At(i)), -w.cons[i])
  {
    hide Ldexp, Stretched, StretchedMat, Vec.At, SignedResidual;
    ScaledFits(w, problem, s);
    StretchedAt(s.consVal, Down(w.cons, 0), i);
    StretchedAt(problem.consLb, Down(w.cons, 0), i);
    StretchedAt(problem.consUb, Down(w.cons, 0), i);
    ResidualScaled(s.consVal.At(i), problem.consLb.At(i), problem.consUb.At(i), -w.cons[i]);
  }

  /** The slackness residuum, a maximum over all entries, is scaled as a whole. */
  lemma SlacknessResiduumScaled(w: Weights, problem: Problem, s: State)
    requires Transports(w, problem, s)
    ensures Scalable(w, s)
    ensures var t, q := Scaled(w, s, false), ScaledProblem(w, problem);
      && t.Fits(q)
      && Max(Largest(ConsSlacks(q, t), t.consVal.dim), Largest(VarsSlacks(q, t), t.primal.dim))
         == Ldexp(Max(Largest(ConsSlacks(problem, s), s.consVal.dim), Largest(VarsSlacks(problem, s), s.primal.dim)),
                  -w.obj)
  {
    hide Ldexp, Stretched, StretchedMat, Largest, ConsSlacks, VarsSlacks;
    SlacksScaled(w, problem, s);
    var t, q := Scaled(w, s, false), ScaledProblem(w, problem);
    LargestScaled(ConsSlacks(problem, s), ConsSlacks(q, t), -w.obj, s.consVal.dim);
    LargestScaled(VarsSlacks(problem, s), VarsSlacks(q, t), -w.obj, s.primal.dim);
    LdexpSum(Largest(ConsSlacks(problem, s), s.consVal.dim), Largest(VarsSlacks(problem, s), s.primal.dim), -w.obj);
  }

  lemma ZeroTogether(x: Vector, y: Vector, e: seq<int>)
    requires |x| == |y| == |e| && forall i :: 0 <= i < |x| ==> y[i] == Ldexp(x[i], e[i])
    ensures Largest(x, |x|) == 0.0 <==> Largest(y, |y|) == 0.0
  {
    hide Ldexp, Largest;
    LargestAttained(x, |x|);
    LargestAttained(y, |y|);
    forall i | 0 <= i < |x| ensures x[i] == 0.0 <==> y[i] == 0.0 { LdexpZero(x[i], e[i]); }
  }

  lemma FeasibleTogether(w: Weights, problem: Problem, s: State)
    requires Transports(w, problem, s)
    ensures Scalable(w, s) && Scaled(w, s, false).Fits(ScaledProblem(w, problem))
    ensures var t, q := Scaled(w, s, false), ScaledProblem(w, problem);
      MaxTo(s.consVal.Dense(), problem.consLb.Dense(), problem.consUb.Dense(), s.consVal.dim) == 0.0
      <==> MaxTo(t.consVal.Dense(), q.consLb.Dense(), q.consUb.Dense(), t.consVal.dim) == 0.0
  {
    hide Ldexp, Stretched, StretchedMat, Vec.At, MaxTo;
    ScaledFits(w, problem, s);
    var t, q := Scaled(w, s, false), ScaledProblem(w, problem);
    ViolationZeroIffFeasible(s.consVal.Dense(), problem.consLb.Dense(), problem.consUb.Dense());
    ViolationZeroIffFeasible(t.consVal.Dense(), q.consLb.Dense(), q.consUb.Dense());
    forall i | 0 <= i < s.consVal.dim
      ensures problem.consLb.Dense()[i] <= s.consVal.Dense()[i] <= problem.consUb.Dense()[i]
         <==> q.consLb.Dense()[i] <= t.consVal.Dense()[i] <= q.consUb.Dense()[i]
    {
      StretchedAt(s.consVal, Down(w.cons, 0), i);
      StretchedAt(problem.consLb, Down(w.cons, 0), i);
      StretchedAt(problem.consUb, Down(w.cons, 0), i);
      LdexpSum(problem.consLb.At(i), s.consVal.At(i), -w.cons[i]);
      LdexpSum(s.consVal.At(i), problem.consUb.At(i), -w.cons[i]);
    }
  }

  /** Exact KKT points of the problem and of the scaled problem correspond. */
  lemma KktTransported(w: Weights, problem: Problem, s: State)
    requires Transports(w, problem, s)
    ensures Scalable(w, s) && Scaled(w, s, false).Fits(ScaledProblem(w, problem))
    ensures IsKkt(problem, s) <==> IsKkt(ScaledProblem(w, problem), Scaled(w, s, false))
  {
    hide Ldexp, Stretched, StretchedMat, Largest, ConsSlacks, VarsSlacks, Stationarity, MaxTo, Vec.At, Vec.Dense;
    SlacksScaled(w, problem, s);
    FeasibleTogether(w, problem, s);
    var t, q := Scaled(w, s, false), ScaledProblem(w, problem);
    ZeroTogether(ConsSlacks(problem, s), ConsSlacks(q, t), Const(s.consVal.dim, -w.obj));
    ZeroTogether(VarsSlacks(problem, s), VarsSlacks(q, t), Const(s.primal.dim, -w.obj));
    forall j | 0 <= j < s.primal.dim ensures Stationarity(t)[j] == Ldexp(Stationarity(s)[j], w.vars[j] - w.obj) {
      StationarityScaled(w, s, j);
    }
    ZeroTogether(Stationarity(s), Stationarity(t), Up(w.vars, -w.obj));
  }

  /** A solution of the scaled problem, unscaled, is a solution of the problem, and only solutions unscale to such. */
  lemma KktUnscaled(w: Weights, problem: Problem, t: State)
    requires problem.Valid() && |w.vars| == problem.NumVars() && |w.cons| == problem.NumCons()
    requires t.Fits(ScaledProblem(w, problem))
    ensures Scalable(w, t) && Unscaled(w, t, false).Fits(problem)
    ensures IsKkt(ScaledProblem(w, problem), t) <==> IsKkt(problem, Unscaled(w, t, false))
  {
    hide Ldexp, Stretched, StretchedMat, IsKkt;
    ScaleRoundTrip(w, t, false);
    KktTransported(w, problem, Unscaled(w, t, false));
  }
}
