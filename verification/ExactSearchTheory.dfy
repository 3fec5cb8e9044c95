/** Why the exact Cauchy-Newton search of src/main/linesearch.c finds the minimum of the quadratic merit: the
    merit along the segment is a quadratic plus hinges, up to the entries its breakpoint collection leaves out. */
module ExactSearchTheory {
  import opened LinearAlgebra
  import opened SparseVec
  import opened Feasibility
  import opened Directions
  import opened Hinges
  import opened Sweep

  // ----- where the collection of breakpoints stops

  /** One past the last nonzero entry among the first k. */
  function SupportTo(x: Vector, k: nat): (e: nat)
    requires k <= |x|
    ensures e <= k
  {
    if k == 0 then 0 else if x[k - 1] != 0.0 then k else SupportTo(x, k - 1)
  }

  /** The collection runs until one of the two vectors has no further nonzero entry. */
  function Stop(v: Vector, d: Vector): (e: nat)
    requires |v| == |d|
    ensures e <= |v|
  {
    var p, q := SupportTo(v, |v|), SupportTo(d, |d|);
    if p < q then p else q
  }

  lemma {:induction false} SupportZero(x: Vector, k: nat)
    requires k <= |x|
    ensures forall i :: SupportTo(x, k) <= i < k ==> x[i] == 0.0
  {
    if k > 0 && x[k - 1] == 0.0 { SupportZero(x, k - 1); }
  }

  lemma StopSplits(v: Vector, d: Vector)
    requires |v| == |d|
    ensures forall i :: Stop(v, d) <= i < |v| ==> v[i] == 0.0 || d[i] == 0.0
  {
    SupportZero(v, |v|);
    SupportZero(d, |d|);
  }

  lemma {:induction false} SupportIs(x: Vector, e: nat, k: nat)
    requires e <= k <= |x| && (e > 0 ==> x[e - 1] != 0.0)
    requires forall i :: e <= i < k ==> x[i] == 0.0
    ensures SupportTo(x, k) == e
  {
    if e < k { SupportIs(x, e, k - 1); }
  }

  ghost predicate NonzeroData(v: Vec)
  {
    forall k :: 0 <= k < |v.data| ==> v.data[k] != 0.0
  }

  /** For a vector that stores no zeros the support ends after the last stored index. */
  lemma SupportOfVec(v: Vec)
    requires v.Valid() && NonzeroData(v)
    ensures SupportTo(v.Dense(), v.dim) == if |v.indices| == 0 then 0 else v.indices[|v.indices| - 1] + 1
  {
    var n := |v.indices|;
    var e: nat := if n == 0 then 0 else v.indices[n - 1] + 1;
    if n > 0 { StoredAt(v, n - 1); }
    assert v.Cursor(n, e);
    CursorEnd(v, e);
    SupportIs(v.Dense(), e, v.dim);
  }

  // ----- the violation along the segment

  /** The four vectors behind the two breakpoint collections. */
  datatype Slacks = Slacks(upper: Vector, upperChange: Vector, lower: Vector, lowerChange: Vector)
  {
    ghost predicate Fits() { |upper| == |upperChange| == |lower| == |lowerChange| }

    /** The violation the collected breakpoints represent at t. */
    ghost function Represented(t: real): real
      requires Fits()
    {
      AlongTo(upper, upperChange, t, Stop(upper, upperChange))
        + AlongTo(lower, lowerChange, t, Stop(lower, lowerChange))
    }

    /** The violation of the constraints that the collection leaves out. */
    ghost function Missing(t: real): real
      requires Fits()
    {
      Missed(upper, upperChange, t, Stop(upper, upperChange)) + Missed(lower, lowerChange, t, Stop(lower, lowerChange))
    }

    /** No constraint behind the end of the shorter vector is violated or becomes violated. */
    ghost predicate CleanTails()
      requires Fits()
    {
      && NoTail(upper, upperChange, Stop(upper, upperChange))
      && NoTail(lower, lowerChange, Stop(lower, lowerChange))
    }

    ghost function BreakPoints(): seq<BreakPoint>
      requires Fits()
    {
      Collected(upper, upperChange, Stop(upper, upperChange)) + Collected(lower, lowerChange, Stop(lower, lowerChange))
      + [BreakPoint(0.0, 1.0)]
    }

    ghost function Violation(): real
      requires Fits()
    {
      ViolationTo(upper, Stop(upper, upperChange)) + ViolationTo(lower, Stop(lower, lowerChange))
    }

    ghost function Slope(): real
      requires Fits()
    {
      SlopeTo(upper, upperChange, Stop(upper, upperChange)) + SlopeTo(lower, lowerChange, Stop(lower, lowerChange))
    }
  }

  ghost function SlacksOf(m: MeritModel, c: Parts, n: Parts): (s: Slacks)
    requires m.Fits(c) && m.Fits(n)
    ensures s.Fits() && |s.upper| == |m.consVal|
  {
    var x := LinComb(1.0, m.consVal, 1.0, c.consJac);
    var d := LinComb(1.0, n.consJac, -1.0, c.consJac);
    Slacks(LinComb(1.0, x, -1.0, m.upper), d, LinComb(-1.0, x, 1.0, m.lower), Scale(-1.0, d))
  }

  /** The breakpoint list has at most two entries a constraint and the end point, all inside [0, 1]. */
  lemma BreakPointsBounded(s: Slacks)
    requires s.Fits()
    ensures |s.BreakPoints()| <= 2 * |s.upper| + 1 && InUnit(s.BreakPoints())
  {
    CollectedInUnit(s.upper, s.upperChange, Stop(s.upper, s.upperChange));
    CollectedInUnit(s.lower, s.lowerChange, Stop(s.lower, s.lowerChange));
  }

  /** On [0, 1] the breakpoint list represents the collected violation exactly. */
  lemma BreakPointsRepresent(s: Slacks, t: real)
    requires s.Fits() && 0.0 <= t <= 1.0
    ensures s.Represented(t) == s.Violation() + Times(t, s.Slope()) + Hinge(s.BreakPoints(), t)
  {
    hide Hinge, Plus, Collected, Stop;
    var p, q := Stop(s.upper, s.upperChange), Stop(s.lower, s.lowerChange);
    var a, b, e := Collected(s.upper, s.upperChange, p), Collected(s.lower, s.lowerChange, q), BreakPoint(0.0, 1.0);
    CollectedRepresents(s.upper, s.upperChange, t, p);
    CollectedRepresents(s.lower, s.lowerChange, t, q);
    HingeAppend(a, b, t);
    HingeAppend(a + b, [e], t);
    HingeOne(e, t, 0.0);
    Distribute(t, SlopeTo(s.upper, s.upperChange, p), SlopeTo(s.lower, s.lowerChange, q));
  }

  /** The list represents the whole violation on [0, 1] if and only if the tails are clean. */
  lemma RepresentsAllIffCleanTails(s: Slacks)
    requires s.Fits()
    ensures s.CleanTails() <==> forall t :: 0.0 <= t <= 1.0 ==> s.Missing(t) == 0.0
    ensures s.CleanTails() <==> s.Missing(1.0) == 0.0
    ensures forall t :: 0.0 <= t <= 1.0 ==> s.Missing(t) >= 0.0
  {
    var p, q := Stop(s.upper, s.upperChange), Stop(s.lower, s.lowerChange);
    StopSplits(s.upper, s.upperChange);
    StopSplits(s.lower, s.lowerChange);
    NothingMissedIffNoTail(s.upper, s.upperChange, p);
    NothingMissedIffNoTail(s.lower, s.lowerChange, q);
    forall t | 0.0 <= t <= 1.0
      ensures Missed(s.upper, s.upperChange, t, p) >= 0.0 && Missed(s.lower, s.lowerChange, t, q) >= 0.0
    {
      AlongMonotone(s.upper, s.upperChange, t, p, |s.upper|);
      AlongMonotone(s.lower, s.lowerChange, t, q, |s.lower|);
    }
    assert (forall t :: 0.0 <= t <= 1.0 ==> s.Missing(t) == 0.0) ==> s.Missing(1.0) == 0.0;
  }

  lemma {:induction false} ViolationAlong(m: MeritModel, c: Parts, n: Parts, t: real, z: Vector, k: nat)
    requires m.Fits(c) && m.Fits(n) && k <= |m.consVal| == |z|
    requires forall i :: 0 <= i < |z| ==> m.lower[i] <= m.upper[i]
    requires z == LinComb(1.0, m.consVal, 1.0, LinComb(1.0 - t, c.consJac, t, n.consJac))
    ensures var s := SlacksOf(m, c, n);
      SumTo(Violations(z, m.lower, m.upper), k)
      == AlongTo(s.upper, s.upperChange, t, k) + AlongTo(s.lower, s.lowerChange, t, k)
  {
    if k > 0 {
      ViolationAlong(m, c, n, t, z, k - 1);
      EntryAlong(m, c, n, t, z, k - 1);
      hide EntryAt, SlacksOf, Violations;
    }
  }

  lemma EntryAlong(m: MeritModel, c: Parts, n: Parts, t: real, z: Vector, i: nat)
    requires m.Fits(c) && m.Fits(n) && i < |m.consVal| == |z| && m.lower[i] <= m.upper[i]
    requires z == LinComb(1.0, m.consVal, 1.0, LinComb(1.0 - t, c.consJac, t, n.consJac))
    ensures var s := SlacksOf(m, c, n);
      Violations(z, m.lower, m.upper)[i]
      == EntryAt(s.upper, s.upperChange, t, i) + EntryAt(s.lower, s.lowerChange, t, i)
  {
    hide Abs, SignedResidual;
    var s, x, p, q := SlacksOf(m, c, n), m.consVal[i], c.consJac[i], n.consJac[i];
    assert s.upper[i] == x + p - m.upper[i] && s.upperChange[i] == q - p;
    assert s.lower[i] == m.lower[i] - (x + p) && s.lowerChange[i] == -(q - p);
    var a, b := s.upper[i] + t * s.upperChange[i], s.lower[i] + t * s.lowerChange[i];
    assert z[i] == x + ((1.0 - t) * p + t * q);
    EntryIdentity(x, p, q, t, m.lower[i], m.upper[i], z[i], a, b);
    assert Violations(z, m.lower, m.upper)[i] == Abs(SignedResidual(z[i], m.lower[i], m.upper[i]));
    ResidualSplits(z[i], m.lower[i], m.upper[i], a, b);
    assert EntryAt(s.upper, s.upperChange, t, i) == Plus(a);
    assert EntryAt(s.lower, s.lowerChange, t, i) == Plus(b);
  }

  lemma EntryIdentity(x: real, p: real, q: real, t: real, l: real, u: real, z: real, a: real, b: real)
    requires z == x + ((1.0 - t) * p + t * q)
    requires a == x + p - u + t * (q - p) && b == l - (x + p) + t * -(q - p)
    ensures a == z - u && b == l - z
  {
  }

  lemma ResidualSplits(z: real, l: real, u: real, a: real, b: real)
    requires l <= u && a == z - u && b == l - z
    ensures Abs(SignedResidual(z, l, u)) == Plus(a) + Plus(b)
  {
  }

  // ----- the quadratic merit along the segment

  /** The two directions carry the slopes of one gradient and the products of one symmetric Hessian. */
  ghost predicate Consistent(grad: Vector, c: Parts, n: Parts)
  {
    && SameShape(c, n) && |grad| == |c.primal|
    && c.objGrad == Dot(grad, c.primal) && n.objGrad == Dot(grad, n.primal)
    && Dot(c.primal, n.hess) == Dot(n.primal, c.hess)
  }

  /** Linearised directions of a symmetric Hessian are consistent. */
  lemma LinearisedAreConsistent(grad: Vector, jac: Matrix, hessian: Matrix, c: Parts, n: Parts)
    requires SameShape(c, n) && Linearises(c, grad, jac, hessian) && Linearises(n, grad, jac, hessian)
    requires IsSymmetric(hessian)
    ensures Consistent(grad, c, n)
  {
    SymmetricProduct(hessian, c.primal, n.primal);
  }

  /** The merit of the direction at step length t between the Cauchy and the Newton direction. */
  ghost function MeritAt(m: MeritModel, c: Parts, n: Parts, t: real): real
    requires m.Fits(c) && m.Fits(n) && SameShape(c, n)
  {
    m.Quadratic(Combine(1.0 - t, c, t, n))
  }

  /** The quadratic part of the merit at t. */
  function Curve(quadratic: real, t: real): real { 0.5 * t * quadratic * t }

  lemma CurvatureAlong(c: Parts, n: Parts, t: real)
    requires SameShape(c, n) && Dot(c.primal, n.hess) == Dot(n.primal, c.hess)
    ensures var d := LinComb(1.0, n.primal, -1.0, c.primal);
      var z := Combine(1.0 - t, c, t, n);
      0.5 * Dot(z.primal, z.hess)
      == 0.5 * Dot(c.primal, c.hess) + Times(t, Dot(d, c.hess)) + Curve(Dot(d, n.hess) - Dot(d, c.hess), t)
  {
    var z, d := Combine(1.0 - t, c, t, n), LinComb(1.0, n.primal, -1.0, c.primal);
    var cz, nz, zz := Dot(c.primal, z.hess), Dot(n.primal, z.hess), Dot(z.primal, z.hess);
    var a, b, e := Dot(c.primal, c.hess), Dot(c.primal, n.hess), Dot(n.primal, n.hess);
    var dc, dn := Dot(d, c.hess), Dot(d, n.hess);
    hide Dot, LinComb, Times, Curve;
    DotLinear(1.0 - t, c.primal, t, n.primal, z.hess);
    DotLinear(1.0 - t, c.hess, t, n.hess, c.primal);
    DotLinear(1.0 - t, c.hess, t, n.hess, n.primal);
    DotLinear(1.0, n.primal, -1.0, c.primal, c.hess);
    DotLinear(1.0, n.primal, -1.0, c.primal, n.hess);
    CurvatureIdentity(a, b, e, t, cz, nz, zz, dc, dn);
  }

  lemma CurvatureIdentity(a: real, b: real, e: real, t: real, cz: real, nz: real, zz: real, dc: real, dn: real)
    requires cz == Times(1.0 - t, a) + Times(t, b) && nz == Times(1.0 - t, b) + Times(t, e)
    requires zz == Times(1.0 - t, cz) + Times(t, nz)
    requires dc == Times(1.0, b) + Times(-1.0, a) && dn == Times(1.0, e) + Times(-1.0, b)
    ensures 0.5 * zz == 0.5 * a + Times(t, dc) + Curve(dn - dc, t)
  {
    assert (1.0 - t) * cz == (1.0 - t) * (1.0 - t) * a + (1.0 - t) * t * b;
    assert t * nz == t * (1.0 - t) * b + t * t * e;
  }

  lemma TotalAlong(m: MeritModel, c: Parts, n: Parts, t: real)
    requires m.Fits(c) && m.Fits(n) && SameShape(c, n) && 0.0 <= t <= 1.0
    requires forall i :: 0 <= i < |m.consVal| ==> m.lower[i] <= m.upper[i]
    ensures var s := SlacksOf(m, c, n);
      Total(LinComb(1.0, m.consVal, 1.0, Combine(1.0 - t, c, t, n).consJac), m.lower, m.upper)
      == s.Violation() + Times(t, s.Slope()) + Hinge(s.BreakPoints(), t) + s.Missing(t)
  {
    var s := SlacksOf(m, c, n);
    var x := LinComb(1.0, m.consVal, 1.0, Combine(1.0 - t, c, t, n).consJac);
    ViolationAlong(m, c, n, t, x, |x|);
    BreakPointsRepresent(s, t);
    hide Hinge, Stop, Slacks.BreakPoints, Slacks.Violation, Slacks.Slope;
    assert Total(x, m.lower, m.upper) == s.Represented(t) + s.Missing(t);
  }

  lemma MeritUnfolds(m: MeritModel, c: Parts, n: Parts, t: real)
    requires m.Fits(c) && m.Fits(n) && SameShape(c, n) && 0.0 <= t <= 1.0
    requires forall i :: 0 <= i < |m.consVal| ==> m.lower[i] <= m.upper[i]
    requires Dot(c.primal, n.hess) == Dot(n.primal, c.hess)
    ensures var s, d := SlacksOf(m, c, n), LinComb(1.0, n.primal, -1.0, c.primal);
      MeritAt(m, c, n, t) == m.objVal + (c.objGrad + Times(t, n.objGrad - c.objGrad))
        + Times(m.penalty, s.Violation() + Times(t, s.Slope()) + Hinge(s.BreakPoints(), t) + s.Missing(t))
        + (0.5 * Dot(c.primal, c.hess) + Times(t, Dot(d, c.hess)) + Curve(Dot(d, n.hess) - Dot(d, c.hess), t))
  {
    hide Total, SlacksOf, Slacks.Missing, Slacks.BreakPoints, Slacks.Violation, Slacks.Slope, Hinge, LinComb, Dot,
         Times, Curve;
    SlopeAlong(c, n, t);
    TotalAlong(m, c, n, t);
    CurvatureAlong(c, n, t);
    hide Combine;
  }

  lemma SlopeAlong(c: Parts, n: Parts, t: real)
    requires SameShape(c, n)
    ensures Combine(1.0 - t, c, t, n).objGrad == c.objGrad + Times(t, n.objGrad - c.objGrad)
  {
  }

  lemma PieceUnfolds(b: seq<BreakPoint>, offset: real, linear: real, quadratic: real, penalty: real, t: real)
    ensures PieceValue(b, offset, linear, quadratic, penalty, t)
         == offset + Times(t, linear) + Times(penalty, Hinge(b, t)) + Curve(quadratic, t)
  {
  }

  /** Everything the search computes, put together: the merit is the piecewise quadratic it minimises plus the
      penalised violation it leaves out. */
  lemma MeritIsPiecewise(m: MeritModel, c: Parts, n: Parts, t: real, d: Vector, b: seq<BreakPoint>,
                         offset: real, linear: real, quadratic: real)
    requires m.Fits(c) && m.Fits(n) && SameShape(c, n) && 0.0 <= t <= 1.0
    requires forall i :: 0 <= i < |m.consVal| ==> m.lower[i] <= m.upper[i]
    requires Dot(c.primal, n.hess) == Dot(n.primal, c.hess)
    requires d == LinComb(1.0, n.primal, -1.0, c.primal)
    requires multiset(b) == multiset(SlacksOf(m, c, n).BreakPoints())
    requires offset == m.objVal + c.objGrad + 0.5 * Dot(c.primal, c.hess)
      + Times(m.penalty, SlacksOf(m, c, n).Violation())
    requires linear == n.objGrad - c.objGrad + Dot(d, c.hess) + Times(m.penalty, SlacksOf(m, c, n).Slope())
    requires quadratic == Dot(d, n.hess) - Dot(d, c.hess)
    ensures MeritAt(m, c, n, t)
         == PieceValue(b, offset, linear, quadratic, m.penalty, t) + Times(m.penalty, SlacksOf(m, c, n).Missing(t))
  {
    var s, cc, dc := SlacksOf(m, c, n), Dot(c.primal, c.hess), Dot(d, c.hess);
    hide *;
    MeritUnfolds(m, c, n, t);
    HingePermutation(b, s.BreakPoints(), t);
    PieceUnfolds(b, offset, linear, quadratic, m.penalty, t);
    Assemble(m.objVal, c.objGrad, n.objGrad - c.objGrad, m.penalty, t, 0.5 * cc, dc, Curve(quadratic, t),
             s.Violation(), s.Slope(), Hinge(b, t), s.Missing(t));
  }

  lemma Assemble(f: real, gc: real, gd: real, penalty: real, t: real, cc: real, dc: real, curve: real,
                 violation: real, slope: real, hinge: real, missing: real)
    ensures f + (gc + Times(t, gd)) + Times(penalty, violation + Times(t, slope) + hinge + missing)
            + (cc + Times(t, dc) + curve)
         == f + gc + cc + Times(penalty, violation) + Times(t, gd + dc + Times(penalty, slope))
            + Times(penalty, hinge) + curve + Times(penalty, missing)
  {
    hide *;
    var ts := Times(t, slope);
    TimesAdd(penalty, violation, ts);
    TimesAdd(penalty, violation + ts, hinge);
    TimesAdd(penalty, violation + ts + hinge, missing);
    TimesAdd(t, gd, dc);
    TimesAdd(t, gd + dc, Times(penalty, slope));
    TimesSwap(t, penalty, slope);
  }

  /** The merit at t without the penalised violation of the constraints that the collection leaves out. */
  ghost function CollectedMerit(m: MeritModel, c: Parts, n: Parts, t: real): real
    requires m.Fits(c) && m.Fits(n) && SameShape(c, n)
  {
    MeritAt(m, c, n, t) - Times(m.penalty, SlacksOf(m, c, n).Missing(t))
  }

  /** The minimum of the piecewise quadratic is the minimum of the collected merit. */
  lemma MinimumOfMerit(m: MeritModel, c: Parts, n: Parts, d: Vector, b: seq<BreakPoint>,
                       offset: real, linear: real, quadratic: real, alpha: real, value: real)
    requires m.Fits(c) && m.Fits(n) && SameShape(c, n) && 0.0 <= alpha <= 1.0
    requires forall i :: 0 <= i < |m.consVal| ==> m.lower[i] <= m.upper[i]
    requires exists grad :: Consistent(grad, c, n)
    requires d == LinComb(1.0, n.primal, -1.0, c.primal)
    requires multiset(b) == multiset(SlacksOf(m, c, n).BreakPoints())
    requires offset == m.objVal + c.objGrad + 0.5 * Dot(c.primal, c.hess)
      + Times(m.penalty, SlacksOf(m, c, n).Violation())
    requires linear == n.objGrad - c.objGrad + Dot(d, c.hess) + Times(m.penalty, SlacksOf(m, c, n).Slope())
    requires quadratic == Dot(d, n.hess) - Dot(d, c.hess)
    requires value == PieceValue(b, offset, linear, quadratic, m.penalty, alpha)
    requires forall t :: 0.0 <= t <= 1.0 ==> value <= PieceValue(b, offset, linear, quadratic, m.penalty, t)
    ensures value == CollectedMerit(m, c, n, alpha)
    ensures forall t :: 0.0 <= t <= 1.0 ==> value <= CollectedMerit(m, c, n, t)
  {
    hide Times, PieceValue, MeritAt, SlacksOf, Dot, LinComb;
    MeritIsPiecewise(m, c, n, alpha, d, b, offset, linear, quadratic);
    forall t | 0.0 <= t <= 1.0 ensures value <= CollectedMerit(m, c, n, t) {
      MeritIsPiecewise(m, c, n, t, d, b, offset, linear, quadratic);
    }
  }

  /** alpha minimises the collected merit over [0, 1], with the given value. */
  ghost predicate MinimisesCollected(m: MeritModel, c: Parts, n: Parts, alpha: real, value: real)
  {
    && m.Fits(c) && m.Fits(n) && SameShape(c, n) && 0.0 <= alpha <= 1.0
    && value == CollectedMerit(m, c, n, alpha)
    && forall t :: 0.0 <= t <= 1.0 ==> value <= CollectedMerit(m, c, n, t)
  }

  /** alpha minimises the quadratic merit over the segment, with the given value. */
  ghost predicate MinimisesMerit(m: MeritModel, c: Parts, n: Parts, alpha: real, value: real)
  {
    && m.Fits(c) && m.Fits(n) && SameShape(c, n) && 0.0 <= alpha <= 1.0
    && value == MeritAt(m, c, n, alpha)
    && forall t :: 0.0 <= t <= 1.0 ==> value <= MeritAt(m, c, n, t)
  }

  /** What the exact search promises for every input, and what it promises with clean tails. */
  ghost predicate ExactOutcome(m: MeritModel, c: Parts, n: Parts, alpha: real, value: real)
  {
    && MinimisesCollected(m, c, n, alpha, value)
    && (SlacksOf(m, c, n).CleanTails() ==> MinimisesMerit(m, c, n, alpha, value))
  }

  lemma CollectedOutcome(m: MeritModel, c: Parts, n: Parts, alpha: real, value: real)
    requires MinimisesCollected(m, c, n, alpha, value)
    ensures ExactOutcome(m, c, n, alpha, value)
  {
    hide MinimisesMerit;
    if SlacksOf(m, c, n).CleanTails() { CleanMinimum(m, c, n, alpha, value); }
  }

  /** With clean tails the collected minimum is the minimum of the merit. */
  lemma CleanMinimum(m: MeritModel, c: Parts, n: Parts, alpha: real, value: real)
    requires MinimisesCollected(m, c, n, alpha, value) && SlacksOf(m, c, n).CleanTails()
    ensures MinimisesMerit(m, c, n, alpha, value)
  {
    var s := SlacksOf(m, c, n);
    hide MeritAt, SlacksOf, Times;
    TimesZero(m.penalty);
    RepresentsAllIffCleanTails(s);
    forall t | 0.0 <= t <= 1.0 ensures CollectedMerit(m, c, n, t) == MeritAt(m, c, n, t) {
      assert s.Missing(t) == 0.0;
    }
  }

  /** The minimising step is the merit of its own direction and never worse than the Cauchy or the Newton
      direction. */
  lemma MinimumBeatsBothEnds(m: MeritModel, c: Parts, n: Parts, alpha: real, value: real)
    requires MinimisesMerit(m, c, n, alpha, value)
    ensures value == m.Quadratic(Combine(1.0 - alpha, c, alpha, n))
    ensures value <= m.Quadratic(c) && value <= m.Quadratic(n)
  {
    SegmentEnds(m, c, n);
  }

  /** The end points of the segment are the Cauchy and the Newton direction. */
  lemma SegmentEnds(m: MeritModel, c: Parts, n: Parts)
    requires m.Fits(c) && m.Fits(n) && SameShape(c, n)
    ensures MeritAt(m, c, n, 0.0) == m.Quadratic(c) && MeritAt(m, c, n, 1.0) == m.Quadratic(n)
  {
    assert Combine(1.0, c, 0.0, n) == c;
    assert Combine(0.0, c, 1.0, n) == n;
  }
}
