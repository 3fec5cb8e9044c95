/** src/main/cauchy/box_constrained_cauchy.c: the linear step inside the variable bounds and the trust region, in
    closed form. */
module BoxCauchy {
  import opened LinearAlgebra
  import opened SparseVec
  import opened Problems
  import opened WorkingSets
  import opened Polishing
  import opened Directions

  // ----- one coordinate

  /** The chosen move of a coordinate with gradient g and distances l <= 0 <= u to its bounds. */
  function Choice(g: real, l: real, u: real, radius: real): real
  {
    if -g >= 0.0 then (if radius < u then radius else u)
    else if l < -radius then -radius else l
  }

  /** The state that goes with the move. */
  function ChoiceState(g: real, l: real, u: real, radius: real, fixed: bool): ActiveState
  {
    if -g >= 0.0 then (if radius < u then Inactive else if fixed then ActiveBoth else ActiveUpper)
    else if l < -radius then Inactive else if fixed then ActiveBoth else ActiveLower
  }

  function ChoiceDual(g: real, l: real, u: real, radius: real): real
  {
    if ChoiceState(g, l, u, radius, false) == Inactive then 0.0 else -g
  }

  ghost predicate MayMove(e: real, l: real, u: real, radius: real)
  {
    l <= e <= u && -radius <= e <= radius
  }

  /** The move is allowed, and no allowed move has a smaller slope. */
  lemma ChoiceIsBest(g: real, l: real, u: real, radius: real, e: real, gd: real, ge: real)
    requires l <= 0.0 <= u && radius >= 0.0 && gd == g * Choice(g, l, u, radius) && ge == g * e
    ensures MayMove(Choice(g, l, u, radius), l, u, radius)
    ensures MayMove(e, l, u, radius) ==> gd <= ge
  {
    var d := Choice(g, l, u, radius);
    if MayMove(e, l, u, radius) {
      if -g >= 0.0 { ScaleLe(-g, e, d); } else { ScaleLe(g, d, e); }
    }
  }

  /** Active states tell which bound the move reaches, and the dual has a supported sign. */
  lemma ChoiceSupports(g: real, l: real, u: real, radius: real, fixed: bool)
    requires fixed ==> l == u
    ensures var state := ChoiceState(g, l, u, radius, fixed);
      && Supports(state, ChoiceDual(g, l, u, radius))
      && (state == ActiveUpper || state == ActiveBoth ==> Choice(g, l, u, radius) == u)
      && (state == ActiveLower || state == ActiveBoth ==> Choice(g, l, u, radius) == l)
      && (state != Inactive ==> g + ChoiceDual(g, l, u, radius) == 0.0)
      && EndsAt(state, fixed, g, Choice(g, l, u, radius), ChoiceDual(g, l, u, radius), l, u, radius)
  {
  }

  /** The coordinate moves against its gradient up to the nearer of its bound and the radius; without a gradient it
      moves up. It is inactive exactly if it stops short of the bound, otherwise its state names that bound, or both if
      it is fixed; the dual cancels the gradient wherever the radius is not what stops it. */
  ghost predicate EndsAt(state: ActiveState, fixed: bool, g: real, d: real, y: real, l: real, u: real, radius: real)
  {
    && d == (if g <= 0.0 then Min(u, radius) else Max(l, -radius))
    && (state == Inactive <==> if g <= 0.0 then d < u else l < d)
    && (state != Inactive ==> state == if fixed then ActiveBoth else if g <= 0.0 then ActiveUpper else ActiveLower)
    && (Abs(d) < radius ==> state != Inactive && g + y == 0.0)
  }

  // ----- the whole step

  ghost function Moves(g: Vector, l: Vector, u: Vector, radius: real): (d: Vector)
    requires |g| == |l| == |u|
    ensures |d| == |g|
  {
    seq(|g|, j requires 0 <= j < |g| => Choice(g[j], l[j], u[j], radius))
  }

  ghost predicate Allowed(e: Vector, l: Vector, u: Vector, radius: real)
    requires |e| == |l| == |u|
  {
    forall j :: 0 <= j < |e| ==> MayMove(e[j], l[j], u[j], radius)
  }

  /** The slope along d is at most the one along e, in one coordinate. */
  predicate NoSteeper(g: real, d: real, e: real) { g * d <= g * e }

  lemma {:induction false} DotToMonotone(g: Vector, d: Vector, e: Vector, k: nat)
    requires |g| == |d| == |e| && k <= |g|
    requires forall j :: 0 <= j < k ==> NoSteeper(g[j], d[j], e[j])
    ensures DotTo(g, d, k) <= DotTo(g, e, k)
  {
    if k > 0 {
      DotToMonotone(g, d, e, k - 1);
      AddSteps(DotTo(g, d, k - 1), DotTo(g, e, k - 1), g[k - 1], d[k - 1], e[k - 1]);
    }
  }

  lemma AddSteps(a: real, b: real, g: real, d: real, e: real)
    requires a <= b && NoSteeper(g, d, e)
    ensures a + g * d <= b + g * e
  {
    var p, q := g * d, g * e;
    assert p <= q;
  }

  /** The step is allowed and minimises the linear model over all allowed steps. */
  lemma MovesAreBest(g: Vector, l: Vector, u: Vector, radius: real)
    requires |g| == |l| == |u| && radius >= 0.0 && forall j :: 0 <= j < |g| ==> l[j] <= 0.0 <= u[j]
    ensures Allowed(Moves(g, l, u, radius), l, u, radius)
    ensures forall e :: |e| == |g| && Allowed(e, l, u, radius) ==> Dot(g, Moves(g, l, u, radius)) <= Dot(g, e)
  {
    hide NoSteeper, Choice, MayMove;
    var d := Moves(g, l, u, radius);
    forall j | 0 <= j < |g| ensures MayMove(d[j], l[j], u[j], radius) {
      BestMove(g[j], l[j], u[j], radius, d[j], d[j]);
    }
    forall e | |e| == |g| && Allowed(e, l, u, radius) ensures Dot(g, d) <= Dot(g, e) {
      forall j | 0 <= j < |g| ensures NoSteeper(g[j], d[j], e[j]) {
        assert MayMove(e[j], l[j], u[j], radius);
        BestMove(g[j], l[j], u[j], radius, d[j], e[j]);
      }
      DotToMonotone(g, d, e, |g|);
    }
  }

  lemma BestMove(g: real, l: real, u: real, radius: real, d: real, e: real)
    requires l <= 0.0 <= u && radius >= 0.0 && d == Choice(g, l, u, radius)
    ensures MayMove(d, l, u, radius) && (MayMove(e, l, u, radius) ==> NoSteeper(g, d, e))
  {
    ChoiceIsBest(g, l, u, radius, e, g * d, g * e);
  }

  // ----- the object

  class BoxCauchy {
    const problem: Problem
    /** Bounds of at least half this size count as infinite. */
    const infinity: real
    const varStates: array<ActiveState>
    const fixedVars: array<bool>
    var iterate: EvaluatedPoint
    var trustRadius: real
    var lowerDiff: Vec
    var upperDiff: Vec
    var direction: Vec
    var duals: Vec
    var objective: real

    ghost predicate Shaped()
    {
      && problem.Valid() && varStates.Length == fixedVars.Length == problem.NumVars()
    }

    /** The iterate lies inside its bounds, and the differences are those of its bounds. */
    ghost predicate Prepared()
      reads this`iterate, this`trustRadius, this`lowerDiff, this`upperDiff
    {
      && Shaped() && iterate.Fits(problem) && trustRadius >= 0.0
      && lowerDiff.Valid() && upperDiff.Valid() && lowerDiff.dim == upperDiff.dim == problem.NumVars()
      && lowerDiff.Dense() == LinComb(1.0, problem.varsLb.Dense(), -1.0, iterate.primal.Dense())
      && upperDiff.Dense() == LinComb(1.0, problem.varsUb.Dense(), -1.0, iterate.primal.Dense())
      && forall j :: 0 <= j < problem.NumVars() ==> problem.varsLb.At(j) <= iterate.primal.At(j) <= problem.varsUb.At(j)
    }

    /** Variables whose finite bounds agree are marked. */
    ghost predicate Marked()
      reads fixedVars
    {
      && Shaped()
      && forall j :: 0 <= j < fixedVars.Length ==>
           (fixedVars[j] <==> problem.varsLb.At(j) == problem.varsUb.At(j)
                              && -infinity < 2.0 * problem.varsLb.At(j) < infinity)
    }

    constructor (problem: Problem, infinity: real, iterate: EvaluatedPoint)
      requires problem.Valid()
      ensures Shaped() && Marked() && fresh(varStates) && fresh(fixedVars) && this.problem == problem
    {
      var n := problem.NumVars();
      this.problem, this.infinity, this.iterate := problem, infinity, iterate;
      varStates := new ActiveState[n];
      fixedVars := new bool[n];
      trustRadius, objective := 0.0, 0.0;
      lowerDiff, upperDiff, direction, duals := Empty(n), Empty(n), Empty(n), Empty(n);
      new;
      ComputeFixedVars();
    }

    /** compute_fixed_vars */
    method ComputeFixedVars()
      requires Shaped()
      modifies fixedVars
      ensures Marked()
    {
      hide Vec.At;
      var kL, kU := 0, 0;
      for j := 0 to problem.NumVars()
        invariant problem.varsLb.Cursor(kL, j) && problem.varsUb.Cursor(kU, j)
        invariant forall i :: 0 <= i < j ==>
          (fixedVars[i] <==> IsFinite(problem.varsLb.At(i), infinity) && IsFinite(problem.varsUb.At(i), infinity)
                             && problem.varsLb.At(i) == problem.varsUb.At(i))
      {
        var lVal, uVal;
        lVal, kL := ReadNext(problem.varsLb, kL, j);
        uVal, kU := ReadNext(problem.varsUb, kU, j);
        fixedVars[j] := IsFinite(lVal, infinity) && IsFinite(uVal, infinity) && lVal == uVal;
      }
    }

    /** set_iterate and compute_diffs; that the iterate lies inside its bounds is asserted there */
    method SetIterate(iterate: EvaluatedPoint, trustRadius: real)
      requires Shaped() && iterate.Fits(problem) && trustRadius >= 0.0
      requires forall j :: 0 <= j < problem.NumVars() ==>
        problem.varsLb.At(j) <= iterate.primal.At(j) <= problem.varsUb.At(j)
      modifies this`iterate, this`trustRadius, this`lowerDiff, this`upperDiff
      ensures Prepared() && this.iterate == iterate && this.trustRadius == trustRadius
    {
      hide Vec.At;
      this.iterate, this.trustRadius := iterate, trustRadius;
      lowerDiff := AddScaled(problem.varsLb, iterate.primal, 1.0, -1.0);
      upperDiff := AddScaled(problem.varsUb, iterate.primal, 1.0, -1.0);
    }

    /** The stored direction, duals, states and objective are the closed-form solution for the iterate. */
    ghost predicate Solved()
      reads this, varStates, fixedVars
    {
      && Prepared() && Marked()
      && IsSolution(direction, duals, varStates[..], fixedVars[..], objective, iterate.objGrad.Dense(),
                    lowerDiff.Dense(), upperDiff.Dense(), trustRadius, iterate.objVal, problem.NumVars())
    }

    lemma PreparedFacts()
      requires Prepared()
      ensures Shaped() && iterate.objGrad.Valid() && lowerDiff.Valid() && upperDiff.Valid()
      ensures iterate.objGrad.dim == lowerDiff.dim == upperDiff.dim == problem.NumVars()
      ensures varStates.Length == fixedVars.Length == problem.NumVars()
      ensures iterate.objGrad.Cursor(0, 0) && lowerDiff.Cursor(0, 0) && upperDiff.Cursor(0, 0)
    {
    }

    lemma SolvedFrom()
      requires Prepared() && Marked() && iterate.objGrad.Valid() && lowerDiff.Valid() && upperDiff.Valid()
      requires IsSolution(direction, duals, varStates[..], fixedVars[..], objective, iterate.objGrad.Dense(),
                          lowerDiff.Dense(), upperDiff.Dense(), trustRadius, iterate.objVal, problem.NumVars())
      ensures Solved()
    {
    }

    /** box_constrained_cauchy_solve; its gradient and penalty arguments are not used by the source */
    method Solve()
      requires Prepared() && Marked()
      modifies this`direction, this`duals, this`objective, varStates
      ensures Solved()
    {
      hide *;
      PreparedFacts();
      ghost var g, l, u, f := iterate.objGrad.Dense(), lowerDiff.Dense(), upperDiff.Dense(), iterate.objVal;
      ghost var fixed := fixedVars[..];
      direction, duals := Empty(problem.NumVars()), Empty(problem.NumVars());
      objective := iterate.objVal;
      NothingSolved(varStates[..], fixed, g, l, u, trustRadius, f);
      var kL, kU, kG := 0, 0, 0;
      for j := 0 to problem.NumVars()
        invariant lowerDiff.Cursor(kL, j) && upperDiff.Cursor(kU, j) && iterate.objGrad.Cursor(kG, j)
        invariant IsSolution(direction, duals, varStates[..], fixed, objective, g, l, u, trustRadius, f, j)
      {
        var lVal, uVal, gVal;
        lVal, kL := ReadNext(lowerDiff, kL, j);
        uVal, kU := ReadNext(upperDiff, kU, j);
        gVal, kG := ReadNext(iterate.objGrad, kG, j);
        SolveCoordinate(j, gVal, lVal, uVal, g, l, u, f, fixed);
      }
      SolvedFrom();
    }

    /** What the solution means: among all steps inside the bounds and the trust region it has the least slope, the
        objective is the exact value of the linear model, the duals cancel the gradient at active entries, and they are
        supported by the states. */
    lemma SolutionIsOptimal()
      requires Solved()
      ensures IsBestStep(objective, iterate.objVal, iterate.objGrad.Dense(), direction.Dense(), duals.Dense(),
                         lowerDiff.Dense(), upperDiff.Dense(), varStates[..], fixedVars[..], trustRadius)
    {
      DiffsMean();
      hide Vec.At, Allowed, IsBestStep, Supports, SupportsAll, EndsAt;
      SolutionMeans(direction, duals, varStates[..], fixedVars[..], objective, iterate.objGrad.Dense(),
                    lowerDiff.Dense(), upperDiff.Dense(), trustRadius, iterate.objVal);
    }

    /** Active states name the bounds of the problem that the step reaches. */
    lemma StatesNameBounds()
      requires Solved()
      ensures direction.dim == problem.NumVars() && direction.Valid()
      ensures forall j :: 0 <= j < problem.NumVars() ==>
        ReachesBound(varStates[j], iterate.primal.At(j) + direction.Dense()[j], problem.varsLb.At(j),
                     problem.varsUb.At(j))
    {
      SolutionIsOptimal();
      DiffsMean();
      SolutionFacts(direction, duals, varStates[..], fixedVars[..], objective, iterate.objGrad.Dense(),
                    lowerDiff.Dense(), upperDiff.Dense(), trustRadius, iterate.objVal, problem.NumVars());
      BestStepReaches(objective, iterate.objVal, iterate.objGrad.Dense(), direction.Dense(), duals.Dense(),
                      lowerDiff.Dense(), upperDiff.Dense(), varStates[..], fixedVars[..], trustRadius);
      hide Prepared, Marked, Vec.At, IsBestStep, IsSolution;
      forall j | 0 <= j < problem.NumVars()
        ensures ReachesBound(varStates[j], iterate.primal.At(j) + direction.Dense()[j], problem.varsLb.At(j),
                             problem.varsUb.At(j))
      {
        assert ReachesBound(varStates[..][j], direction.Dense()[j], lowerDiff.Dense()[j], upperDiff.Dense()[j]);
      }
    }

    lemma DiffsMean()
      requires Prepared() && Marked()
      ensures var l, u := lowerDiff.Dense(), upperDiff.Dense();
        forall j :: 0 <= j < problem.NumVars() ==>
          && l[j] == problem.varsLb.At(j) - iterate.primal.At(j) && u[j] == problem.varsUb.At(j) - iterate.primal.At(j)
          && l[j] <= 0.0 <= u[j] && (fixedVars[j] ==> l[j] == u[j])
    {
      hide Vec.At;
    }

    /** One coordinate of the solution. */
    method SolveCoordinate(j: nat, gVal: real, lVal: real, uVal: real, ghost g: Vector, ghost l: Vector,
                           ghost u: Vector, ghost f: real, ghost fixed: seq<bool>)
      requires IsSolution(direction, duals, varStates[..], fixed, objective, g, l, u, trustRadius, f, j) && j < |g|
      requires fixed == fixedVars[..] && gVal == g[j] && lVal == l[j] && uVal == u[j]
      modifies this`direction, this`duals, this`objective, varStates
      ensures IsSolution(direction, duals, varStates[..], fixed, objective, g, l, u, trustRadius, f, j + 1)
    {
      ghost var d0, y0, s0, o0 := direction, duals, varStates[..], objective;
      SolutionFacts(d0, y0, s0, fixed, o0, g, l, u, trustRadius, f, j);
      hide *;
      var state, move := ChooseMove(gVal, lVal, uVal, trustRadius, fixedVars[j]);
      varStates[j] := state;
      direction := Push(direction, j, move);
      if state != Inactive { duals := Push(duals, j, -gVal); }
      objective := objective + Times(move, gVal);
      assert varStates[..] == s0[j := state];
      SolutionStep(d0, y0, s0, fixed, o0, g, l, u, trustRadius, f, j, state, move, direction, duals, objective);
    }

    /** working_set: the active variables in order */
    method BuildWorkingSet(workingSet: WorkingSet)
      requires Shaped() && workingSet.Shaped() && workingSet.varStates.Length == problem.NumVars()
      requires varStates != workingSet.varStates && varStates != workingSet.consStates
      modifies workingSet, workingSet.Repr()
      ensures HoldsStates(workingSet, varStates[..])
    {
      ghost var states := varStates[..];
      hide Sets.WellFormed, NoneAdded, WorkingSet.View, WorkingSet.Valid, HoldsFirst, HoldsStates;
      workingSet.Reset();
      AddNone(workingSet, states);
      AddAllActive(workingSet, varStates);
      AddedAll(workingSet, states);
    }
  }

  /** The loop of working_set. */
  method AddAllActive(workingSet: WorkingSet, varStates: array<ActiveState>)
    requires HoldsFirst(workingSet, varStates[..], 0)
    requires varStates != workingSet.varStates && varStates != workingSet.consStates
    modifies workingSet, workingSet.Repr()
    ensures varStates[..] == old(varStates[..]) && HoldsFirst(workingSet, varStates[..], varStates.Length)
  {
    hide HoldsFirst, NoneAdded, Sets.WellFormed, WorkingSet.View, WorkingSet.Valid;
    ghost var states := varStates[..];
    for j := 0 to varStates.Length
      invariant varStates[..] == states && HoldsFirst(workingSet, states, j)
    {
      AddActive(workingSet, j, varStates[j], states);
    }
  }

  /** One variable of the working set. */
  method AddActive(workingSet: WorkingSet, j: nat, state: ActiveState, ghost states: seq<ActiveState>)
    requires HoldsFirst(workingSet, states, j) && j < |states| && state == states[j]
    modifies workingSet, workingSet.Repr()
    ensures HoldsFirst(workingSet, states, j + 1)
  {
    AddNext(workingSet.View(), states, j);
    hide Sets.WellFormed, NoneAdded, Apply, Legal, WorkingSet.View, WorkingSet.Valid;
    if state != Inactive { var error := workingSet.AddVar(j, state); }
  }

  /** The working set holds exactly the active ones among the first j variables, in order. */
  ghost predicate NoneAdded(s: Sets, states: seq<ActiveState>, j: nat)
  {
    && s.WellFormed() && s.numActiveVars == s.Size() && s.NumVars() == |states| && j <= |states|
    && (forall i :: 0 <= i < j ==> s.varStates[i] == states[i])
    && (forall i :: j <= i < |states| ==> s.varStates[i] == Inactive)
    && Increasing(s.content, 0) && (forall k :: 0 <= k < s.Size() ==> s.content[k] < j)
  }

  /** The object holds exactly the active ones among the first j variables. */
  ghost predicate HoldsFirst(workingSet: WorkingSet, states: seq<ActiveState>, j: nat)
    reads workingSet, workingSet.Repr()
  {
    workingSet.Valid() && NoneAdded(workingSet.View(), states, j)
  }

  lemma AddNone(workingSet: WorkingSet, states: seq<ActiveState>)
    requires workingSet.Valid() && workingSet.View() == EmptySets(|states|, workingSet.consStates.Length)
    ensures HoldsFirst(workingSet, states, 0)
  {
    EmptyWellFormed(|states|, workingSet.consStates.Length);
  }

  /** The working set has exactly the given variable states, no constraints, and its positions in order. */
  ghost predicate HoldsStates(workingSet: WorkingSet, states: seq<ActiveState>)
    reads workingSet, workingSet.Repr()
  {
    && workingSet.Valid() && workingSet.View().varStates == states && workingSet.numActiveCons == 0
    && Increasing(workingSet.View().content, 0)
  }

  lemma AddedAll(workingSet: WorkingSet, states: seq<ActiveState>)
    requires HoldsFirst(workingSet, states, |states|)
    ensures HoldsStates(workingSet, states)
  {
    hide Sets.WellFormed;
  }

  lemma AddNext(s: Sets, states: seq<ActiveState>, j: nat)
    requires NoneAdded(s, states, j) && j < |states|
    ensures states[j] == Inactive ==> NoneAdded(s, states, j + 1)
    ensures states[j] != Inactive ==> Legal(s, AddVar(j, states[j])) && s.WellFormed()
    ensures states[j] != Inactive ==> s.WellFormed() && NoneAdded(Apply(s, AddVar(j, states[j])), states, j + 1)
  {
    if states[j] != Inactive {
      ApplyWellFormed(s, AddVar(j, states[j]));
      hide Inverse, Count;
    }
  }

  // ----- the solution as a value

  ghost predicate IsSolution(direction: Vec, duals: Vec, states: seq<ActiveState>, fixed: seq<bool>, objective: real,
                             g: Vector, l: Vector, u: Vector, radius: real, f: real, k: nat)
  {
    && |g| == |l| == |u| == |states| == |fixed| && k <= |g|
    && direction.Valid() && direction.dim == |g| && duals.Valid() && duals.dim == |g|
    && (forall p :: 0 <= p < |direction.indices| ==> direction.indices[p] < k)
    && (forall p :: 0 <= p < |duals.indices| ==> duals.indices[p] < k)
    && (forall j :: 0 <= j < k ==> direction.At(j) == Choice(g[j], l[j], u[j], radius))
    && (forall j :: 0 <= j < k ==> duals.At(j) == ChoiceDual(g[j], l[j], u[j], radius))
    && (forall j :: 0 <= j < k ==> states[j] == ChoiceState(g[j], l[j], u[j], radius, fixed[j]))
    && objective == f + DotTo(g, Moves(g, l, u, radius), k)
  }

  lemma NothingSolved(states: seq<ActiveState>, fixed: seq<bool>, g: Vector, l: Vector, u: Vector, radius: real,
                      f: real)
    requires |g| == |l| == |u| == |states| == |fixed|
    ensures IsSolution(Empty(|g|), Empty(|g|), states, fixed, f, g, l, u, radius, f, 0)
  {
  }

  lemma SolutionFacts(direction: Vec, duals: Vec, states: seq<ActiveState>, fixed: seq<bool>, objective: real,
                      g: Vector, l: Vector, u: Vector, radius: real, f: real, k: nat)
    requires IsSolution(direction, duals, states, fixed, objective, g, l, u, radius, f, k)
    ensures |g| == |l| == |u| == |states| == |fixed| == direction.dim == duals.dim && direction.Valid() && duals.Valid()
    ensures forall p :: 0 <= p < |direction.indices| ==> direction.indices[p] < k
    ensures forall p :: 0 <= p < |duals.indices| ==> duals.indices[p] < k
  {
  }

  lemma SolutionStep(d0: Vec, y0: Vec, s0: seq<ActiveState>, fixed: seq<bool>, o0: real, g: Vector, l: Vector,
                     u: Vector, radius: real, f: real, j: nat, state: ActiveState, move: real, d: Vec, y: Vec, o: real)
    requires IsSolution(d0, y0, s0, fixed, o0, g, l, u, radius, f, j) && j < |g|
    requires state == ChoiceState(g[j], l[j], u[j], radius, fixed[j]) && move == Choice(g[j], l[j], u[j], radius)
    requires forall p :: 0 <= p < |d0.indices| ==> d0.indices[p] < j
    requires forall p :: 0 <= p < |y0.indices| ==> y0.indices[p] < j
    requires d == Push(d0, j, move) && y == (if state == Inactive then y0 else Push(y0, j, -g[j]))
    requires o == o0 + Times(move, g[j])
    ensures IsSolution(d, y, s0[j := state], fixed, o, g, l, u, radius, f, j + 1)
  {
    ObjectiveStep(g, l, u, radius, j);
    if state == Inactive { AbsentAt(y0, j); }
    hide Vec.At, Vec.Valid, Moves, DotTo, Choice;
  }

  /** d is allowed and no allowed step has a smaller slope, the objective is that of the linear model, the states name
      exactly the reached ends of [l, u], the duals y cancel the gradient there and have the signs the states allow. */
  ghost predicate IsBestStep(objective: real, f: real, g: Vector, d: Vector, y: Vector, l: Vector, u: Vector,
                             states: seq<ActiveState>, fixed: seq<bool>, radius: real)
  {
    && |g| == |d| == |y| == |l| == |u| == |states| == |fixed|
    && Allowed(d, l, u, radius) && objective == f + Dot(g, d)
    && (forall e :: |e| == |d| && Allowed(e, l, u, radius) ==> Dot(g, d) <= Dot(g, e))
    && SupportsAll(states, y)
    && (forall j :: 0 <= j < |d| ==> ReachesBound(states[j], d[j], l[j], u[j]))
    && (forall j :: 0 <= j < |d| && states[j] != Inactive ==> g[j] + y[j] == 0.0)
    && (forall j :: 0 <= j < |d| ==> EndsAt(states[j], fixed[j], g[j], d[j], y[j], l[j], u[j], radius))
  }

  lemma BestStepReaches(objective: real, f: real, g: Vector, d: Vector, y: Vector, l: Vector, u: Vector,
                        states: seq<ActiveState>, fixed: seq<bool>, radius: real)
    requires IsBestStep(objective, f, g, d, y, l, u, states, fixed, radius)
    ensures |d| == |l| == |u| == |states|
    ensures forall j :: 0 <= j < |d| ==> ReachesBound(states[j], d[j], l[j], u[j])
  {
  }

  lemma SolutionMeans(direction: Vec, duals: Vec, states: seq<ActiveState>, fixed: seq<bool>, objective: real,
                      g: Vector, l: Vector, u: Vector, radius: real, f: real)
    requires IsSolution(direction, duals, states, fixed, objective, g, l, u, radius, f, |g|) && radius >= 0.0
    requires forall j :: 0 <= j < |g| ==> l[j] <= 0.0 <= u[j] && (fixed[j] ==> l[j] == u[j])
    ensures IsBestStep(objective, f, g, direction.Dense(), duals.Dense(), l, u, states, fixed, radius)
  {
    assert direction.Dense() == Moves(g, l, u, radius);
    hide Vec.At, Vec.Valid, Allowed, Supports, Choice, ChoiceState, ChoiceDual, Moves, Dot, EndsAt;
    MovesAreBest(g, l, u, radius);
    forall j | 0 <= j < |g|
      ensures Supports(states[j], duals.Dense()[j])
      ensures ReachesBound(states[j], direction.Dense()[j], l[j], u[j])
      ensures states[j] != Inactive ==> g[j] + duals.Dense()[j] == 0.0
      ensures EndsAt(states[j], fixed[j], g[j], direction.Dense()[j], duals.Dense()[j], l[j], u[j], radius)
    {
      ChoiceSupports(g[j], l[j], u[j], radius, fixed[j]);
    }
    assert DotTo(g, Moves(g, l, u, radius), |g|) == Dot(g, Moves(g, l, u, radius))
      by { WholeDot(g, Moves(g, l, u, radius)); }
  }

  lemma WholeDot(x: Vector, y: Vector)
    requires |x| == |y|
    ensures DotTo(x, y, |x|) == Dot(x, y)
  {
  }

  /** The branches of one coordinate. */
  method ChooseMove(gVal: real, lVal: real, uVal: real, radius: real, fixed: bool)
    returns (state: ActiveState, move: real)
    ensures state == ChoiceState(gVal, lVal, uVal, radius, fixed) && move == Choice(gVal, lVal, uVal, radius)
  {
    var ngVal := -gVal;
    if ngVal >= 0.0 {
      if radius < uVal {
        state, move := Inactive, radius;
      } else {
        state, move := if fixed then ActiveBoth else ActiveUpper, uVal;
      }
    } else {
      if lVal < -radius {
        state, move := Inactive, -radius;
      } else {
        state, move := if fixed then ActiveBoth else ActiveLower, lVal;
      }
    }
  }

  lemma ObjectiveStep(g: Vector, l: Vector, u: Vector, radius: real, j: nat)
    requires |g| == |l| == |u| && j < |g|
    ensures DotTo(g, Moves(g, l, u, radius), j + 1)
         == DotTo(g, Moves(g, l, u, radius), j) + Times(Choice(g[j], l[j], u[j], radius), g[j])
  {
    var d := Choice(g[j], l[j], u[j], radius);
    assert g[j] * d == d * g[j];
  }

  /** sleqp_is_finite */
  predicate IsFinite(value: real, infinity: real) { !(Abs(value) >= infinity / 2.0) }
}
