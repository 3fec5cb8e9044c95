# A verified model of SLEQP's numerical kernels

SLEQP is an active-set solver for nonlinear programs. This project models the sparse kernels at its centre and proves
what they compute: the line searches that choose a step between the Cauchy and the Newton direction, the three
implementations of the augmented Jacobian with their factorisation cache, the working sets they are built from, the
users of that system (trust-region split, Gauss-Newton operator, box-constrained Cauchy step, polishing), and the two
problem transformations that have to preserve meaning (scaling and restoration).

## How the model is built

A double is a `real`, and the tolerance below which sparse vectors drop entries is zero. A sparse vector is the
immutable value `SparseVec.Vec`: a dimension and two parallel lists with strictly increasing indices; its `Dense()` form
is what the properties talk about. `SparseMat.Mat` is a column-compressed matrix with the same discipline. Objects with
state (directions, line search, working sets, the augmented Jacobians, working step, Gauss-Newton solver, Cauchy solver,
iterate, scaled problem, restoration function) are classes whose methods update fields and arrays in place: buffers that
the source allocates once and overwrites (breakpoints, row counts, offsets, column indices, values, dense caches, states,
index maps) are arrays, vectors held by an object are fields that are reassigned.

Each loop is proved against a dense or closed-form definition, and the meaning of that definition is proved separately:

| modules | what they hold |
|---|---|
| `LinearAlgebra`, `SparseVec`, `SparseMat`, `MatrixPush`, `Problems`, `Comparisons`, `FiniteSets` | dense algebra, sparse data and the merge cursors shared by all kernels |
| `Feasibility` | violations, residuals and multipliers of constraint values |
| `Hinges`, `Sweep`, `ExactSearchTheory`, `SearchTails`, `SearchRuns` | breakpoints, the exact sweep, when it finds the minimum of the merit, and complete runs of it |
| `BacktrackTheory`, `CauchyOutcome`, `TrialTheory`, `TrialSearches`, `StepLength`, `Directions`, `LineSearch` | merit functions, both backtracking loops and what their results are worth |
| `WorkingSets`, `Polishing`, `WorkingMatrices` | working sets over runs of operations, polishing, the matrix A_W |
| `RowForm`, `RowKernels`, `GramMatrix`, `ReducedAugJac` | counting transposition to rows, product A_W A_W^T, the reduced system |
| `AugMatrix`, `UpperFill`, `UpperKernels`, `AugFill`, `MatBuffers`, `AugAssembly`, `StandardAugJac` | the system [[I, A_W^T], [A_W, 0]] and its in-place completion |
| `AugJacSpec`, `Factorisations`, `BoxAugJac`, `AugJacVariants` | the specification of the three solves, the factorisation they call, the unit-row variant, the variants side by side |
| `WorkingSteps`, `RowRemoval`, `GaussNewton`, `BoxCauchy` | users of the specification |
| `Optimality`, `Scaling`, `KktTransport`, `ScaledOperators`, `ProblemScaling`, `Restoration` | residuals of an iterate and the two transformations |

Square roots, the factorisation's solver and the user's callbacks are function values about which only their defining
property is required (`IsSqrt`, `Fact.Exact`, `Evaluates`). Powers of two are exact: `ldexp(x, k)` is `x * Pow2(k)`.

## Where the code does less than its purpose suggests

These are modelled as the code has them. Where a purpose is missed on some input, the input is given together with the
exact condition under which it is met.

- `src/main/linesearch.c:664` ends the collection of breakpoints when either vector ends. The exact search therefore
  minimises the merit without the constraints behind that point. `Slacks.CleanTails` says that none of them is or
  becomes violated; `AlwaysMinimisesIffCleanTails` proves that this is exactly when every search with these constraints
  minimises the merit, whatever the objective. `TailRun` is a valid problem with two steps on which the search returns a
  direction that is worse than the Cauchy direction.
- `src/main/util.c:166` and `src/main/util.c:215` do not stop a coordinate that sits on a bound and moves out of the box.
  `MaxStepLength` is admissible exactly when no coordinate is blocked in this way; `BlockedCoordinateEscapes` is the input.
- `src/main/linesearch.c:292-295` returns the zero direction with the merit of the last tested step. `ReportedMeritIff`
  says exactly when the reported merit is that of the returned direction; `AcceptedIff` and `AcceptedWithin` give the
  conditions on the input under which the search accepts and so reports the right merit; `SteepSearchGivesUp` is a family
  of inputs, for all tolerances and factors, on which it never does, and `ReportedMeritMayDiffer` is one with factor 1/2
  and a smaller tolerance.
- `src/main/linesearch.c:432-443` leaves the penalty out of the slope of the approximate search. `EstimateIff` says
  exactly when this makes no difference, `PenalisedSlopeBelow` that the penalised slope bounds the merit from below. A
  step is accepted up to a line with the estimated slope: `NeverWorseIff` proves that the result is never worse than the
  Cauchy direction, over all directions with this estimate and all first steps, if and only if the estimate is no ascent.
  `TrialMayBeWorse` is an input with a positive estimate and a negative penalised slope on which it is worse.
- `src/main/working_step.c:380-388` takes the root of a negative number when the comparison tolerance exceeds 0.2:
  `UnscaledFitsIff` proves that 0.2 is the exact limit.
- `src/main/working_set.c:284-446` never compares the index maps with the content. `WellFormedIff` proves that this
  comparison is exactly what is missing, and `RunIsChecked` that every set of every legal run is well-formed and passes;
  `CheckedIsNotWellFormed` is a set, reached by no such run, that passes without being well-formed.
- `src/main/scale.c:309-316` scales the gradient of a least-squares objective with the factor of a plain objective:
  `LsqGradientAgreesIff` proves when this is the gradient of the scaled objective, `LsqGradientMayDiffer` is an input on
  which it is not.

## Model

| member | source | states |
|---|---|---|
| Feasibility.TotalViolation | src/main/feas.c:393-454 | the merge of values and bounds yields the sum of the absolute signed residuals |
| Feasibility.MaxViolation | src/main/feas.c:329-390 | the merge yields the largest absolute residual |
| Feasibility.ViolationValues | src/main/feas.c:148-216 | every entry is the signed residual, zero where the bounds hold |
| Feasibility.FeasibilityResiduals | src/main/feas.c:219-304 | signed or absolute residuals outside the working set, zero inside it, no stored zeros |
| Feasibility.ViolatedMultipliers | src/main/feas.c:7-77 | entries +1 and -1 are the signs of the residuals outside the working set |
| Feasibility.ViolatedConstraints | src/main/feas.c:80-145 | the list is ascending and holds exactly the violated indices |
| Feasibility.ViolationZeroIffFeasible | src/main/feas.c:329-454 | total and largest violation vanish exactly at feasible values |
| Feasibility.TotalConvex | src/main/feas.c:393-454 | the total violation is convex along every segment |
| Feasibility.SignsAreSubgradient | src/main/feas.c:7-77 | the multipliers are a subgradient of the total violation for all perturbations |
| Directions.CombineLinearises | src/main/direction.c:196-229 | linear combinations of directions keep slope, constraint change and Hessian product consistent with the step |
| Directions.Direction.Reset | src/main/direction.c:45-82 | all parts of the direction are the images of the step under gradient, Jacobian and Hessian |
| Directions.Direction.AddScaled | src/main/direction.c:196-229 | all four parts are combined with the same two factors |
| Directions.MeritQuadratic | src/main/merit.c:114-137 | objective plus slope plus penalised violation of the linearised constraints plus half the curvature |
| Hinges.KinkRepresents | src/main/linesearch.c:684-717 | on [0, 1] the positive part of v + t*d is its start value, its start slope and one hinge at its breakpoint |
| Hinges.NothingMissedIffNoTail | src/main/linesearch.c:664 | what the loop leaves out vanishes on all of [0, 1] if and only if no tail entry is or becomes positive |
| LineSearch.LineSearch.CollectBreakpoints | src/main/linesearch.c:646-721 | one pass appends exactly the breakpoints of its entries up to the end of the shorter vector and adds their violation and slope |
| LineSearch.LineSearch.ComputeBreakpoints | src/main/linesearch.c:723-791 | the sorted list is a permutation of the breakpoints of upper and lower slacks, at most 2m+1 long, inside [0, 1], ending at 1 |
| ExactSearchTheory.BreakPointsRepresent | src/main/linesearch.c:646-791 | violation + t*slope + sum of hinges equals the collected violation for all t in [0, 1] |
| ExactSearchTheory.RepresentsAllIffCleanTails | src/main/linesearch.c:646-791 | the list represents the whole violation of c + t*J*d on [0, 1] if and only if the tails are clean |
| LineSearch.SortBreakpoints | src/main/linesearch.c:785-788 | sorted by point and a permutation of what was there |
| Sweep.SegmentMinimum | src/main/linesearch.c:959-1008 | on a segment a quadratic of any curvature is at least the least of its values at the ends and at an interior stationary point |
| Sweep.MinimiseOverBreakpoints | src/main/linesearch.c:950-1014 | the sweep returns a point of [0, 1] and the value of the piecewise quadratic there, and no t in [0, 1] has a smaller value |
| ExactSearchTheory.MeritIsPiecewise | src/main/linesearch.c:860-948 | the quadratic merit along the segment is the piecewise quadratic of the sweep plus the penalised violation left out |
| ExactSearchTheory.MinimumOfMerit | src/main/linesearch.c:793-1051 | the minimum of the piecewise quadratic is the minimum of the collected merit |
| ExactSearchTheory.CleanMinimum | src/main/linesearch.c:793-1051 | with clean tails the step length globally minimises the quadratic merit over the segment and the value is exact |
| ExactSearchTheory.MinimumBeatsBothEnds | src/main/linesearch.c:793-1051 | the value is the merit of the returned direction and never above the merit of the Cauchy or of the Newton direction |
| SearchTails.AlwaysMinimisesIffCleanTails | src/main/linesearch.c:664 | given values, bounds and changes of the constraints and a positive penalty: every result of the search, for every objective and all consistent steps, minimises the merit if and only if the tails are clean |
| SearchTails.DirtyTailsMislead | src/main/linesearch.c:664 | the other half by itself: with any violated left-out constraint there are an objective and steps on which the search misses the minimum |
| SearchRuns.ResetDirectionsAreConsistent | src/main/linesearch.c:793-1051 | two directions reset at the iterate with one symmetric Hessian are all that the exact search asks for |
| SearchRuns.SearchBetween | src/main/linesearch.c:793-1051 | for every valid problem and iterate, all steps and every symmetric Hessian: the linearised directions are built and the search returns the minimum stated for it |
| SearchTails.TailMisleads | src/main/linesearch.c:664 | on one input every result of the search is the Newton direction with reported merit -1, true merit 1 and Cauchy merit 0 |
| SearchRuns.TailRun | src/main/linesearch.c:664 | that input as a valid problem with an iterate and two steps, and the search on it |
| LineSearch.LineSearch.TrialStepExact | src/main/linesearch.c:793-1051 | from the two directions alone: global minimum of the collected merit for every input, of the merit itself with clean tails, and the trial direction is the segment point of that length |
| BacktrackTheory.ReductionConcave | src/main/linesearch.c:263-266 | shrinking a step by s keeps at least the fraction s of the predicted linear decrease, by convexity of the violation |
| BacktrackTheory.AcceptedBy | src/main/linesearch.c:221-288 | the test passes at every k with tau^k times the curvature at most 2(1 - eta) times the first linear reduction |
| BacktrackTheory.AcceptedDecrease | src/main/linesearch.c:259-266 | an accepted step lowers the quadratic merit by at least eta times its linear decrease |
| CauchyOutcome.AcceptedIff | src/main/linesearch.c:221-288 | the loop accepts exactly if some step before the limit passes the test and no step up to it is too short |
| CauchyOutcome.TooShortIff | src/main/linesearch.c:217-296 | the search gives up with the zero direction if and only if some step up to the limit is the first one not above eps and no step before it passes the test |
| CauchyOutcome.AcceptedWithin | src/main/linesearch.c:221-288 | with tau^k times the curvature at most 2(1 - eta) times the first linear reduction there are at most k rejections; the loop ends earlier only with a step of at most eps, and accepts if no step up to the k-th is that short |
| CauchyOutcome.OutcomeKeepsPromise | src/main/linesearch.c:221-302 | every outcome of the loop keeps this bound for every k, and an accepted one reports the exact merit, lowered by at least eta times the linear decrease |
| CauchyOutcome.ReportedMeritIff | src/main/linesearch.c:284-302 | below the iteration limit the reported merit is that of the returned direction if and only if the step was accepted or half the curvature of the last tested step equals its linear reduction |
| CauchyOutcome.RejectedMerit | src/main/linesearch.c:259-266 | the merit of a rejected step is above the exact merit less eta times its linear decrease |
| CauchyOutcome.SteepSearchGivesUp | src/main/linesearch.c:221-302 | for all eta, tau and eps: with a curvature of 4/eps against a slope of one no step is accepted, and a search that gives up reports more than the merit of the direction it returns |
| CauchyOutcome.ReportedMeritMayDiffer | src/main/linesearch.c:292-295 | an outcome with tau = 1/2 and eps = 1/4 that reports 3/2 for a direction of merit 0 |
| LineSearch.LineSearch.CauchyStep | src/main/linesearch.c:152-315 | all four parts end up multiplied by one factor; the first tested factor is the largest one up to one that the trust region allows, so a direction that has to be shortened starts on its boundary; factor, number of rejections and reported merit are those of the first step that passes the test, the rejections are bounded by the fall of the curvature, and an accepted step lowers the merit by eta times the linear decrease |
| StepLength.MaxStepLength | src/main/util.c:126-242 | the length is the largest one up to the start with which no coordinate passes a bound ahead of it, from any point; from a boxed point it is admissible exactly when no coordinate is blocked, and every longer one leaves the box |
| StepLength.LargestAdmissible | src/main/util.c:126-242 | the same about the closed form of the two passes |
| StepLength.LargestUnpassed | src/main/util.c:126-242 | the same about the bounds that lie ahead, whether the point is boxed or not |
| StepLength.ShorterStep | src/main/util.c:126-242 | a box that holds a step holds every shorter step, and a blocked coordinate leaves with every step |
| StepLength.BlockedCoordinateEscapes | src/main/util.c:166 | an input on which the returned length leaves the box |
| LineSearch.LineSearch.TrialStep | src/main/linesearch.c:317-644 | the search starts with the longest admissible step, rejects exactly the tried steps that fail the test, and takes the first one that passes, gives up with length zero at the first one not above the cutoff, or reaches the iteration limit; a taken step has its exact merit and stays in the box unless blocked; the merit is exact given the exact Cauchy merit, differs from the Cauchy merit by at most eta times step length times slope estimate, and is at most the Cauchy merit where the estimate is no ascent |
| TrialSearches.TrialAcceptedIff | src/main/linesearch.c:446-600 | a step is taken exactly if one of those before the limit is above the cutoff and passes the test |
| TrialSearches.TrialFinishedWithin | src/main/linesearch.c:446-600 | a step that has fallen to the cutoff bounds the number of rejections, and the loop then ends before the limit |
| TrialSearches.TrialLoopDetermined | src/main/linesearch.c:446-600 | first step, settings and segment leave only one result of the loop |
| TrialSearches.RejectedIsAbove | src/main/linesearch.c:558-592 | every rejected step has a merit strictly above the Cauchy merit plus eta times its length times the slope estimate |
| TrialSearches.NeverWorseIff | src/main/linesearch.c:432-443 | for eta > 0 and a cutoff below one: every result of the search, for all directions with the same estimate and from whatever first step, is at most the Cauchy merit if and only if the slope estimate is no ascent |
| TrialTheory.OutcomeKeepsTrialPromise | src/main/linesearch.c:317-644 | every result of the search: given the exact Cauchy merit the reported merit is exact; it exceeds the Cauchy merit by at most eta times step length times slope estimate, and where the slope estimate is no ascent it is at most the Cauchy merit |
| TrialTheory.EstimateIff | src/main/linesearch.c:432-443 | the slope estimate is the slope with the penalty if and only if the penalty is one or the violated constraints do not change to first order |
| TrialTheory.EstimateIsUnitSlope | src/main/linesearch.c:419-444 | the slope estimate is the slope of the merit whose penalty is one |
| TrialTheory.PenalisedSlopeBelow | src/main/linesearch.c:432-443 | the slope with the penalty and the curvature bound the merit along the whole segment from below |
| TrialTheory.TrialMayBeWorse | src/main/linesearch.c:432-443 | for every eta > 0 an input on which the full step passes the test with a merit above the Cauchy merit |
| WorkingSets.ApplyWellFormed | src/main/working_set.c:70-177 | every legal operation keeps index maps, content and states mutually inverse, variables before constraints |
| WorkingSets.RunWellFormed | src/main/working_set.c:70-177 | the same for every set after every step of every legal run of operations on several sets and copies between them |
| WorkingSets.RunIsChecked | src/main/working_set.c:283-446 | every such set passes the checks of valid() |
| WorkingSets.AppendKeepsOrder | src/main/working_set.c:150-177 | adding a constraint behind all active ones keeps constraints in index order |
| WorkingSets.WorkingSet.AddVar | src/main/working_set.c:116-148 | the variable is appended to the content and gets its state, nothing else changes, and the set stays well-formed; adding a variable behind a constraint fails and changes nothing |
| WorkingSets.WorkingSet.AddCons | src/main/working_set.c:150-177 | the constraint is appended to the content and gets its state, nothing else changes, and the set stays well-formed |
| WorkingSets.WorkingSet.Reset | src/main/working_set.c:70-89 | the empty set |
| WorkingSets.WorkingSet.CopyFrom | src/main/working_set.c:555-604 | the target has the value of the source, the source is unchanged |
| WorkingSets.WorkingSet.Eq | src/main/working_set.c:91-114 | true exactly when both index maps agree |
| WorkingSets.WorkingSet.IsValid | src/main/working_set.c:283-446 | the answer is exactly the conjunction of the checks made |
| WorkingSets.WellFormedIsChecked | src/main/working_set.c:283-446 | every well-formed set passes the checks |
| WorkingSets.WellFormedIff | src/main/working_set.c:283-446 | a set is well-formed if and only if it passes the checks and every index that is set points to its own entry of the content |
| WorkingSets.CheckedIsNotWellFormed | src/main/working_set.c:283-446 | a set that passes the checks and is not well-formed |
| WorkingSets.SupportsRange | src/main/working_set.c:448-489 | true exactly when every dual has a sign its state allows |
| WorkingSets.SupportsIff | src/main/working_set.c:448-489 | a dual is supported by a state if and only if no change that the named bound allows lowers an objective whose gradient the dual cancels |
| WorkingMatrices.SameIndicesSameMatrix | src/main/working_set.c:91-114 | sets that compare equal have the same matrix A_W |
| Polishing.CompactionUnique | src/main/polish.c:43-170 | a polished set is determined by the kept entries, positions included |
| Polishing.CompactionIdempotent | src/main/polish.c:43-240 | polishing again with the same choice changes nothing |
| Polishing.CompactionKeepsOrder | src/main/polish.c:43-240 | kept constraints end up in index order |
| Polishing.PolishKeepsSupport | src/main/polish.c:43-240 | both polishings keep the duals supported by the states |
| Polishing.RemovedIsDifference | src/main/polish.c:43-170 | removed and kept entries add up to what was active |
| Polishing.Polishing.PolishZeroDual | src/main/polish.c:211-240 | the set becomes the compaction whose states are the old ones where a dual is stored and inactive elsewhere, with exact removal counts |
| Polishing.Polishing.PolishInactive | src/main/polish.c:172-209 | the same, where the states also stay if the value is within the tolerance of one of its bounds, relative to the larger of both where that exceeds one; all others become inactive |
| Polishing.Polishing.OnBoundsNothingRemoved | src/main/polish.c:43-209 | a set whose active entries sit on the bounds their states name is polished without removals |
| Comparisons.IsEqMeans | src/main/cmp.c:7-47 | two values are equal up to the tolerance if and only if their distance is at most the tolerance times the larger of their absolute values and one |
| AugJacSpec.ReducedMinNorm | src/main/aug_jac/reduced_aug_jac.c:565-588 | a solution y of A A^T y = b makes A^T y the unique least-norm solution of A x = b, against every competitor |
| AugJacSpec.ReducedProjection | src/main/aug_jac/reduced_aug_jac.c:590-643 | a solution y of A A^T y = A r makes r - A^T y the unique closest null-space point and y a least-squares solution |
| AugJacSpec.StandardMinNorm | src/main/aug_jac/standard_aug_jac.c:306-350 | the top part of a solution with right-hand side (0, b) is the unique least-norm solution |
| AugJacSpec.StandardProjection | src/main/aug_jac/standard_aug_jac.c:352-435 | the parts of a solution with right-hand side (r, 0) are the projection and a least-squares solution |
| AugJacSpec.VariantsAgree | src/main/aug_jac/aug_jac.h:20-74 | the reduced and the standard system give equal least-norm and projection vectors |
| AugJacVariants.SolveBothMinNorm | src/main/aug_jac/aug_jac.h:20-38 | a reduced and a standard object set to the same working set and Jacobian return the same least-norm vector, leave the right-hand side as it was and keep their invariants |
| AugJacVariants.ProjectBoth | src/main/aug_jac/aug_jac.h:57-74 | the same for the projection |
| AugJacSpec.ProjectionSymmetric | src/main/aug_jac/aug_jac.h:57-74 | <P a, b> equals <a, P b> for the specified projection |
| AugJacSpec.MinNormOrthogonal | src/main/aug_jac/aug_jac.h:20-38 | the least-norm solution is orthogonal to the null space |
| RowKernels.ComputeRowCounts | src/main/aug_jac/reduced_aug_jac.c:112-160 | in place: row r counts the entries of working row r |
| RowKernels.UpdateRowCounts | src/main/aug_jac/reduced_aug_jac.c:175-193 | in place: counts become the offsets of the rows |
| RowKernels.FillSystem | src/main/aug_jac/reduced_aug_jac.c:195-259 | offsets, columns and values are a row form of A_W: unit rows, then active constraint rows, columns strictly increasing |
| RowForm.FilledIsRowForm | src/main/aug_jac/reduced_aug_jac.c:195-259 | a complete fill is a valid compressed matrix whose columns are exactly the rows of A_W |
| GramMatrix.InnerProduct | src/main/aug_jac/reduced_aug_jac.c:282-321 | the merge of two stored rows is their inner product |
| GramMatrix.MatrixGeneral | src/main/aug_jac/reduced_aug_jac.c:379-413 | the pushed matrix stores every entry of A_W A_W^T |
| GramMatrix.MatrixLower | src/main/aug_jac/reduced_aug_jac.c:323-377 | the pushed matrix stores the entries on and below the diagonal, using that the first rows are unit rows |
| GramMatrix.GramMeaning | src/main/aug_jac/reduced_aug_jac.c:323-413 | full and lower storage both mean A_W A_W^T to the factorisation |
| RowKernels.ComputeProduct | src/main/aug_jac/reduced_aug_jac.c:479-533 | the product of the stored rows with a sparse vector |
| RowKernels.ProductIsTransVec | src/main/aug_jac/reduced_aug_jac.c:535-563 | the stored rows, read as columns, multiply with A_W^T |
| RowKernels.AssembledOfIndices | src/main/aug_jac/reduced_aug_jac.c:432-477 | the stored system depends on the index maps of the working set only, which is why an equal comparison allows keeping it |
| RowKernels.AssembledUnique | src/main/aug_jac/reduced_aug_jac.c:432-477 | a rebuild from the same set and Jacobian gives the same arrays and the same matrix |
| ReducedAugJac.ReducedAugJac.SetIterate | src/main/aug_jac/reduced_aug_jac.c:432-477 | afterwards the stored rows, sizes and factored matrix are those of the given set and Jacobian whether or not anything was rebuilt, and the invariant of the cache holds again |
| ReducedAugJac.ReducedAugJac.SetCanSolve | src/main/aug_jac/reduced_aug_jac.c:432-643 | what set_iterate leaves behind is a system for the matrix A_W of the working set |
| ReducedAugJac.ReducedAugJac.SolveMinNorm | src/main/aug_jac/reduced_aug_jac.c:565-588 | the returned vector is the unique least-norm solution of A_W x = b; the invariant of the cache is kept |
| ReducedAugJac.ReducedAugJac.SolveLsq | src/main/aug_jac/reduced_aug_jac.c:590-609 | the returned vector minimises |r - A_W^T y|; the invariant of the cache is kept |
| ReducedAugJac.ReducedAugJac.ProjectNullspace | src/main/aug_jac/reduced_aug_jac.c:611-643 | the returned vector is the unique closest point to r in the null space of A_W; the invariant of the cache is kept |
| AugMatrix.KktMatrixVec | src/main/aug_jac/standard_aug_jac.c:135-237 | the dense [[I, A^T], [A, 0]] times (x, y) is (x + A^T y, A x) |
| AugAssembly.FillLower | src/main/aug_jac/standard_aug_jac.c:155-217 | the pushed columns are the identity with A_W below it |
| UpperKernels.CountUpper | src/main/aug_jac/standard_aug_jac.c:47-64 | in place: how many entries each lower row has |
| UpperKernels.SumUpper | src/main/aug_jac/standard_aug_jac.c:66-71 | in place: counts become column starts |
| UpperKernels.ScatterUpper | src/main/aug_jac/standard_aug_jac.c:73-101 | in place: every lower entry is copied to its transposed place, in order |
| UpperFill.FilledIsCompleted | src/main/aug_jac/standard_aug_jac.c:34-104 | the scattered arrays are a valid compressed matrix whose last columns are the transposed lower rows |
| AugFill.CompletedIsKkt | src/main/aug_jac/standard_aug_jac.c:34-237 | the completed matrix is exactly [[I, A_W^T], [A_W, 0]] |
| AugFill.LowerIsKkt | src/main/aug_jac/standard_aug_jac.c:135-237 | the lower triangle alone means the same matrix |
| AugAssembly.FillAugJac | src/main/aug_jac/standard_aug_jac.c:106-237 | for every order-preserving working set the buffer holds a valid, column-sorted matrix of the system |
| StandardAugJac.StandardAugJac.SetIterate | src/main/aug_jac/standard_aug_jac.c:239-293 | afterwards the factored matrix is that of the given set and Jacobian, stored entry by entry as a rebuild would store it, whether or not anything was rebuilt, and the invariant of the cache holds again |
| AugAssembly.SystemUnique | src/main/aug_jac/standard_aug_jac.c:239-293 | a rebuild from the same set and Jacobian gives the same columns, rows and data |
| AugAssembly.SystemOfIndices | src/main/aug_jac/standard_aug_jac.c:239-293 | what is stored depends on the index maps of the working set only |
| StandardAugJac.StandardAugJac.SetCanSolve | src/main/aug_jac/standard_aug_jac.c:239-435 | what set_iterate leaves behind is a system for the matrix A_W of the working set |
| StandardAugJac.StandardAugJac.SolveMinNorm | src/main/aug_jac/standard_aug_jac.c:306-350 | unique least-norm solution, and the right-hand side that was shifted and resized is back exactly as found |
| StandardAugJac.StandardAugJac.SolveLsq | src/main/aug_jac/standard_aug_jac.c:352-394 | least-squares solution, right-hand side exactly as found |
| StandardAugJac.StandardAugJac.ProjectNullspace | src/main/aug_jac/standard_aug_jac.c:396-435 | unique closest null-space point, right-hand side exactly as found |
| BoxAugJac.SolveMinNorm | src/main/aug_jac/box_constrained_aug_jac.c:26-47 | for sets of active variables only: the unique least-norm solution of A_W x = b |
| BoxAugJac.SolveLsq | src/main/aug_jac/box_constrained_aug_jac.c:49-72 | a least-squares solution |
| BoxAugJac.ProjectNullspace | src/main/aug_jac/box_constrained_aug_jac.c:74-99 | the unique closest null-space point |
| BoxAugJac.CauchySetIsBoxSet | src/main/aug_jac/box_constrained_aug_jac.c:26-99 | the working set of the box-constrained Cauchy step is such a set |
| WorkingSteps.ComputeInitialRhs | src/main/working_step.c:113-278 | every active entry has its distance to the active bound at its position |
| WorkingSteps.DirectionMeetsBounds | src/main/working_step.c:113-315 | any solution of A_W d equal to that right-hand side puts active variables on their bounds and active constraints on theirs to first order |
| WorkingSteps.WorkingStep.ComputeInitialDirection | src/main/working_step.c:280-315 | the stored direction is the unique least-norm one |
| WorkingSteps.UnscaledFitsIff | src/main/working_step.c:376-389 | an unscaled step always fits into the trust region if and only if the tolerance is at most 0.2 |
| WorkingSteps.WorkingStep.SplitTrustRegion | src/main/working_step.c:352-410 | the direction is left as it is, and flagged so, if and only if (1 - eps) times its norm is at most 0.8 of the radius; otherwise the step is the multiple of it with norm 0.8 of the radius, and 0.6 of the radius remains; inside the trust region the squares of step and remaining radius add up to the square of the radius, and up to eps = 0.2 the step is inside |
| WorkingSteps.SplitStaysInside | src/main/working_step.c:352-410 | in both branches the step plus any null-space vector within the remaining radius stays within the trust radius |
| WorkingSteps.WorkingStep.FillInitialStep | src/main/working_step.c:318-350 | slope and constraint change of the step are its images under gradient and Jacobian |
| WorkingSteps.WorkingStep.ComputeViolatedMultipliers | src/main/working_step.c:412-471 | values behind the step and the signs of their residuals outside the working set |
| GaussNewton.GaussNewtonSolver.ComputeRemovedCons | src/main/gauss_newton.c:305-333 | the removed constraints are exactly the complement of the violated ones, in order |
| RowRemoval.Ranks | src/main/gauss_newton.c:305-333 | below every index, kept and removed elements count up to it |
| RowRemoval.RemoveEntries | src/main/sparse/vec.c:620-654 | the result holds exactly the kept entries at their ranks |
| RowRemoval.RemoveRows | src/main/sparse/mat.c:490-538 | the result is a valid matrix whose rows are exactly the kept rows |
| GaussNewton.GaussNewtonSolver.ComputeConsMatrix | src/main/gauss_newton.c:278-303 | the stored rows are the Jacobian rows of the violated constraints times the penalty |
| GaussNewton.GaussNewtonSolver.ComputeConsRhs | src/main/gauss_newton.c:228-276 | minus penalty times the signed residuals of the violated constraints after the initial step |
| GaussNewton.ForwardAdjoint | src/main/gauss_newton.c:431-533 | <forward(d), y> equals <d, adjoint(y)> for all d and y, with the null-space projection inside both operators |
| GaussNewton.ForwardOnParts | src/main/gauss_newton.c:431-468 | on the null space of A_W the forward operator is the stacked matrix itself, on its row space it is zero |
| GaussNewton.GaussNewtonSolver.ForwardProduct | src/main/gauss_newton.c:431-468 | the computed product is the forward operator applied to the direction |
| GaussNewton.GaussNewtonSolver.AdjointProduct | src/main/gauss_newton.c:470-533 | the computed product is the adjoint operator applied to the direction |
| GaussNewton.ResidualOfStep | src/main/gauss_newton.c:201-303 | with the penalised rows and residuals of the violated constraints, the distance of the operator value from the right-hand side is the linearised residual after both steps and, per violated constraint, the penalty times the distance of its linearised value from the bound it violates |
| GaussNewton.GaussNewtonSolver.StoredConstraints | src/main/gauss_newton.c:228-303 | what compute_cons_matrix and compute_cons_rhs store are such rows and residuals |
| BoxCauchy.MovesAreBest | src/main/cauchy/box_constrained_cauchy.c:136-238 | the closed-form step is allowed and has the least slope among all steps within bounds and radius |
| BoxCauchy.ChoiceSupports | src/main/cauchy/box_constrained_cauchy.c:189-234 | a coordinate is inactive exactly if it stops short of the bound it moves to, otherwise its state names that bound, or both if it is fixed; duals have a supported sign and cancel the gradient wherever the radius is not what stops the move |
| BoxCauchy.BoxCauchy.Solve | src/main/cauchy/box_constrained_cauchy.c:136-238 | direction, duals, states and objective are the closed form of the stored iterate |
| BoxCauchy.BoxCauchy.SolutionIsOptimal | src/main/cauchy/box_constrained_cauchy.c:136-248 | optimality against every allowed step, objective exactly f + g*d, the direction of every move, inactive states exactly where the bound is not reached, the others naming it, duals that cancel the gradient there and wherever the radius is not reached, and that are supported |
| BoxCauchy.BoxCauchy.StatesNameBounds | src/main/cauchy/box_constrained_cauchy.c:189-234 | the point behind the step is on the bound that an active state names |
| BoxCauchy.BoxCauchy.BuildWorkingSet | src/main/cauchy/box_constrained_cauchy.c:250-272 | the working set holds exactly the active variables, in order |
| BoxCauchy.BoxCauchy.ComputeFixedVars | src/main/cauchy/box_constrained_cauchy.c:30-72 | exactly the variables are marked whose bounds agree and lie below half of infinity in absolute value |
| Optimality.Iterate.WriteStationarityResiduals | src/main/iterate.c:416-480 | the cache holds J^T y + z + g |
| Optimality.StationarityAlong | src/main/iterate.c:416-480 | along every direction these residuals give the slope of the Lagrangian |
| Optimality.Iterate.StationarityResiduum | src/main/iterate.c:498-517 | the largest absolute entry of J^T y + z + g |
| Optimality.Iterate.FeasibilityResiduum | src/main/iterate.c:390-399 | the largest absolute residual of the constraint values |
| Optimality.SlackResiduum | src/main/iterate.c:153-238 | the four-way merge, which may stop early, yields the largest absolute slackness residual over all entries |
| Optimality.SlackResiduals | src/main/iterate.c:268-356 | the same merge yields all slackness residuals |
| Optimality.Iterate.SlacknessResiduum | src/main/iterate.c:240-266 | the larger of the two residua |
| Optimality.SlackAttained | src/main/iterate.c:203-212 | the slackness residual is the gain of the change to the bound the multiplier belongs to, zero behind that bound; so inside the bounds it is the largest first-order gain |
| Optimality.SlackBoundsChange | src/main/iterate.c:203-212 | no change within the bounds gains more |
| Optimality.LargestAttained | src/main/iterate.c:498-517 | a residuum is attained and vanishes only with all residuals |
| Optimality.ResidualsBoundDecrease | src/main/iterate.c:153-517 | a feasible step of the linearised problem lowers the objective by at most the residuals, for every iterate and every such step |
| Optimality.KktIsOptimal | src/main/iterate.c:527-564 | where all residuals vanish no feasible step of the linearised problem lowers the objective |
| Optimality.AcceptedIsNearlyOptimal | src/main/iterate.c:519-564 | what an accepted iterate guarantees in terms of the three tolerances |
| Optimality.AcceptedIff | src/main/iterate.c:519-564 | accepted are exactly the iterates whose constraints hold and whose stationarity and slackness residuals vanish up to the tolerances, entry by entry |
| Optimality.KktIsAccepted | src/main/iterate.c:519-564 | every exact KKT point is accepted under positive tolerances |
| Scaling.ApplyScaling | src/main/scale.c:64-73 | every stored entry is multiplied by its power of two |
| Scaling.ScaleConsJac | src/main/scale.c:362-388 | entry (i, j) is multiplied by 2^(var_weight[j] - cons_weight[i]); the column cursor is right for every entry |
| Scaling.StretchedMatAt | src/main/scale.c:362-388 | the dense meaning of the scaled Jacobian, entry by entry |
| Scaling.ScaleIterate | src/main/scale.c:452-490 | the iterate becomes its scaled value, all seven parts |
| Scaling.UnscaleIterate | src/main/scale.c:589-628 | the iterate becomes its unscaled value, all seven parts |
| Scaling.ScaledEntries | src/main/scale.c:452-490 | every entry of the scaled iterate, multiplied back by the weights of its variable, constraint and objective |
| Scaling.ScaleRoundTrip | src/main/scale.c:452-628 | scaling and unscaling are inverse to each other in both orders, down to the stored entries, also for least squares |
| KktTransport.StationarityScaled | src/main/scale.c:300-490 | stationarity residual j is multiplied by 2^(var_weight[j] - obj_weight) |
| KktTransport.SlacksScaled | src/main/scale.c:300-490 | every slackness residual is multiplied by 2^(-obj_weight) |
| KktTransport.SlacknessResiduumScaled | src/main/scale.c:300-490 | so is the slackness residuum |
| KktTransport.FeasibilityScaled | src/main/scale.c:318-324 | feasibility residual i is multiplied by 2^(-cons_weight[i]) |
| KktTransport.KktTransported | src/main/scale.c:452-490 | an iterate is an exact KKT point of the problem if and only if its scaled form is one of the scaled problem |
| KktTransport.KktUnscaled | src/main/scale.c:589-628 | the same from the scaled side |
| ProblemScaling.ScaledProblem.Flush | src/main/problem_scaling.c:538-571 | the bounds of the scaled problem are the scaled bounds |
| ProblemScaling.ScaledProblem.SetValue | src/main/problem_scaling.c:29-67 | the user sees the unscaled point |
| ProblemScaling.ScaledProblem.Evaluate | src/main/problem_scaling.c:88-138 | objective, gradient, constraint values and Jacobian are the scaled evaluations at the unscaled point |
| ProblemScaling.EvaluationCommutes | src/main/problem_scaling.c:29-138 | evaluating and scaling commute: scaled evaluated iterates are exactly the evaluations of the scaled function |
| ProblemScaling.ScaledProblem.HessProd | src/main/problem_scaling.c:140-187 | the product is the one with the scaled Hessian at the unscaled multipliers |
| ScaledOperators.LagrangianConsistent | src/main/scale.c:443-450 | the scaled Hessian is that of the scaled Lagrangian: objective and constraint parts carry their own factors |
| ScaledOperators.CurvatureConsistent | src/main/problem_scaling.c:140-187 | curvature along a scaled direction is that along the unscaled one, divided by the objective factor |
| ScaledOperators.GradientConsistent | src/main/scale.c:308-316 | the scaled gradient gives the slopes of the scaled objective |
| ScaledOperators.ScaledModel | src/main/scale.c:262-316 | the linear model of the scaled objective along a scaled direction is the scaled linear model along the unscaled one |
| ScaledOperators.JacobianConsistent | src/main/scale.c:362-388 | the scaled Jacobian is the derivative of the scaled constraints |
| ScaledOperators.ScaledHessianSymmetric | src/main/problem_scaling.c:140-187 | symmetry survives the different factors before and after the product |
| ProblemScaling.ScaledProblem.LsqForward | src/main/problem_scaling.c:223-247 | the product is the one with the scaled residual Jacobian |
| ProblemScaling.ScaledProblem.LsqAdjoint | src/main/problem_scaling.c:249-273 | the product is the one with its transpose |
| ProblemScaling.ScaledProblem.LsqProductsAreAdjoint | src/main/problem_scaling.c:223-273 | the two computed products are adjoint |
| ScaledOperators.LsqObjectiveScaled | src/main/scale.c:274-284 | scaled residuals give the objective value scaled by 2^(-2*obj_weight) |
| ScaledOperators.LsqScaledObjective | src/main/scale.c:274-284 | the scaled objective of half a sum of squares is half the sum of squares of the scaled residuals |
| ScaledOperators.LsqGradientMayDiffer | src/main/scale.c:308-316 | an input with the scaled gradient 1/2 and the gradient 1/4 of the scaled objective |
| ScaledOperators.LsqGradientAgreesIff | src/main/scale.c:308-316 | the scaled gradient is that of the scaled sum of squares if and only if the objective weight is zero or the gradient vanishes |
| Restoration.Transform | src/main/restoration.c:491-569 | the variables followed by the constraint values clipped to their bounds |
| Restoration.RestoreTransformed | src/main/restoration.c:491-599 | restoring a transformed point returns the point |
| Restoration.ResidualsAreViolations | src/main/restoration.c:148-166 | at a transformed point the residuals are the signed feasibility residuals and the slacks are within bounds |
| Restoration.ZeroIffFeasible | src/main/restoration.c:148-166 | the objective vanishes there exactly when the constraint values are feasible |
| Restoration.ClippedIsBest | src/main/restoration.c:520-560 | no other slacks within the bounds give a smaller sum of squares |
| Restoration.SlacksAreOptimal | src/main/restoration.c:491-569 | the slack part of a transformed point satisfies the KKT conditions with the residuals as multipliers |
| Restoration.ProductsAreAdjoint | src/main/restoration.c:181-272 | the forward and adjoint products of [J, -I] are adjoint |
| Restoration.ForwardIsDerivative | src/main/restoration.c:181-218 | the forward product is the change of the residuals along linearised constraints |
| Restoration.CreateBounds | src/main/restoration.c:439-489 | a valid problem whose variables are bounded like variables and constraints and which has no constraints |
| Restoration.RestorationFunc.SetPoint | src/main/restoration.c:67-90 | the point is the given one and no stored evaluation is taken for it |
| Restoration.RestorationFunc.Init | src/main/restoration.c:413-437 | stored evaluations of the same variables are taken for the new point |
| Restoration.RestorationFunc.LsqResiduals | src/main/restoration.c:136-166 | constraint values at the current point less its slacks, whether cached or not |
| Restoration.RestorationFunc.JacForward | src/main/restoration.c:168-218 | the product with [J, -I] at the current point, whether cached or not |
| Restoration.RestorationFunc.JacAdjoint | src/main/restoration.c:220-272 | the product with its transpose |
| Restoration.RestorationFunc.ResidualsAtIterate | src/main/restoration.c:148-166 | started from an evaluated iterate, the residuals are its signed feasibility residuals |

## Left out

- Rounding, overflow, NaN and the floating-point error flags: arithmetic is over the reals, with dropping tolerance zero.
- Allocation, reference counting, error codes of the calls that only propagate, timers, settings and logging. A factorisation that fails after the cached working set was copied is therefore not modelled.
- Sharing of vectors and matrices between objects: they are values inside fields, so two objects never see each other's updates through them. Arrays and objects keep their identity.
- The contents of buffers behind their used part, which the source leaves undefined, and the growth policy of buffers.
- The sort of the C library is modelled by an insertion sort with the same contract.
- Square roots, the factorisation behind a linear solve, Hessian products, residual Jacobians and function evaluations are parameters with their defining property.
- Division by a vanishing norm or a vanishing number follows real arithmetic; the places where the source divides by a zero norm get infinity there and the model takes the branch that infinity takes.
- LineSearch.LineSearch.CauchyStep: when the iteration limit of the loop is reached, which the source only asserts against, the model reports that end separately and claims nothing about acceptance.
- LineSearch.LineSearch.TrialStep: when the iteration limit ends the loop the outputs have no stated meaning, as in the source; a merit at most the Cauchy merit is stated where the slope estimate is no ascent, and TrialMayBeWorse shows that it cannot be stated without such a condition.
- LineSearch.LineSearch.TrialStepExact: the global minimum of the merit itself is stated with clean tails only; without them the minimum of the collected merit is stated.
- WorkingSteps.WorkingStep.SplitTrustRegion: the relation between step and remaining radius is stated for steps inside the trust region, which all are up to a tolerance of 0.2; outside it the source takes the root of a negative number. The Hessian part of the step is not filled.
- WorkingSteps.ComputeInitialRhs: asks for positions in the order of the indices, for variables and for constraints, since the source pushes onto the right-hand side in the order of the indices.
- StandardAugJac.StandardAugJac.SetIterate: asks for active constraints in index order, since the source pushes them into a column in the order of the Jacobian.
- ReducedAugJac.ReducedAugJac.SetIterate: problems that keep the factorisation present the same Jacobian every time.
- KktTransport.KktTransported: problems without linear constraints and with an objective that is not a sum of squares.
- ProblemScaling.ScaledProblem.Flush: the separate bounds and coefficients of linear constraints; `src/main/scale.c:391-421` indexes weights of linear rows differently from `src/main/scale.c:351-360`.
- Choosing weights from nominal values, gradients or Jacobians (`src/main/scale.c:155-248`, `src/main/scale.c:631-870`).
- Optimality.IsOptimal: a plain expression; its meaning is AcceptedIff and AcceptedIsNearlyOptimal.
- The direct augmented Jacobian, which rests on a QR factorisation, and the unconstrained variants.
- The LSQR and trust-region solvers that use the operators, the linear-programming Cauchy step, the penalty update, trial point orchestration, parametric and dynamic functions, callbacks and bindings.
- `sleqp_direction_in_working_set` and `sleqp_reduction_ratio` in src/main/util.c.
