/** src/main/polish.c: dropping entries of a working set whose dual is zero, or that are not at a bound. */
module Polishing {
  import opened LinearAlgebra
  import opened SparseVec
  import opened Problems
  import opened WorkingSets
  import opened Comparisons

  // ----- what polishing means

  function States(s: Sets, constraints: bool): seq<ActiveState>
  {
    if constraints then s.consStates else s.varStates
  }

  /** The states that remain when only kept entries stay active. */
  function Filtered(states: seq<ActiveState>, keep: seq<bool>): (t: seq<ActiveState>)
    requires |keep| == |states|
    ensures |t| == |states|
  {
    seq(|states|, j requires 0 <= j < |states| => if keep[j] then states[j] else Inactive)
  }

  ghost predicate Increasing(s: seq<int>, from: nat)
  {
    forall k, l :: from <= k < l < |s| ==> s[k] < s[l]
  }

  /** target keeps exactly the chosen entries of source, with positions assigned in the order of the indices. */
  ghost predicate IsCompaction(source: Sets, keepVars: seq<bool>, keepCons: seq<bool>, target: Sets)
  {
    && |keepVars| == source.NumVars() && |keepCons| == source.NumCons() && target.WellFormed()
    && target.varStates == Filtered(source.varStates, keepVars)
    && target.consStates == Filtered(source.consStates, keepCons)
    && Increasing(target.content, 0)
  }

  lemma {:induction false} IncreasingUnique(a: seq<int>, b: seq<int>)
    requires Increasing(a, 0) && Increasing(b, 0) && forall x :: x in a <==> x in b
    ensures a == b
  {
    assert b != [] ==> b[0] in b;
    if a != [] {
      assert a[0] in a;
      assert a[0] in b;
      assert a[|a| - 1] in a && b != [];
      var x, y := a[|a| - 1], b[|b| - 1];
      assert x in b && y in a;
      assert x == y;
      var p, q := a[..|a| - 1], b[..|b| - 1];
      forall z ensures z in p <==> z in q {
        assert z in a <==> z in b;
        assert z in p <==> z in a && z != x;
        assert z in q <==> z in b && z != y;
      }
      IncreasingUnique(p, q);
      assert a == p + [x] && b == q + [y];
    }
  }

  lemma ContentMembers(s: Sets, x: int)
    requires s.WellFormed()
    ensures x in s.content <==> Points(s, x)
  {
    if x in s.content {
      var k :| 0 <= k < |s.content| && s.content[k] == x;
      if k < s.numActiveVars {
        assert s.varIndices[x] == k;
      } else {
        assert s.consIndices[x - s.NumVars()] == k;
      }
    }
    if Points(s, x) {
      if x < s.NumVars() {
        assert s.content[s.varIndices[x]] == x;
      } else {
        assert s.content[s.consIndices[x - s.NumVars()]] == x;
      }
    }
  }

  lemma InverseUnique(content: seq<int>, states: seq<ActiveState>, p: seq<int>, q: seq<int>, shift: nat,
                      from: nat, to: nat, from': nat, to': nat)
    requires |states| == |p| == |q| && from <= to <= |content| && from' <= to' <= |content|
    requires Inverse(content, states, p, shift, from, to) && Inverse(content, states, q, shift, from', to')
    requires Increasing(content, 0)
    ensures p == q
  {
    forall j | 0 <= j < |p| ensures p[j] == q[j] {
      if states[j] != Inactive { assert content[p[j]] == content[q[j]]; }
    }
  }

  /** A compaction is determined by the states it keeps, positions included. */
  lemma CompactionUnique(source: Sets, keepVars: seq<bool>, keepCons: seq<bool>, a: Sets, b: Sets)
    requires IsCompaction(source, keepVars, keepCons, a) && IsCompaction(source, keepVars, keepCons, b)
    ensures a == b
  {
    hide Inverse;
    forall x ensures x in a.content <==> x in b.content {
      ContentMembers(a, x);
      ContentMembers(b, x);
    }
    IncreasingUnique(a.content, b.content);
    InverseUnique(a.content, a.varStates, a.varIndices, b.varIndices, 0, 0, a.numActiveVars, 0, b.numActiveVars);
    InverseUnique(a.content, a.consStates, a.consIndices, b.consIndices, a.NumVars(),
                  a.numActiveVars, a.Size(), b.numActiveVars, b.Size());
  }

  /** Polishing again with the same choice changes nothing. */
  lemma CompactionIdempotent(source: Sets, keepVars: seq<bool>, keepCons: seq<bool>, a: Sets, b: Sets)
    requires IsCompaction(source, keepVars, keepCons, a) && IsCompaction(a, keepVars, keepCons, b)
    ensures a == b
  {
    assert Filtered(a.varStates, keepVars) == a.varStates && Filtered(a.consStates, keepCons) == a.consStates;
    CompactionUnique(a, keepVars, keepCons, a, b);
  }

  /** Compacted constraints are in order, as the augmented systems need them. */
  lemma CompactionKeepsOrder(source: Sets, keepVars: seq<bool>, keepCons: seq<bool>, target: Sets)
    requires IsCompaction(source, keepVars, keepCons, target)
    ensures target.OrderPreserving()
  {
    forall i, k | 0 <= i < k < target.NumCons() && target.consIndices[i] != NONE && target.consIndices[k] != NONE
      ensures target.consIndices[i] < target.consIndices[k]
    {
      var p, q := target.consIndices[i], target.consIndices[k];
      assert target.content[p] < target.content[q];
    }
  }

  /** Dropping only entries with zero dual keeps the duals supported. */
  lemma DualSupportKept(states: seq<ActiveState>, keep: seq<bool>, dual: Vector)
    requires |keep| == |states| == |dual| && SupportsAll(states, dual)
    requires forall j :: 0 <= j < |dual| && dual[j] != 0.0 ==> keep[j]
    ensures SupportsAll(Filtered(states, keep), dual)
  {
  }

  // ----- which entries stay

  ghost predicate Stored(v: Vec, j: int) { j in v.indices }

  ghost function KeepStored(dual: Vec): (keep: seq<bool>)
    ensures |keep| == dual.dim
  {
    seq(dual.dim, j requires 0 <= j < dual.dim => Stored(dual, j))
  }

  /** An entry stays when a dual is stored for it or its value is at one of its bounds. */
  ghost function KeepAtBound(lb: Vec, value: Vec, ub: Vec, dual: Vec, eps: real): (keep: seq<bool>)
    requires lb.Valid() && value.Valid() && ub.Valid()
    ensures |keep| == dual.dim
  {
    seq(dual.dim, j requires 0 <= j < dual.dim =>
      Stored(dual, j) || IsEq(lb.At(j), value.At(j), eps) || IsEq(value.At(j), ub.At(j), eps))
  }

  lemma NonzeroIsStored(dual: Vec, j: nat)
    requires dual.Valid() && j < dual.dim && dual.Dense()[j] != 0.0
    ensures Stored(dual, j)
  {
    if !Stored(dual, j) { AbsentAt(dual, j); }
  }

  /** Both ways of polishing keep the support of the duals. */
  lemma PolishKeepsSupport(states: seq<ActiveState>, lb: Vec, value: Vec, ub: Vec, dual: Vec, eps: real)
    requires dual.Valid() && lb.Valid() && value.Valid() && ub.Valid() && dual.dim == |states|
    requires SupportsAll(states, dual.Dense())
    ensures SupportsAll(Filtered(states, KeepStored(dual)), dual.Dense())
    ensures SupportsAll(Filtered(states, KeepAtBound(lb, value, ub, dual, eps)), dual.Dense())
  {
    forall j | 0 <= j < dual.dim && dual.Dense()[j] != 0.0
      ensures KeepStored(dual)[j] && KeepAtBound(lb, value, ub, dual, eps)[j]
    {
      NonzeroIsStored(dual, j);
    }
    DualSupportKept(states, KeepStored(dual), dual.Dense());
    DualSupportKept(states, KeepAtBound(lb, value, ub, dual, eps), dual.Dense());
  }

  // ----- what happens to the states

  /** The states after polishing by the duals: exactly the entries with a stored dual keep theirs. */
  ghost predicate DualsDecide(before: seq<ActiveState>, after: seq<ActiveState>, dual: Vec)
  {
    && |before| == |after| == dual.dim
    && forall j :: 0 <= j < dual.dim ==> after[j] == if j in dual.indices then before[j] else Inactive
  }

  /** a is b up to the tolerance, relative to the larger of the two where that is more than one. */
  ghost predicate Near(a: real, b: real, eps: real)
  {
    Abs(a - b) <= eps * Max(Max(Abs(a), Abs(b)), 1.0)
  }

  /** The states after polishing by the bounds: exactly the entries with a stored dual or with a value near one of
      their bounds keep theirs. */
  ghost predicate BoundsDecide(before: seq<ActiveState>, after: seq<ActiveState>, lb: Vec, value: Vec, ub: Vec,
                               dual: Vec, eps: real)
    requires lb.Valid() && value.Valid() && ub.Valid()
  {
    && |before| == |after| == dual.dim
    && forall j :: 0 <= j < dual.dim ==>
         after[j] == if j in dual.indices || Near(lb.At(j), value.At(j), eps) || Near(value.At(j), ub.At(j), eps)
                     then before[j] else Inactive
  }

  lemma StoredMeans(states: seq<ActiveState>, dual: Vec)
    requires dual.dim == |states|
    ensures DualsDecide(states, Filtered(states, KeepStored(dual)), dual)
  {
  }

  lemma AtBoundMeans(states: seq<ActiveState>, lb: Vec, value: Vec, ub: Vec, dual: Vec, eps: real)
    requires lb.Valid() && value.Valid() && ub.Valid() && dual.dim == |states|
    ensures BoundsDecide(states, Filtered(states, KeepAtBound(lb, value, ub, dual, eps)), lb, value, ub, dual, eps)
  {
    hide Vec.At, KeepAtBound, Near;
    forall j | 0 <= j < dual.dim
      ensures KeepAtBound(lb, value, ub, dual, eps)[j]
         <==> j in dual.indices || Near(lb.At(j), value.At(j), eps) || Near(value.At(j), ub.At(j), eps)
    {
      KeptIff(lb, value, ub, dual, eps, j);
    }
  }

  lemma KeptIff(lb: Vec, value: Vec, ub: Vec, dual: Vec, eps: real, j: nat)
    requires lb.Valid() && value.Valid() && ub.Valid() && j < dual.dim
    ensures KeepAtBound(lb, value, ub, dual, eps)[j]
       <==> j in dual.indices || Near(lb.At(j), value.At(j), eps) || Near(value.At(j), ub.At(j), eps)
  {
    hide Vec.At, IsEq, Near;
    IsEqIffNear(lb.At(j), value.At(j), eps);
    IsEqIffNear(value.At(j), ub.At(j), eps);
  }

  lemma IsEqIffNear(a: real, b: real, eps: real)
    ensures IsEq(a, b, eps) <==> Near(a, b, eps)
  {
    IsEqMeans(a, b, eps);
    hide IsEq, Abs, Max;
  }

  /** Polishing by the bounds leaves states alone whose active entries sit on the bounds they name. */
  lemma OnBoundsUnchanged(before: seq<ActiveState>, after: seq<ActiveState>, lb: Vec, value: Vec, ub: Vec, dual: Vec,
                          eps: real)
    requires lb.Valid() && value.Valid() && ub.Valid() && eps >= 0.0
    requires BoundsDecide(before, after, lb, value, ub, dual, eps)
    requires forall j :: 0 <= j < |before| ==> ReachesBound(before[j], value.At(j), lb.At(j), ub.At(j))
    ensures after == before
  {
    hide Vec.At;
    forall j | 0 <= j < |before| ensures after[j] == before[j] {
      NearItself(value.At(j), eps);
      assert ReachesBound(before[j], value.At(j), lb.At(j), ub.At(j));
    }
  }

  lemma NearItself(a: real, eps: real)
    requires eps >= 0.0
    ensures Near(a, a, eps)
  {
    ScaleLe(eps, 0.0, Max(Abs(a), 1.0));
  }

  // ----- one range

  /** The kept active entries below j, in order, as they appear in the content. */
  function KeptTo(states: seq<ActiveState>, keep: seq<bool>, shift: nat, j: nat): seq<int>
    requires |keep| == |states| && j <= |states|
  {
    if j == 0 then []
    else KeptTo(states, keep, shift, j - 1) + if keep[j - 1] && states[j - 1] != Inactive then [shift + j - 1] else []
  }

  lemma {:induction false} KeptIncreasing(states: seq<ActiveState>, keep: seq<bool>, shift: nat, j: nat)
    requires |keep| == |states| && j <= |states|
    ensures Increasing(KeptTo(states, keep, shift, j), 0)
    ensures forall k :: 0 <= k < |KeptTo(states, keep, shift, j)| ==>
      shift <= KeptTo(states, keep, shift, j)[k] < shift + j
  {
    if j > 0 { KeptIncreasing(states, keep, shift, j - 1); }
  }

  /** The states while the entries below j have been decided. */
  function FilteredTo(states: seq<ActiveState>, keep: seq<bool>, j: nat): (t: seq<ActiveState>)
    requires |keep| == |states|
    ensures |t| == |states|
  {
    seq(|states|, k requires 0 <= k < |states| => if k < j && keep[k] then states[k] else Inactive)
  }

  /** target is the compaction of the variables of source below j, without constraints. */
  ghost predicate VarsTo(source: Sets, keep: seq<bool>, target: Sets, j: nat)
  {
    && |keep| == source.NumVars() && j <= source.NumVars() && target.WellFormed()
    && target.varStates == FilteredTo(source.varStates, keep, j)
    && target.consStates == seq(source.NumCons(), i => Inactive)
    && target.content == KeptTo(source.varStates, keep, 0, j) && target.numActiveVars == target.Size()
  }

  /** target is the compaction of all variables and of the constraints of source below i. */
  ghost predicate ConsTo(source: Sets, keepVars: seq<bool>, keep: seq<bool>, target: Sets, i: nat)
  {
    && |keepVars| == source.NumVars() && |keep| == source.NumCons() && i <= source.NumCons() && target.WellFormed()
    && target.varStates == Filtered(source.varStates, keepVars)
    && target.consStates == FilteredTo(source.consStates, keep, i)
    && target.content == KeptTo(source.varStates, keepVars, 0, source.NumVars())
                         + KeptTo(source.consStates, keep, source.NumVars(), i)
  }

  lemma VarsStart(source: Sets, keep: seq<bool>)
    requires |keep| == source.NumVars()
    ensures VarsTo(source, keep, EmptySets(source.NumVars(), source.NumCons()), 0)
  {
    EmptyWellFormed(source.NumVars(), source.NumCons());
  }

  lemma VarsStep(source: Sets, keep: seq<bool>, target: Sets, j: nat)
    requires VarsTo(source, keep, target, j) && j < source.NumVars()
    ensures !keep[j] || source.varStates[j] == Inactive ==> VarsTo(source, keep, target, j + 1)
    ensures keep[j] && source.varStates[j] != Inactive ==>
      Legal(target, AddVar(j, source.varStates[j]))
      && VarsTo(source, keep, Apply(target, AddVar(j, source.varStates[j])), j + 1)
  {
    hide Sets.WellFormed;
    if keep[j] && source.varStates[j] != Inactive {
      ApplyWellFormed(target, AddVar(j, source.varStates[j]));
      assert target.varStates[j := source.varStates[j]] == FilteredTo(source.varStates, keep, j + 1);
    } else {
      assert FilteredTo(source.varStates, keep, j) == FilteredTo(source.varStates, keep, j + 1);
    }
  }

  lemma ConsStart(source: Sets, keepVars: seq<bool>, keep: seq<bool>, target: Sets)
    requires VarsTo(source, keepVars, target, source.NumVars()) && |keep| == source.NumCons()
    ensures ConsTo(source, keepVars, keep, target, 0)
  {
    hide Sets.WellFormed;
  }

  lemma ConsStep(source: Sets, keepVars: seq<bool>, keep: seq<bool>, target: Sets, i: nat)
    requires ConsTo(source, keepVars, keep, target, i) && i < source.NumCons()
    ensures !keep[i] || source.consStates[i] == Inactive ==> ConsTo(source, keepVars, keep, target, i + 1)
    ensures keep[i] && source.consStates[i] != Inactive ==>
      Legal(target, AddCons(i, source.consStates[i]))
      && ConsTo(source, keepVars, keep, Apply(target, AddCons(i, source.consStates[i])), i + 1)
  {
    hide Sets.WellFormed;
    if keep[i] && source.consStates[i] != Inactive {
      ApplyWellFormed(target, AddCons(i, source.consStates[i]));
      assert target.consStates[i := source.consStates[i]] == FilteredTo(source.consStates, keep, i + 1);
    } else {
      assert FilteredTo(source.consStates, keep, i) == FilteredTo(source.consStates, keep, i + 1);
    }
  }

  lemma ConsEnd(source: Sets, keepVars: seq<bool>, keep: seq<bool>, target: Sets)
    requires ConsTo(source, keepVars, keep, target, source.NumCons())
    ensures IsCompaction(source, keepVars, keep, target)
  {
    hide Sets.WellFormed;
    KeptIncreasing(source.varStates, keepVars, 0, source.NumVars());
    KeptIncreasing(source.consStates, keep, source.NumVars(), source.NumCons());
    assert FilteredTo(source.consStates, keep, source.NumCons()) == Filtered(source.consStates, keep);
  }

  /** The number of active entries below j that are not kept. */
  function Removed(states: seq<ActiveState>, keep: seq<bool>, j: nat): nat
    requires |keep| == |states| && j <= |keep|
  {
    if j == 0 then 0 else Removed(states, keep, j - 1) + if states[j - 1] != Inactive && !keep[j - 1] then 1 else 0
  }

  /** Removals and remaining entries add up to what was there. */
  lemma {:induction false} RemovedIsDifference(states: seq<ActiveState>, keep: seq<bool>, j: nat)
    requires |keep| == |states| && j <= |states|
    ensures Removed(states, keep, j) + Count(Filtered(states, keep), j) == Count(states, j)
  {
    if j > 0 { RemovedIsDifference(states, keep, j - 1); }
  }

  // ----- the object

  class Polishing {
    const workingSet: WorkingSet
    const feasEps: real

    constructor (numVars: nat, numCons: nat, feasEps: real)
      ensures workingSet.Valid() && fresh(workingSet.Repr()) && this.feasEps == feasEps
      ensures workingSet.View() == EmptySets(numVars, numCons)
    {
      workingSet := new WorkingSet(numVars, numCons);
      this.feasEps := feasEps;
    }

    /** The scratch set and the set to polish are separate objects of the same dimensions. */
    ghost predicate Ready(source: WorkingSet)
      reads source, source.Repr()
    {
      && workingSet.Shaped() && source.Valid() && workingSet.Repr() !! source.Repr() && this !in source.Repr()
      && workingSet.varStates.Length == source.varStates.Length
      && workingSet.consStates.Length == source.consStates.Length
    }

    /** Moves a cursor to entry j. */
    static method Advance(v: Vec, k: nat, j: nat, ghost from: nat) returns (l: nat)
      requires v.Cursor(k, from) && from <= j && v.Valid()
      ensures v.Cursor(l, j)
      ensures (l < |v.indices| && v.indices[l] == j) <==> Stored(v, j)
    {
      l := k;
      while l < |v.indices| && v.indices[l] < j
        invariant k <= l <= |v.indices| && v.Cursor(l, if l < |v.indices| then v.indices[l] else v.dim)
        invariant forall p :: 0 <= p < l ==> v.indices[p] < j
      {
        l := l + 1;
      }
    }

    /** s is the value of the source, and the scratch set holds the compaction of everything before entry j of the
        given range. */
    ghost predicate Progress(source: WorkingSet, s: Sets, constraints: bool, keepVars: seq<bool>, keepCons: seq<bool>,
                             j: nat)
      reads source, source.Repr(), workingSet, workingSet.Repr()
    {
      && Ready(source) && source.View() == s && workingSet.Valid()
      && if constraints then ConsTo(s, keepVars, keepCons, workingSet.View(), j)
         else VarsTo(s, keepVars, workingSet.View(), j) && |keepCons| == s.NumCons()
    }

    /** sleqp_working_set_add on the scratch set, for an entry that stays */
    method Keep(source: WorkingSet, constraints: bool, j: nat, state: ActiveState,
                ghost s: Sets, ghost keepVars: seq<bool>, ghost keepCons: seq<bool>)
      requires Progress(source, s, constraints, keepVars, keepCons, j) && j < |States(s, constraints)|
      requires state == States(s, constraints)[j] != Inactive && (if constraints then keepCons else keepVars)[j]
      modifies workingSet.Repr()
      ensures Progress(source, s, constraints, keepVars, keepCons, j + 1)
    {
      hide Sets.WellFormed, ConsTo, VarsTo;
      if constraints {
        KeepCons(source, j, state, s, keepVars, keepCons);
      } else {
        KeepVar(source, j, state, s, keepVars, keepCons);
      }
    }

    method KeepVar(source: WorkingSet, j: nat, state: ActiveState, ghost s: Sets, ghost keep: seq<bool>,
                   ghost keepCons: seq<bool>)
      requires Progress(source, s, false, keep, keepCons, j) && j < s.NumVars()
      requires state == s.varStates[j] != Inactive && keep[j]
      modifies workingSet.Repr()
      ensures Progress(source, s, false, keep, keepCons, j + 1)
    {
      hide Sets.WellFormed, ConsTo, VarsTo, Apply, Legal, WorkingSet.View, WorkingSet.Valid, Progress, Ready;
      BeforeVar(source, j, s, keep, keepCons);
      var error := workingSet.AddVar(j, state);
      ReadyAfter(source);
      AfterVar(source, j + 1, s, keep, keepCons);
    }

    lemma BeforeVar(source: WorkingSet, j: nat, s: Sets, keep: seq<bool>, keepCons: seq<bool>)
      requires Progress(source, s, false, keep, keepCons, j) && j < s.NumVars()
      requires s.varStates[j] != Inactive && keep[j]
      ensures Ready(source) && source.View() == s && workingSet.Valid() && |keepCons| == s.NumCons()
      ensures workingSet.Repr() !! source.Repr()
      ensures workingSet.View().WellFormed() && Legal(workingSet.View(), AddVar(j, s.varStates[j]))
      ensures VarsTo(s, keep, Apply(workingSet.View(), AddVar(j, s.varStates[j])), j + 1)
    {
      hide Sets.WellFormed, Apply;
      VarsStep(s, keep, workingSet.View(), j);
    }

    lemma AfterVar(source: WorkingSet, j: nat, s: Sets, keep: seq<bool>, keepCons: seq<bool>)
      requires Ready(source) && source.View() == s && workingSet.Valid() && |keepCons| == s.NumCons()
      requires VarsTo(s, keep, workingSet.View(), j)
      ensures Progress(source, s, false, keep, keepCons, j)
    {
    }

    lemma BeforeCons(source: WorkingSet, i: nat, s: Sets, keepVars: seq<bool>, keep: seq<bool>)
      requires Progress(source, s, true, keepVars, keep, i) && i < s.NumCons()
      requires s.consStates[i] != Inactive && keep[i]
      ensures Ready(source) && source.View() == s && workingSet.Valid() && workingSet.Repr() !! source.Repr()
      ensures workingSet.View().WellFormed() && Legal(workingSet.View(), AddCons(i, s.consStates[i]))
      ensures ConsTo(s, keepVars, keep, Apply(workingSet.View(), AddCons(i, s.consStates[i])), i + 1)
    {
      hide Sets.WellFormed, Apply;
      ConsStep(s, keepVars, keep, workingSet.View(), i);
    }

    method KeepCons(source: WorkingSet, i: nat, state: ActiveState, ghost s: Sets, ghost keepVars: seq<bool>,
                    ghost keep: seq<bool>)
      requires Progress(source, s, true, keepVars, keep, i) && i < s.NumCons()
      requires state == s.consStates[i] != Inactive && keep[i]
      modifies workingSet.Repr()
      ensures Progress(source, s, true, keepVars, keep, i + 1)
    {
      hide Sets.WellFormed, ConsTo, VarsTo, Apply, Legal, WorkingSet.View, WorkingSet.Valid, Progress, Ready;
      BeforeCons(source, i, s, keepVars, keep);
      workingSet.AddCons(i, state);
      ReadyAfter(source);
      AfterCons(source, i + 1, s, keepVars, keep);
    }

    twostate lemma ReadyAfter(source: WorkingSet)
      requires old(Ready(source)) && unchanged(source, source.Repr())
      ensures Ready(source) && source.View() == old(source.View())
    {
    }

    lemma AfterCons(source: WorkingSet, i: nat, s: Sets, keepVars: seq<bool>, keep: seq<bool>)
      requires Ready(source) && source.View() == s && workingSet.Valid()
      requires ConsTo(s, keepVars, keep, workingSet.View(), i)
      ensures Progress(source, s, true, keepVars, keep, i)
    {
    }

    lemma Drop(source: WorkingSet, constraints: bool, j: nat, s: Sets, keepVars: seq<bool>, keepCons: seq<bool>)
      requires Progress(source, s, constraints, keepVars, keepCons, j) && j < |States(s, constraints)|
      requires States(s, constraints)[j] == Inactive || !(if constraints then keepCons else keepVars)[j]
      ensures Progress(source, s, constraints, keepVars, keepCons, j + 1)
    {
      if constraints {
        ConsStep(s, keepVars, keepCons, workingSet.View(), j);
      } else {
        VarsStep(s, keepVars, workingSet.View(), j);
      }
    }

    /** sleqp_working_set_state on the set to polish */
    function ReadState(source: WorkingSet, constraints: bool, j: nat, ghost s: Sets, ghost keepVars: seq<bool>,
                       ghost keepCons: seq<bool>): (state: ActiveState)
      requires Progress(source, s, constraints, keepVars, keepCons, j) && j < |States(s, constraints)|
      reads source, source.Repr(), workingSet, workingSet.Repr()
      ensures state == States(s, constraints)[j]
    {
      if constraints then source.consStates[j] else source.varStates[j]
    }

    lemma StoredIsKept(dual: Vec, i: nat)
      requires i < dual.dim
      ensures |KeepStored(dual)| == dual.dim && KeepStored(dual)[i] == Stored(dual, i)
    {
    }

    /** polish_zero_dual_range */
    method ZeroDualRange(source: WorkingSet, dual: Vec, constraints: bool,
                         ghost s: Sets, ghost keepVars: seq<bool>, ghost keepCons: seq<bool>)
      returns (removed: nat)
      requires Progress(source, s, constraints, keepVars, keepCons, 0)
      requires dual.Valid() && dual.dim == |States(s, constraints)|
      requires (if constraints then keepCons else keepVars) == KeepStored(dual)
      modifies workingSet.Repr()
      ensures Progress(source, s, constraints, keepVars, keepCons, dual.dim)
      ensures removed == Removed(States(s, constraints), KeepStored(dual), dual.dim)
    {
      hide Sets.WellFormed, ConsTo, VarsTo, WorkingSet.View, Vec.At, KeepStored;
      removed := 0;
      var k := 0;
      ghost var states, keep, from := States(s, constraints), KeepStored(dual), 0;
      for i := 0 to dual.dim
        invariant Progress(source, s, constraints, keepVars, keepCons, i)
        invariant from <= i && dual.Cursor(k, from)
        invariant removed == Removed(states, keep, i)
      {
        var state := ReadState(source, constraints, i, s, keepVars, keepCons);
        if state == Inactive {
          Drop(source, constraints, i, s, keepVars, keepCons);
        } else {
          k := Advance(dual, k, i, from);
          from := i;
          StoredIsKept(dual, i);
          if k < |dual.indices| && dual.indices[k] == i {
            Keep(source, constraints, i, state, s, keepVars, keepCons);
          } else {
            removed := removed + 1;
            Drop(source, constraints, i, s, keepVars, keepCons);
          }
        }
      }
    }

    /** The value of a sparse vector at entry j, read with a moving cursor. */
    static method ReadAt(v: Vec, k: nat, j: nat, ghost from: nat) returns (value: real, l: nat)
      requires v.Valid() && v.Cursor(k, from) && from <= j < v.dim
      ensures value == v.At(j) && v.Cursor(l, j)
    {
      l := Advance(v, k, j, from);
      CursorAt(v, l, j);
      value := if l < |v.indices| && v.indices[l] == j then v.data[l] else 0.0;
    }

    /** Whether an entry without dual is at one of its bounds. */
    static method AtBound(lb: Vec, primal: Vec, ub: Vec, kLb: nat, kP: nat, kUb: nat, j: nat, eps: real,
                          ghost from: nat)
      returns (inactive: bool, kLb': nat, kP': nat, kUb': nat)
      requires lb.Valid() && primal.Valid() && ub.Valid() && lb.dim == primal.dim == ub.dim && from <= j < lb.dim
      requires lb.Cursor(kLb, from) && primal.Cursor(kP, from) && ub.Cursor(kUb, from)
      ensures lb.Cursor(kLb', j) && primal.Cursor(kP', j) && ub.Cursor(kUb', j)
      ensures inactive <==> !(IsEq(lb.At(j), primal.At(j), eps) || IsEq(primal.At(j), ub.At(j), eps))
    {
      var lbVal, ubVal, pVal;
      lbVal, kLb' := ReadAt(lb, kLb, j, from);
      ubVal, kUb' := ReadAt(ub, kUb, j, from);
      pVal, kP' := ReadAt(primal, kP, j, from);
      var activeUpper := IsEq(pVal, ubVal, eps);
      var activeLower := IsEq(lbVal, pVal, eps);
      inactive := !(activeLower || activeUpper);
    }

    /** polish_inactive_range */
    method InactiveRange(source: WorkingSet, lb: Vec, primal: Vec, ub: Vec, dual: Vec, constraints: bool,
                         ghost s: Sets, ghost keepVars: seq<bool>, ghost keepCons: seq<bool>)
      returns (removed: nat)
      requires Progress(source, s, constraints, keepVars, keepCons, 0)
      requires lb.Valid() && primal.Valid() && ub.Valid() && dual.Valid()
      requires lb.dim == primal.dim == ub.dim == dual.dim == |States(s, constraints)|
      requires (if constraints then keepCons else keepVars) == KeepAtBound(lb, primal, ub, dual, feasEps)
      modifies workingSet.Repr()
      ensures Progress(source, s, constraints, keepVars, keepCons, dual.dim)
      ensures removed == Removed(States(s, constraints), KeepAtBound(lb, primal, ub, dual, feasEps), dual.dim)
    {
      hide Sets.WellFormed, ConsTo, VarsTo, WorkingSet.View, Vec.At, IsEq;
      removed := 0;
      var kD, kLb, kUb, kP := 0, 0, 0, 0;
      ghost var states, keep := States(s, constraints), KeepAtBound(lb, primal, ub, dual, feasEps);
      ghost var fromDual, from := 0, 0;
      for j := 0 to dual.dim
        invariant Progress(source, s, constraints, keepVars, keepCons, j)
        invariant fromDual <= j && dual.Cursor(kD, fromDual)
        invariant from <= j && lb.Cursor(kLb, from) && primal.Cursor(kP, from) && ub.Cursor(kUb, from)
        invariant removed == Removed(states, keep, j)
      {
        var state := ReadState(source, constraints, j, s, keepVars, keepCons);
        if state == Inactive {
          Drop(source, constraints, j, s, keepVars, keepCons);
        } else {
          kD := Advance(dual, kD, j, fromDual);
          fromDual := j;
          var inactive := false;
          if !(kD < |dual.indices| && dual.indices[kD] == j) {
            inactive, kLb, kP, kUb := AtBound(lb, primal, ub, kLb, kP, kUb, j, feasEps, from);
            from := j;
          }
          if inactive {
            removed := removed + 1;
            Drop(source, constraints, j, s, keepVars, keepCons);
          } else {
            Keep(source, constraints, j, state, s, keepVars, keepCons);
          }
        }
      }
    }

    lemma RangeStart(source: WorkingSet, s: Sets, keepVars: seq<bool>, keepCons: seq<bool>)
      requires Ready(source) && source.View() == s && workingSet.Valid()
      requires workingSet.View() == EmptySets(s.NumVars(), s.NumCons())
      requires |keepVars| == s.NumVars() && |keepCons| == s.NumCons()
      ensures Progress(source, s, false, keepVars, keepCons, 0)
    {
      VarsStart(s, keepVars);
    }

    lemma RangeSwitch(source: WorkingSet, s: Sets, keepVars: seq<bool>, keepCons: seq<bool>)
      requires Progress(source, s, false, keepVars, keepCons, s.NumVars())
      ensures Progress(source, s, true, keepVars, keepCons, 0)
    {
      ConsStart(s, keepVars, keepCons, workingSet.View());
    }

    lemma RangeEnd(source: WorkingSet, s: Sets, keepVars: seq<bool>, keepCons: seq<bool>)
      requires Progress(source, s, true, keepVars, keepCons, s.NumCons())
      ensures workingSet.Valid() && IsCompaction(s, keepVars, keepCons, workingSet.View()) && Ready(source)
      ensures source.Shaped()
    {
      ConsEnd(s, keepVars, keepCons, workingSet.View());
    }

    /** The polished set, and that exactly the removed entries are missing from it. */
    ghost predicate Polished(source: WorkingSet, s: Sets, keepVars: seq<bool>, keepCons: seq<bool>,
                             removedVars: nat, removedCons: nat)
      reads source, source.Repr()
    {
      && source.Valid() && IsCompaction(s, keepVars, keepCons, source.View())
      && removedVars + source.numActiveVars == Count(s.varStates, s.NumVars())
      && removedCons + source.numActiveCons == Count(s.consStates, s.NumCons())
    }

    /** Copies the scratch set back. */
    method Finish(source: WorkingSet, ghost s: Sets, ghost keepVars: seq<bool>, ghost keepCons: seq<bool>,
                  removedVars: nat, removedCons: nat)
      requires Progress(source, s, true, keepVars, keepCons, s.NumCons())
      requires |keepVars| == s.NumVars() && |keepCons| == s.NumCons()
      requires removedVars == Removed(s.varStates, keepVars, s.NumVars())
      requires removedCons == Removed(s.consStates, keepCons, s.NumCons())
      modifies source, source.Repr()
      ensures Polished(source, s, keepVars, keepCons, removedVars, removedCons)
    {
      hide Sets.WellFormed, ConsTo, VarsTo, WorkingSet.View, WorkingSet.Valid, Progress, IsCompaction, Polished,
           Removed;
      RangeEnd(source, s, keepVars, keepCons);
      ghost var t := workingSet.View();
      source.CopyFrom(workingSet);
      CopyIsPolished(source, s, keepVars, keepCons, removedVars, removedCons, t);
    }

    lemma CopyIsPolished(source: WorkingSet, s: Sets, keepVars: seq<bool>, keepCons: seq<bool>,
                         removedVars: nat, removedCons: nat, t: Sets)
      requires source.Valid() && source.View() == t && IsCompaction(s, keepVars, keepCons, t)
      requires removedVars == Removed(s.varStates, keepVars, s.NumVars())
      requires removedCons == Removed(s.consStates, keepCons, s.NumCons())
      ensures Polished(source, s, keepVars, keepCons, removedVars, removedCons)
    {
      RemovedIsDifference(s.varStates, keepVars, s.NumVars());
      RemovedIsDifference(s.consStates, keepCons, s.NumCons());
      hide Inverse;
    }

    /** What a polished set that keeps the entries at their bounds looks like. */
    lemma BoundsPolished(source: WorkingSet, s: Sets, problem: Problem, primal: Vec, consVal: Vec, varsDual: Vec,
                         consDual: Vec, removedVars: nat, removedCons: nat)
      requires problem.Shaped() && primal.Valid() && consVal.Valid()
      requires varsDual.dim == s.NumVars() && consDual.dim == s.NumCons()
      requires Polished(source, s, KeepAtBound(problem.varsLb, primal, problem.varsUb, varsDual, feasEps),
                        KeepAtBound(problem.consLb, consVal, problem.consUb, consDual, feasEps), removedVars,
                        removedCons)
      ensures source.Valid()
      ensures BoundsDecide(s.varStates, source.View().varStates, problem.varsLb, primal, problem.varsUb, varsDual,
                           feasEps)
      ensures BoundsDecide(s.consStates, source.View().consStates, problem.consLb, consVal, problem.consUb, consDual,
                           feasEps)
    {
      AtBoundMeans(s.varStates, problem.varsLb, primal, problem.varsUb, varsDual, feasEps);
      AtBoundMeans(s.consStates, problem.consLb, consVal, problem.consUb, consDual, feasEps);
      hide BoundsDecide, KeepAtBound, Filtered, Sets.WellFormed, WorkingSet.View;
    }

    lemma DualsPolished(source: WorkingSet, s: Sets, varsDual: Vec, consDual: Vec, removedVars: nat, removedCons: nat)
      requires varsDual.dim == s.NumVars() && consDual.dim == s.NumCons()
      requires Polished(source, s, KeepStored(varsDual), KeepStored(consDual), removedVars, removedCons)
      ensures source.Valid()
      ensures DualsDecide(s.varStates, source.View().varStates, varsDual)
      ensures DualsDecide(s.consStates, source.View().consStates, consDual)
    {
      StoredMeans(s.varStates, varsDual);
      StoredMeans(s.consStates, consDual);
      hide DualsDecide, KeepStored, Filtered, Sets.WellFormed, WorkingSet.View;
    }

    /** A set whose active entries all sit on the bounds they name is polished without removals. */
    lemma OnBoundsNothingRemoved(source: WorkingSet, s: Sets, problem: Problem, primal: Vec, consVal: Vec,
                                 varsDual: Vec, consDual: Vec, removedVars: nat, removedCons: nat)
      requires problem.Shaped() && primal.Valid() && consVal.Valid() && feasEps >= 0.0
      requires varsDual.dim == s.NumVars() && consDual.dim == s.NumCons()
      requires Polished(source, s, KeepAtBound(problem.varsLb, primal, problem.varsUb, varsDual, feasEps),
                        KeepAtBound(problem.consLb, consVal, problem.consUb, consDual, feasEps), removedVars,
                        removedCons)
      requires forall j :: 0 <= j < s.NumVars() ==>
        ReachesBound(s.varStates[j], primal.At(j), problem.varsLb.At(j), problem.varsUb.At(j))
      requires forall i :: 0 <= i < s.NumCons() ==>
        ReachesBound(s.consStates[i], consVal.At(i), problem.consLb.At(i), problem.consUb.At(i))
      ensures removedVars == removedCons == 0 && source.Valid()
      ensures source.View().varStates == s.varStates && source.View().consStates == s.consStates
    {
      BoundsPolished(source, s, problem, primal, consVal, varsDual, consDual, removedVars, removedCons);
      hide Vec.At, BoundsDecide, KeepAtBound, Filtered, ReachesBound;
      OnBoundsUnchanged(s.varStates, source.View().varStates, problem.varsLb, primal, problem.varsUb, varsDual,
                        feasEps);
      OnBoundsUnchanged(s.consStates, source.View().consStates, problem.consLb, consVal, problem.consUb, consDual,
                        feasEps);
    }

    /** polish_zero_dual: keeps exactly the entries with a stored dual */
    method PolishZeroDual(source: WorkingSet, varsDual: Vec, consDual: Vec, ghost s: Sets)
      returns (removedVars: nat, removedCons: nat)
      requires Ready(source) && source.View() == s && varsDual.Valid() && consDual.Valid()
      requires varsDual.dim == s.NumVars() && consDual.dim == s.NumCons()
      modifies workingSet.Repr(), source.Repr()
      ensures Polished(source, s, KeepStored(varsDual), KeepStored(consDual), removedVars, removedCons)
      ensures source.Valid() && DualsDecide(s.varStates, source.View().varStates, varsDual)
        && DualsDecide(s.consStates, source.View().consStates, consDual)
    {
      ghost var keepVars, keepCons := KeepStored(varsDual), KeepStored(consDual);
      assert workingSet.varStates.Length == s.NumVars() && workingSet.consStates.Length == s.NumCons();
      hide Sets.WellFormed, ConsTo, VarsTo, WorkingSet.View, WorkingSet.Valid, Progress, IsCompaction, Polished,
           Removed;
      workingSet.Reset();
      RangeStart(source, s, keepVars, keepCons);
      removedVars := ZeroDualRange(source, varsDual, false, s, keepVars, keepCons);
      RangeSwitch(source, s, keepVars, keepCons);
      removedCons := ZeroDualRange(source, consDual, true, s, keepVars, keepCons);
      Finish(source, s, keepVars, keepCons, removedVars, removedCons);
      DualsPolished(source, s, varsDual, consDual, removedVars, removedCons);
    }

    /** polish_inactive: keeps exactly the entries with a stored dual or a value at one of the bounds */
    method PolishInactive(source: WorkingSet, problem: Problem, primal: Vec, consVal: Vec, varsDual: Vec, consDual: Vec,
                          ghost s: Sets)
      returns (removedVars: nat, removedCons: nat)
      requires Ready(source) && source.View() == s && varsDual.Valid() && consDual.Valid()
      requires problem.Shaped() && primal.Valid() && consVal.Valid()
      requires varsDual.dim == primal.dim == problem.NumVars() == s.NumVars()
      requires consDual.dim == consVal.dim == problem.NumCons() == s.NumCons()
      modifies workingSet.Repr(), source.Repr()
      ensures Polished(source, s, KeepAtBound(problem.varsLb, primal, problem.varsUb, varsDual, feasEps),
                       KeepAtBound(problem.consLb, consVal, problem.consUb, consDual, feasEps), removedVars,
                         removedCons)
      ensures source.Valid()
        && BoundsDecide(s.varStates, source.View().varStates, problem.varsLb, primal, problem.varsUb, varsDual, feasEps)
        && BoundsDecide(s.consStates, source.View().consStates, problem.consLb, consVal, problem.consUb, consDual,
                        feasEps)
    {
      ghost var keepVars := KeepAtBound(problem.varsLb, primal, problem.varsUb, varsDual, feasEps);
      ghost var keepCons := KeepAtBound(problem.consLb, consVal, problem.consUb, consDual, feasEps);
      assert workingSet.varStates.Length == s.NumVars() && workingSet.consStates.Length == s.NumCons();
      hide Sets.WellFormed, ConsTo, VarsTo, WorkingSet.View, WorkingSet.Valid, Progress, IsCompaction, Polished,
           Removed, Vec.At, KeepAtBound;
      workingSet.Reset();
      RangeStart(source, s, keepVars, keepCons);
      removedVars := InactiveRange(source, problem.varsLb, primal, problem.varsUb, varsDual, false, s, keepVars,
                                   keepCons);
      RangeSwitch(source, s, keepVars, keepCons);
      removedCons := InactiveRange(source, problem.consLb, consVal, problem.consUb, consDual, true, s, keepVars,
                                   keepCons);
      Finish(source, s, keepVars, keepCons, removedVars, removedCons);
      BoundsPolished(source, s, problem, primal, consVal, varsDual, consDual, removedVars, removedCons);
    }
  }
}
