/** The working set of src/main/working_set.c: which variables and constraints are active, and at which position of
    the working-set matrix. */
module WorkingSets {
  import opened LinearAlgebra
  import opened SparseVec
  import opened Problems
  import opened FiniteSets

  const NONE: int := -1

  /** The number of active states among the first k. */
  function Count(states: seq<ActiveState>, k: nat): (c: nat)
    requires k <= |states|
  {
    if k == 0 then 0 else Count(states, k - 1) + if states[k - 1] == Inactive then 0 else 1
  }

  /** Index map and content are inverse to each other on one kind of entry, found at positions from..to. */
  ghost predicate Inverse(content: seq<int>, states: seq<ActiveState>, indices: seq<int>, shift: nat, from: nat,
                          to: nat)
    requires |states| == |indices| && from <= to <= |content|
  {
    && (forall j :: 0 <= j < |indices| ==> (indices[j] == NONE <==> states[j] == Inactive))
    && (forall j :: 0 <= j < |indices| && indices[j] != NONE ==>
          from <= indices[j] < to && content[indices[j]] == shift + j)
    && (forall k :: from <= k < to ==>
          shift <= content[k] < shift + |indices| && indices[content[k] - shift] == k)
  }

  /** The value of a working set. content lists the active variables, then the active constraints shifted by the
      number of variables; entries behind it are not part of the value. */
  datatype Sets = Sets(varStates: seq<ActiveState>, consStates: seq<ActiveState>,
                       varIndices: seq<int>, consIndices: seq<int>, content: seq<int>, numActiveVars: nat)
  {
    function NumVars(): nat { |varStates| }

    function NumCons(): nat { |consStates| }

    function Size(): nat { |content| }

    ghost predicate WellFormed()
    {
      && |varIndices| == NumVars() && |consIndices| == NumCons() && numActiveVars <= Size()
      && Inverse(content, varStates, varIndices, 0, 0, numActiveVars)
      && Inverse(content, consStates, consIndices, NumVars(), numActiveVars, Size())
      && Count(varStates, NumVars()) == numActiveVars
      && Count(consStates, NumCons()) == Size() - numActiveVars
    }

    /** Content entries are in range: variables first, then constraints. */
    ghost predicate Placed()
    {
      && numActiveVars <= Size()
      && (forall k :: 0 <= k < numActiveVars ==> 0 <= content[k] < NumVars())
      && (forall k :: numActiveVars <= k < Size() ==> NumVars() <= content[k] < NumVars() + NumCons())
    }

    /** Active constraints appear in the order of their indices. */
    ghost predicate OrderPreserving()
    {
      |consIndices| == NumCons() &&
      forall i, k :: 0 <= i < k < NumCons() && consIndices[i] != NONE && consIndices[k] != NONE ==>
        consIndices[i] < consIndices[k]
    }

    function WithVar(j: nat, state: ActiveState): Sets
      requires j < NumVars() == |varIndices|
    {
      this.(varStates := varStates[j := state], varIndices := varIndices[j := numActiveVars],
            content := content + [j], numActiveVars := numActiveVars + 1)
    }

    function WithCons(i: nat, state: ActiveState): Sets
      requires i < NumCons() == |consIndices|
    {
      this.(consStates := consStates[i := state], consIndices := consIndices[i := Size()],
            content := content + [NumVars() + i])
    }
  }

  function EmptySets(numVars: nat, numCons: nat): Sets
  {
    Sets(seq(numVars, j => Inactive), seq(numCons, i => Inactive), seq(numVars, j => NONE), seq(numCons, i => NONE),
         [], 0)
  }

  // ----- what every operation keeps

  lemma {:induction false} CountInactive(states: seq<ActiveState>, k: nat)
    requires k <= |states| && forall j :: 0 <= j < k ==> states[j] == Inactive
    ensures Count(states, k) == 0
  {
    if k > 0 { CountInactive(states, k - 1); }
  }

  /** Activating one state counts one more, and an inactive state leaves room. */
  lemma {:induction false} CountUpdate(states: seq<ActiveState>, j: nat, state: ActiveState, k: nat)
    requires j < |states| && k <= |states| && states[j] == Inactive && state != Inactive
    ensures Count(states[j := state], k) == Count(states, k) + if j < k then 1 else 0
    ensures Count(states, k) <= k && (j < k ==> Count(states, k) < k)
  {
    if k > 0 { CountUpdate(states, j, state, k - 1); }
  }

  lemma EmptyWellFormed(numVars: nat, numCons: nat)
    ensures EmptySets(numVars, numCons).WellFormed() && EmptySets(numVars, numCons).OrderPreserving()
  {
    var s := EmptySets(numVars, numCons);
    CountInactive(s.varStates, numVars);
    CountInactive(s.consStates, numCons);
  }

  /** The other kind of entry is not disturbed by an addition. */
  lemma InverseKept(content: seq<int>, states: seq<ActiveState>, indices: seq<int>, shift: nat, from: nat, to: nat,
                    c: int)
    requires |states| == |indices| && from <= to <= |content| && Inverse(content, states, indices, shift, from, to)
    ensures Inverse(content + [c], states, indices, shift, from, to)
  {
  }

  lemma InverseExtended(content: seq<int>, states: seq<ActiveState>, indices: seq<int>, shift: nat, from: nat,
                        j: nat, state: ActiveState)
    requires |states| == |indices| && from <= |content| && j < |indices|
    requires Inverse(content, states, indices, shift, from, |content|)
    requires states[j] == Inactive && state != Inactive
    ensures Inverse(content + [shift + j], states[j := state], indices[j := |content|], shift, from, |content| + 1)
  {
  }

  lemma WithVarWellFormed(s: Sets, j: nat, state: ActiveState)
    requires s.WellFormed() && j < s.NumVars() && s.varStates[j] == Inactive && state != Inactive
    requires s.Size() == s.numActiveVars
    ensures s.WithVar(j, state).WellFormed() && s.Size() < s.NumVars()
  {
    CountUpdate(s.varStates, j, state, s.NumVars());
    InverseExtended(s.content, s.varStates, s.varIndices, 0, 0, j, state);
    assert Inverse(s.content + [j], s.consStates, s.consIndices, s.NumVars(), s.Size() + 1, s.Size() + 1);
    hide Inverse;
  }

  lemma WithConsWellFormed(s: Sets, i: nat, state: ActiveState)
    requires s.WellFormed() && i < s.NumCons() && s.consStates[i] == Inactive && state != Inactive
    ensures s.WithCons(i, state).WellFormed() && s.Size() < s.NumVars() + s.NumCons()
  {
    hide Inverse;
    CountUpdate(s.consStates, i, state, s.NumCons());
    CountBound(s.varStates, s.NumVars());
    InverseKept(s.content, s.varStates, s.varIndices, 0, 0, s.numActiveVars, s.NumVars() + i);
    InverseExtended(s.content, s.consStates, s.consIndices, s.NumVars(), s.numActiveVars, i, state);
  }

  lemma {:induction false} CountBound(states: seq<ActiveState>, k: nat)
    requires k <= |states|
    ensures Count(states, k) <= k
  {
    if k > 0 { CountBound(states, k - 1); }
  }

  // ----- runs

  datatype Operation = Reset | AddVar(index: nat, state: ActiveState) | AddCons(index: nat, state: ActiveState)

  /** What the operation's assertions ask of the caller. Adding a variable behind a constraint is not among them: it
      is answered by an error. */
  predicate Legal(s: Sets, op: Operation)
  {
    match op
    case Reset => true
    case AddVar(j, state) => j < s.NumVars() && s.varStates[j] == Inactive && state != Inactive
    case AddCons(i, state) => i < s.NumCons() && s.consStates[i] == Inactive && state != Inactive
  }

  ghost function Apply(s: Sets, op: Operation): Sets
    requires s.WellFormed() && Legal(s, op)
  {
    match op
    case Reset => EmptySets(s.NumVars(), s.NumCons())
    case AddVar(j, state) => if s.Size() != s.numActiveVars then s else s.WithVar(j, state)
    case AddCons(i, state) => s.WithCons(i, state)
  }

  lemma ApplyWellFormed(s: Sets, op: Operation)
    requires s.WellFormed() && Legal(s, op)
    ensures Apply(s, op).WellFormed()
    ensures Apply(s, op).NumVars() == s.NumVars() && Apply(s, op).NumCons() == s.NumCons()
  {
    match op
    case Reset => EmptyWellFormed(s.NumVars(), s.NumCons());
    case AddVar(j, state) => if s.Size() == s.numActiveVars { WithVarWellFormed(s, j, state); }
    case AddCons(i, state) => WithConsWellFormed(s, i, state);
  }

  ghost predicate Step(s: Sets, op: Operation, t: Sets)
  {
    s.WellFormed() ==> Legal(s, op) && t == Apply(s, op)
  }

  /** A step of a run over several sets of one problem: an operation on one of them, or a copy between two. */
  datatype Action = On(target: nat, op: Operation) | Copy(target: nat, source: nat)

  ghost predicate ActionStep(pool: seq<Sets>, action: Action, next: seq<Sets>)
  {
    && action.target < |pool| == |next|
    && next == pool[action.target := next[action.target]]
    && match action
       case On(target, op) => Step(pool[target], op, next[target])
       case Copy(target, source) => source < |pool| && next[target] == pool[source]
  }

  /** The states of a run, each operation legal where it is applied. */
  ghost predicate IsRun(pools: seq<seq<Sets>>, actions: seq<Action>, count: nat, numVars: nat, numCons: nat)
  {
    && |pools| == |actions| + 1 && pools[0] == seq(count, i => EmptySets(numVars, numCons))
    && forall k :: 0 <= k < |actions| ==> ActionStep(pools[k], actions[k], pools[k + 1])
  }

  /** Over every legal run of operations and copies the index maps and the content of every set stay inverse to each
      other, variables first. */
  lemma {:induction false} RunWellFormed(
      pools: seq<seq<Sets>>, actions: seq<Action>, count: nat, numVars: nat, numCons: nat, k: nat, i: nat)
    requires IsRun(pools, actions, count, numVars, numCons) && k < |pools| && i < |pools[k]|
    ensures pools[k][i].WellFormed() && pools[k][i].NumVars() == numVars && pools[k][i].NumCons() == numCons
  {
    if k == 0 {
      EmptyWellFormed(numVars, numCons);
    } else {
      var action := actions[k - 1];
      assert ActionStep(pools[k - 1], action, pools[k - 1 + 1]);
      if i != action.target {
        RunWellFormed(pools, actions, count, numVars, numCons, k - 1, i);
      } else {
        match action
        case On(target, op) =>
          RunWellFormed(pools, actions, count, numVars, numCons, k - 1, target);
          ApplyWellFormed(pools[k - 1][target], op);
        case Copy(target, source) => RunWellFormed(pools, actions, count, numVars, numCons, k - 1, source);
      }
    }
  }

  /** So sleqp_working_set_valid is satisfied with every set of every legal run. */
  lemma RunIsChecked(
      pools: seq<seq<Sets>>, actions: seq<Action>, count: nat, numVars: nat, numCons: nat, k: nat, i: nat)
    requires IsRun(pools, actions, count, numVars, numCons) && k < |pools| && i < |pools[k]|
    ensures pools[k][i].WellFormed() && Checked(pools[k][i])
  {
    RunWellFormed(pools, actions, count, numVars, numCons, k, i);
    WellFormedIsChecked(pools[k][i]);
  }

  /** Adding a constraint behind all active ones keeps the order. */
  lemma AppendKeepsOrder(s: Sets, i: nat, state: ActiveState)
    requires s.WellFormed() && s.OrderPreserving() && i < s.NumCons()
    requires s.consStates[i] == Inactive && state != Inactive
    requires forall k :: i < k < s.NumCons() ==> s.consIndices[k] == NONE
    ensures s.WithCons(i, state).OrderPreserving()
  {
  }

  // ----- the checks of sleqp_working_set_valid

  /** Set indices are unique below the limit. */
  ghost predicate Unique(indices: seq<int>, limit: int)
  {
    && (forall j :: 0 <= j < |indices| && indices[j] != NONE ==> indices[j] < limit)
    && (forall j, k :: 0 <= j < k < |indices| && indices[j] != NONE && indices[k] != NONE ==> indices[j] != indices[k])
  }

  ghost predicate Points(s: Sets, c: int)
  {
    && 0 <= c < s.NumVars() + s.NumCons()
    && if c < s.NumVars() then s.varStates[c] != Inactive else s.consStates[c - s.NumVars()] != Inactive
  }

  /** The number of set indices among the first k. */
  function CountSet(indices: seq<int>, k: nat): nat
    requires k <= |indices|
  {
    if k == 0 then 0 else CountSet(indices, k - 1) + if indices[k - 1] == NONE then 0 else 1
  }

  /** What sleqp_working_set_valid examines. */
  ghost predicate Checked(s: Sets)
    requires |s.varIndices| == s.NumVars() && |s.consIndices| == s.NumCons() && s.numActiveVars <= s.Size()
  {
    && Count(s.varStates, s.NumVars()) == CountSet(s.varIndices, s.NumVars()) == s.numActiveVars
    && Count(s.consStates, s.NumCons()) == CountSet(s.consIndices, s.NumCons()) == s.Size() - s.numActiveVars
    && Unique(s.varIndices, s.numActiveVars) && Unique(s.consIndices, s.Size())
    && (forall k :: 0 <= k < s.Size() ==> Points(s, s.content[k]))
    && (forall k, l :: 0 <= k < l < s.Size() ==> s.content[k] != s.content[l])
  }

  lemma {:induction false} CountSetIsCount(states: seq<ActiveState>, indices: seq<int>, k: nat)
    requires k <= |states| == |indices|
    requires forall j :: 0 <= j < k ==> (indices[j] == NONE <==> states[j] == Inactive)
    ensures CountSet(indices, k) == Count(states, k)
  {
    if k > 0 { CountSetIsCount(states, indices, k - 1); }
  }

  lemma InverseIsUnique(content: seq<int>, states: seq<ActiveState>, indices: seq<int>, shift: nat, from: nat, to: nat)
    requires |states| == |indices| && from <= to <= |content| && Inverse(content, states, indices, shift, from, to)
    ensures Unique(indices, to)
    ensures forall k :: from <= k < to ==>
      shift <= content[k] < shift + |indices| && states[content[k] - shift] != Inactive
    ensures forall k, l :: from <= k < l < to ==> content[k] != content[l]
    ensures CountSet(indices, |indices|) == Count(states, |states|)
  {
    CountSetIsCount(states, indices, |states|);
    forall k | from <= k < to ensures states[content[k] - shift] != Inactive {
      assert indices[content[k] - shift] == k;
    }
    forall k, l | from <= k < l < to ensures content[k] != content[l] {
      assert indices[content[k] - shift] == k && indices[content[l] - shift] == l;
    }
  }

  /** Every well-formed set passes the checks. */
  lemma WellFormedIsChecked(s: Sets)
    requires s.WellFormed()
    ensures Checked(s)
  {
    hide Inverse, Unique, Count, CountSet;
    InverseIsUnique(s.content, s.varStates, s.varIndices, 0, 0, s.numActiveVars);
    InverseIsUnique(s.content, s.consStates, s.consIndices, s.NumVars(), s.numActiveVars, s.Size());
  }

  // ----- when the checks suffice

  /** Every index that is set points to its own entry of the content. */
  ghost predicate Agrees(s: Sets)
    requires |s.varIndices| == s.NumVars() && |s.consIndices| == s.NumCons()
  {
    && PointBack(s.varIndices, s.content, 0)
    && PointBack(s.consIndices, s.content, s.NumVars())
  }

  ghost predicate PointBack(indices: seq<int>, content: seq<int>, shift: nat)
  {
    forall j :: 0 <= j < |indices| && indices[j] != NONE ==>
      0 <= indices[j] < |content| && content[indices[j]] == shift + j
  }

  /** The first k indices that are set, as a set. */
  ghost function Positions(indices: seq<int>, k: nat): (p: set<int>)
    requires k <= |indices|
  {
    if k == 0 then {} else Positions(indices, k - 1) + if indices[k - 1] == NONE then {} else {indices[k - 1]}
  }

  lemma {:induction false} PositionsAre(indices: seq<int>, limit: int, k: nat)
    requires k <= |indices| && Unique(indices, limit)
    ensures forall p :: p in Positions(indices, k) <==> exists j :: 0 <= j < k && indices[j] == p && p != NONE
    ensures |Positions(indices, k)| == CountSet(indices, k)
  {
    if k > 0 {
      PositionsAre(indices, limit, k - 1);
      if indices[k - 1] != NONE {
        assert indices[k - 1] !in Positions(indices, k - 1);
      }
    }
  }

  /** As many distinct positions as there are places fill all places. */
  lemma AllFilled(indices: seq<int>, from: nat, to: nat, k: int)
    requires Unique(indices, to) && from <= k < to && CountSet(indices, |indices|) == to - from
    requires forall j :: 0 <= j < |indices| && indices[j] != NONE ==> from <= indices[j]
    ensures exists j :: 0 <= j < |indices| && indices[j] == k
  {
    PositionsAre(indices, to, |indices|);
    FillsInterval(Positions(indices, |indices|), from, to, k);
  }

  /** Where all set indices belong to active states and the numbers agree, the indices of inactive states are unset. */
  lemma {:induction false} SetIffActive(states: seq<ActiveState>, indices: seq<int>, k: nat)
    requires k <= |states| == |indices|
    requires forall j :: 0 <= j < |indices| && indices[j] != NONE ==> states[j] != Inactive
    ensures CountSet(indices, k) <= Count(states, k)
    ensures CountSet(indices, k) == Count(states, k) ==>
      forall j :: 0 <= j < k ==> (indices[j] == NONE <==> states[j] == Inactive)
  {
    if k > 0 { SetIffActive(states, indices, k - 1); }
  }

  lemma InverseFrom(content: seq<int>, states: seq<ActiveState>, indices: seq<int>, shift: nat, from: nat, to: nat)
    requires |states| == |indices| && from <= to <= |content| && PointBack(indices, content, shift)
    requires Unique(indices, to) && CountSet(indices, |indices|) == Count(states, |states|) == to - from
    requires forall j :: 0 <= j < |indices| && indices[j] != NONE ==> from <= indices[j] && states[j] != Inactive
    ensures Inverse(content, states, indices, shift, from, to)
  {
    SetIffActive(states, indices, |states|);
    forall k | from <= k < to
      ensures shift <= content[k] < shift + |indices| && indices[content[k] - shift] == k
    {
      AllFilled(indices, from, to, k);
      var j :| 0 <= j < |indices| && indices[j] == k;
      assert content[indices[j]] == shift + j;
    }
  }

  lemma ActiveWhereSet(s: Sets, j: nat)
    requires |s.varIndices| == s.NumVars() && |s.consIndices| == s.NumCons() && s.numActiveVars <= s.Size()
    requires Checked(s) && Agrees(s)
    ensures j < s.NumVars() && s.varIndices[j] != NONE ==> 0 <= s.varIndices[j] && s.varStates[j] != Inactive
    ensures j < s.NumCons() && s.consIndices[j] != NONE ==> 0 <= s.consIndices[j] && s.consStates[j] != Inactive
  {
    if j < s.NumVars() && s.varIndices[j] != NONE { assert Points(s, s.content[s.varIndices[j]]); }
    if j < s.NumCons() && s.consIndices[j] != NONE { assert Points(s, s.content[s.consIndices[j]]); }
  }

  lemma CheckedAndAgreesIsWellFormed(s: Sets)
    requires |s.varIndices| == s.NumVars() && |s.consIndices| == s.NumCons() && s.numActiveVars <= s.Size()
    requires Checked(s) && Agrees(s)
    ensures s.WellFormed()
  {
    var n, a := s.NumVars(), s.numActiveVars;
    forall j: nat { ActiveWhereSet(s, j); }
    InverseFrom(s.content, s.varStates, s.varIndices, 0, 0, a);
    forall i | 0 <= i < s.NumCons() && s.consIndices[i] != NONE ensures a <= s.consIndices[i] {
      assert s.content[s.consIndices[i]] == n + i;
    }
    InverseFrom(s.content, s.consStates, s.consIndices, n, a, s.Size());
  }

  /** The checks establish well-formedness exactly for the sets whose index maps point back to themselves through the
      content, the one comparison that is not made. */
  lemma WellFormedIff(s: Sets)
    requires |s.varIndices| == s.NumVars() && |s.consIndices| == s.NumCons() && s.numActiveVars <= s.Size()
    ensures s.WellFormed() <==> Checked(s) && Agrees(s)
  {
    if s.WellFormed() { WellFormedIsChecked(s); }
    if Checked(s) && Agrees(s) { CheckedAndAgreesIsWellFormed(s); }
  }

  /** Without that comparison the checks do not suffice: here both variables are active and the content lists them the
      wrong way round. No legal run leads to such a set. */
  lemma CheckedIsNotWellFormed()
    ensures var s := Sets([ActiveLower, ActiveLower], [], [0, 1], [], [1, 0], 2);
      Checked(s) && !s.WellFormed()
  {
    var s := Sets([ActiveLower, ActiveLower], [], [0, 1], [], [1, 0], 2);
    assert Count(s.varStates, 2) == 2 && CountSet(s.varIndices, 2) == 2;
    assert Points(s, s.content[0]) && Points(s, s.content[1]);
    assert s.content[s.varIndices[0]] != 0;
  }

  // ----- supported duals

  /** The sign a dual may have in a state. */
  predicate Supports(state: ActiveState, dual: real)
  {
    match state
    case ActiveBoth => true
    case ActiveLower => dual <= 0.0
    case ActiveUpper => dual >= 0.0
    case Inactive => dual == 0.0
  }

  /** A value in an active state is at the bound the state names. */
  ghost predicate ReachesBound(state: ActiveState, value: real, lower: real, upper: real)
  {
    && (state == ActiveUpper || state == ActiveBoth ==> value == upper)
    && (state == ActiveLower || state == ActiveBoth ==> value == lower)
  }

  /** A value that is at the bounds its state names, and away from them otherwise, may change by a small p. */
  ghost predicate MayChange(state: ActiveState, p: real)
  {
    && (state == ActiveUpper || state == ActiveBoth ==> p <= 0.0)
    && (state == ActiveLower || state == ActiveBoth ==> p >= 0.0)
  }

  /** A dual is supported exactly if no change that stays inside the bounds lowers an objective whose gradient the dual
      cancels. */
  lemma SupportsIff(state: ActiveState, dual: real)
    ensures Supports(state, dual) <==> forall p :: MayChange(state, p) ==> Times(dual, p) <= 0.0
  {
    if Supports(state, dual) {
      forall p | MayChange(state, p) ensures Times(dual, p) <= 0.0 {
        ProductSign(dual, p, dual * p);
        ProductSign(-dual, p, -(dual * p));
        ProductSign(dual, -p, -(dual * p));
      }
    } else {
      var p := if dual > 0.0 then 1.0 else -1.0;
      assert MayChange(state, p) && Times(dual, p) > 0.0;
    }
  }

  ghost predicate SupportsAll(states: seq<ActiveState>, dual: Vector)
    requires |states| == |dual|
  {
    forall i :: 0 <= i < |dual| ==> Supports(states[i], dual[i])
  }

  /** supports_range */
  method SupportsRange(dual: Vec, states: array<ActiveState>) returns (supports: bool)
    requires dual.Valid() && dual.dim == states.Length
    ensures supports <==> SupportsAll(states[..], dual.Dense())
  {
    ghost var j := 0;
    for k := 0 to |dual.indices|
      invariant 0 <= j <= dual.dim && dual.Cursor(k, j)
      invariant forall i :: 0 <= i < j ==> Supports(states[i], dual.At(i))
    {
      var i, v := dual.indices[k], dual.data[k];
      CursorSkip(dual, k, j, i);
      CursorAt(dual, k, i);
      var refused := match states[i]
        case ActiveBoth => false
        case ActiveLower => v > 0.0
        case ActiveUpper => v < 0.0
        case Inactive => v != 0.0;
      if refused {
        assert dual.Dense()[i] == v && !Supports(states[..][i], v);
        return false;
      }
      j := i + 1;
    }
    CursorEnd(dual, j);
    supports := true;
  }

  // ----- the object

  class WorkingSet {
    const varStates: array<ActiveState>
    const consStates: array<ActiveState>
    const varIndices: array<int>
    const consIndices: array<int>
    const content: array<int>
    var numActiveVars: nat
    var numActiveCons: nat

    /** The arrays are distinct and large enough. */
    ghost predicate Shaped()
    {
      && varStates != consStates && varIndices != consIndices && varIndices != content && consIndices != content
      && varIndices.Length == varStates.Length && consIndices.Length == consStates.Length
      && content.Length == varStates.Length + consStates.Length
    }

    ghost predicate Valid()
      reads this, varStates, consStates, varIndices, consIndices, content
    {
      Shaped() && numActiveVars + numActiveCons <= content.Length && View().WellFormed()
    }

    function View(): (s: Sets)
      requires Shaped() && numActiveVars + numActiveCons <= content.Length
      reads this, varStates, consStates, varIndices, consIndices, content
    {
      Sets(varStates[..], consStates[..], varIndices[..], consIndices[..],
           content[..numActiveVars + numActiveCons], numActiveVars)
    }

    ghost function Repr(): set<object>
    {
      {this, varStates, consStates, varIndices, consIndices, content}
    }

    /** sleqp_working_set_create */
    constructor (numVars: nat, numCons: nat)
      ensures Valid() && View() == EmptySets(numVars, numCons) && fresh(Repr())
    {
      varStates := new ActiveState[numVars](_ => Inactive);
      consStates := new ActiveState[numCons](_ => Inactive);
      varIndices := new int[numVars](_ => NONE);
      consIndices := new int[numCons](_ => NONE);
      content := new int[numVars + numCons];
      numActiveVars, numActiveCons := 0, 0;
      new;
      assert View() == EmptySets(numVars, numCons);
      EmptyWellFormed(numVars, numCons);
    }

    /** sleqp_working_set_reset */
    method Reset()
      requires Shaped()
      modifies this, varStates, consStates, varIndices, consIndices
      ensures Valid() && View() == EmptySets(varStates.Length, consStates.Length)
    {
      for j := 0 to varStates.Length
        invariant forall k :: 0 <= k < j ==> varStates[k] == Inactive && varIndices[k] == NONE
      {
        varStates[j] := Inactive;
        varIndices[j] := NONE;
      }
      for i := 0 to consStates.Length
        invariant forall k :: 0 <= k < varStates.Length ==> varStates[k] == Inactive && varIndices[k] == NONE
        invariant forall k :: 0 <= k < i ==> consStates[k] == Inactive && consIndices[k] == NONE
      {
        consStates[i] := Inactive;
        consIndices[i] := NONE;
      }
      numActiveCons, numActiveVars := 0, 0;
      assert View() == EmptySets(varStates.Length, consStates.Length);
      EmptyWellFormed(varStates.Length, consStates.Length);
    }

    /** sleqp_working_set_add_var: refused with an error once a constraint is present */
    method AddVar(index: nat, state: ActiveState) returns (error: bool)
      requires Valid() && Legal(View(), Operation.AddVar(index, state))
      modifies this`numActiveVars, varIndices, content, varStates
      ensures Valid() && View() == Apply(old(View()), Operation.AddVar(index, state))
      ensures error <==> old(numActiveCons) > 0
      ensures !error ==>
        && View().content == old(View()).content + [index] && View().numActiveVars == old(View()).numActiveVars + 1
        && View().varStates == old(View()).varStates[index := state] && View().consStates == old(View()).consStates
    {
      ghost var s := View();
      if numActiveCons != 0 { return true; }
      WithVarWellFormed(s, index, state);
      hide Sets.WellFormed, Count;
      var size := numActiveVars + numActiveCons;
      varIndices[index] := numActiveVars;
      numActiveVars := numActiveVars + 1;
      content[size] := index;
      varStates[index] := state;
      assert View() == s.WithVar(index, state);
      error := false;
    }

    /** sleqp_working_set_add_cons */
    method AddCons(index: nat, state: ActiveState)
      requires Valid() && Legal(View(), Operation.AddCons(index, state))
      modifies this`numActiveCons, consIndices, content, consStates
      ensures Valid() && View() == Apply(old(View()), Operation.AddCons(index, state))
      ensures View().content == old(View()).content + [varStates.Length + index]
      ensures View().numActiveVars == old(View()).numActiveVars && View().varStates == old(View()).varStates
      ensures View().consStates == old(View()).consStates[index := state]
    {
      ghost var s := View();
      WithConsWellFormed(s, index, state);
      hide Sets.WellFormed, Count;
      var size := numActiveVars + numActiveCons;
      consIndices[index] := numActiveVars + numActiveCons;
      numActiveCons := numActiveCons + 1;
      content[size] := varStates.Length + index;
      consStates[index] := state;
      assert View() == s.WithCons(index, state);
    }

    /** sleqp_working_set_eq: compares the index maps only */
    method Eq(other: WorkingSet) returns (equal: bool)
      requires Shaped() && other.Shaped()
      requires varStates.Length == other.varStates.Length && consStates.Length == other.consStates.Length
      ensures equal <==> varIndices[..] == other.varIndices[..] && consIndices[..] == other.consIndices[..]
    {
      for j := 0 to varIndices.Length
        invariant forall k :: 0 <= k < j ==> varIndices[k] == other.varIndices[k]
      {
        if varIndices[j] != other.varIndices[j] {
          assert varIndices[..][j] != other.varIndices[..][j];
          return false;
        }
      }
      for i := 0 to consIndices.Length
        invariant forall k :: 0 <= k < i ==> consIndices[k] == other.consIndices[k]
      {
        if consIndices[i] != other.consIndices[i] {
          assert consIndices[..][i] != other.consIndices[..][i];
          return false;
        }
      }
      equal := true;
    }

    /** sleqp_working_set_copy, with this as the target */
    method CopyFrom(source: WorkingSet)
      requires Shaped() && source.Valid() && source.Repr() !! Repr()
      requires varStates.Length == source.varStates.Length && consStates.Length == source.consStates.Length
      modifies this, varStates, consStates, varIndices, consIndices, content
      ensures Valid() && View() == source.View()
    {
      hide Sets.WellFormed;
      CopyStates(source.varStates, varStates);
      CopyStates(source.consStates, consStates);
      numActiveCons, numActiveVars := source.numActiveCons, source.numActiveVars;
      CopyIndices(source.varIndices, varIndices);
      CopyIndices(source.consIndices, consIndices);
      CopyIndices(source.content, content);
      assert content[..numActiveVars + numActiveCons] == source.content[..numActiveVars + numActiveCons];
    }

    static method CopyStates(source: array<ActiveState>, target: array<ActiveState>)
      requires source.Length == target.Length && source != target
      modifies target
      ensures target[..] == source[..]
    {
      for j := 0 to source.Length
        invariant target[..j] == source[..j]
      {
        target[j] := source[j];
      }
    }

    static method CopyIndices(source: array<int>, target: array<int>)
      requires source.Length == target.Length && source != target
      modifies target
      ensures target[..] == source[..]
    {
      for j := 0 to source.Length
        invariant target[..j] == source[..j]
      {
        target[j] := source[j];
      }
    }

    /** sleqp_working_set_valid; that the size stays within the number of variables is asserted there */
    method IsValid() returns (valid: bool)
      requires Shaped() && numActiveVars + numActiveCons <= varStates.Length
      ensures valid <==> Checked(View())
    {
      ghost var s := View();
      hide Unique, Points, Sets.WellFormed;
      var size := numActiveVars + numActiveCons;
      var activeVars := CountActive(varStates);
      var activeCons := CountActive(consStates);
      if activeVars != numActiveVars || activeCons != numActiveCons { return false; }
      var varsFine := CheckIndices(varIndices, numActiveVars, numActiveVars);
      if !varsFine { return false; }
      var consFine := CheckIndices(consIndices, size, numActiveCons);
      if !consFine { return false; }
      valid := CheckContent();
    }

    static method CountActive(states: array<ActiveState>) returns (count: nat)
      ensures count == Count(states[..], states.Length)
    {
      count := 0;
      for j := 0 to states.Length
        invariant count == Count(states[..], j)
      {
        if states[j] != Inactive { count := count + 1; }
      }
    }

    /** The indices are below the limit and unique, and their number is the expected one. */
    static method CheckIndices(indices: array<int>, limit: nat, expected: nat) returns (fine: bool)
      ensures fine <==> Unique(indices[..], limit) && CountSet(indices[..], indices.Length) == expected
    {
      var count: nat := 0;
      for j := 0 to indices.Length
        invariant count == CountSet(indices[..], j)
        invariant forall k :: 0 <= k < j && indices[k] != NONE ==> indices[k] < limit
        invariant forall k, l :: 0 <= k < j && 0 <= l < indices.Length && k != l && indices[k] != NONE ==>
          indices[k] != indices[l]
      {
        var idx := indices[j];
        if idx == NONE { continue; }
        if idx >= limit {
          assert indices[..][j] >= limit;
          return false;
        }
        count := count + 1;
        for k := 0 to indices.Length
          invariant forall l :: 0 <= l < k && l != j ==> indices[l] != idx
        {
          if (j == k) != (idx == indices[k]) {
            assert indices[..][j] == indices[..][k] && j != k;
            return false;
          }
        }
      }
      fine := count == expected;
    }

    /** Every content entry points to an active variable or constraint, and no two are equal. */
    method CheckContent() returns (fine: bool)
      requires Shaped() && numActiveVars + numActiveCons <= content.Length
      ensures fine <==>
        && (forall k :: 0 <= k < View().Size() ==> Points(View(), View().content[k]))
        && (forall k, l :: 0 <= k < l < View().Size() ==> View().content[k] != View().content[l])
    {
      ghost var s := View();
      var numVariables, size := varStates.Length, numActiveVars + numActiveCons;
      for k := 0 to size
        invariant forall p :: 0 <= p < k ==> Points(s, s.content[p])
        invariant forall p, q :: 0 <= p < k && 0 <= q < size && p != q ==> s.content[p] != s.content[q]
      {
        var idx := content[k];
        assert s.content[k] == idx;
        if idx < 0 || idx >= numVariables + consStates.Length { return false; }
        if idx < numVariables {
          if varStates[idx] == Inactive { return false; }
        } else {
          if consStates[idx - numVariables] == Inactive { return false; }
        }
        for l := 0 to size
          invariant forall q :: 0 <= q < l && q != k ==> s.content[q] != idx
        {
          if (l == k) != (content[l] == idx) {
            assert s.content[l] == idx && l != k;
            return false;
          }
        }
      }
      fine := true;
    }
  }
}
