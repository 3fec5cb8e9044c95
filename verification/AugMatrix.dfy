/** The matrix [[I, A_W^T], [A_W, 0]] of src/main/aug_jac/standard_aug_jac.c, and the sparse form of its first
    columns. */
module AugMatrix {
  import opened LinearAlgebra
  import opened SparseVec
  import opened SparseMat
  import opened Problems
  import opened WorkingSets
  import opened WorkingMatrices
  import opened AugJacSpec

  // ----- the dense matrix

  function KktRow(A: Matrix, n: nat, i: nat): (x: Vector)
    requires IsMatrix(A, |A|, n) && i < n + |A|
    ensures |x| == n + |A|
  {
    if i < n then Unit(n, i) + Column(A, i) else A[i - n] + Zero(|A|)
  }

  function KktMatrix(A: Matrix, n: nat): (K: Matrix)
    requires IsMatrix(A, |A|, n)
    ensures IsMatrix(K, n + |A|, n + |A|)
  {
    seq(n + |A|, i requires 0 <= i < n + |A| => KktRow(A, n, i))
  }

  lemma {:induction false} DotToConcat(a: Vector, b: Vector, x: Vector, y: Vector, k: nat)
    requires |a| == |x| && |b| == |y| && k <= |b|
    ensures DotTo(a + b, x + y, |a| + k) == Dot(a, x) + DotTo(b, y, k)
  {
    if k == 0 {
      DotToPrefix(a + b, x + y, a, x, |a|);
    } else {
      DotToConcat(a, b, x, y, k - 1);
    }
  }

  lemma {:induction false} DotToPrefix(a: Vector, x: Vector, b: Vector, y: Vector, k: nat)
    requires k <= |a| && k <= |x| && k <= |b| && k <= |y|
    requires forall i :: 0 <= i < k ==> a[i] == b[i] && x[i] == y[i]
    ensures DotTo(a, x, k) == DotTo(b, y, k)
  {
    if k > 0 { DotToPrefix(a, x, b, y, k - 1); }
  }

  lemma DotConcat(a: Vector, b: Vector, x: Vector, y: Vector)
    requires |a| == |x| && |b| == |y|
    ensures Dot(a + b, x + y) == Dot(a, x) + Dot(b, y)
  {
    DotToConcat(a, b, x, y, |b|);
  }

  lemma DotUnit(n: nat, j: nat, x: Vector)
    requires j < n == |x|
    ensures Dot(Unit(n, j), x) == x[j]
  {
    var u := Unit(n, j);
    DotToSkip(u, x, 0, j);
    DotToAdvance(u, x, j, j);
    DotToSkip(u, x, j + 1, n);
  }

  /** The dense matrix times (x, y) is (x + A^T*y, A*x). */
  lemma KktMatrixVec(A: Matrix, x: Vector, y: Vector)
    requires IsMatrix(A, |A|, |x|) && |y| == |A|
    ensures MatVec(KktMatrix(A, |x|), x + y) == KktVec(A, x, y)
  {
    var K, n := KktMatrix(A, |x|), |x|;
    forall i | 0 <= i < n + |A| ensures MatVec(K, x + y)[i] == KktVec(A, x, y)[i] {
      if i < n {
        DotConcat(Unit(n, i), Column(A, i), x, y);
        DotUnit(n, i, x);
        TransVecEntry(A, y, n, i);
      } else {
        DotConcat(A[i - n], Zero(|A|), x, y);
        DotZero(y);
      }
    }
  }

  // ----- the sparse columns of [I; A_W]

  /** The values of column c while the entries of the Jacobian column before position k have been pushed. */
  ghost predicate HasValues(v: Vec, s: Sets, jac: Mat, c: nat, k: nat)
    requires Fits(s, jac) && c < jac.numCols && jac.cols[c] <= k <= jac.cols[c + 1]
  {
    && v.Valid() && v.dim == s.NumVars() + s.Size()
    && (forall i :: 0 <= i < s.NumVars() ==> v.At(i) == if i == c then 1.0 else 0.0)
    && (forall r :: 0 <= r < s.numActiveVars ==> v.At(s.NumVars() + r) == if s.content[r] == c then 1.0 else 0.0)
    && (forall r :: s.numActiveVars <= r < s.Size() ==>
          v.At(s.NumVars() + r) == Seen(jac, c, k, s.content[r] - s.NumVars()))
  }

  /** Everything pushed so far lies above the rows of the Jacobian entries from position k on. */
  ghost predicate LeavesRoom(v: Vec, s: Sets, jac: Mat, c: nat, k: nat)
    requires Fits(s, jac) && c < jac.numCols
  {
    forall p :: 0 <= p < |v.indices| && v.indices[p] >= s.NumVars() + s.numActiveVars ==>
      && v.indices[p] - s.NumVars() < s.Size()
      && forall l :: k <= l < jac.cols[c + 1] && l < |jac.rows| ==>
           s.content[v.indices[p] - s.NumVars()] - s.NumVars() < jac.rows[l]
  }

  /** The identity entry comes first, everything else is below the identity. */
  ghost predicate IdentityFirst(v: Vec, c: nat, n: nat)
  {
    && |v.indices| > 0 && v.indices[0] == c
    && forall p :: 0 < p < |v.indices| ==> v.indices[p] >= n
  }

  ghost predicate ValuesTo(v: Vec, s: Sets, jac: Mat, c: nat, k: nat)
  {
    && Fits(s, jac) && c < jac.numCols && jac.cols[c] <= k <= jac.cols[c + 1]
    && HasValues(v, s, jac, c, k) && LeavesRoom(v, s, jac, c, k) && IdentityFirst(v, c, s.NumVars())
  }

  /** Column c while the entries of the Jacobian column before position k have been pushed. */
  ghost predicate ColumnTo(v: Vec, s: Sets, jac: Mat, c: nat, k: nat)
  {
    ValuesTo(v, s, jac, c, k) && Indexed(s) && v == StoredTo(s, jac, c, k)
  }

  ghost predicate Indexed(s: Sets)
  {
    |s.varIndices| == s.NumVars() && |s.consIndices| == s.NumCons()
  }

  /** The stored column after the entries of the Jacobian column before position k. */
  ghost function StoredTo(s: Sets, jac: Mat, c: nat, k: nat): Vec
    requires Fits(s, jac) && Indexed(s) && c < jac.numCols
  {
    if k <= jac.cols[c] || k > |jac.rows| then StartOfColumn(s, c)
    else
      var v, q := StoredTo(s, jac, c, k - 1), s.consIndices[jac.rows[k - 1]];
      if q == NONE then v else Vec(v.dim, v.indices + [s.NumVars() + q], v.data + [jac.data[k - 1]])
  }

  /** What is stored depends on the index maps of the working set only. */
  lemma {:induction false} StoredOfIndices(s: Sets, t: Sets, jac: Mat, c: nat, k: nat)
    requires Fits(s, jac) && Fits(t, jac) && Indexed(s) && Indexed(t) && c < jac.numCols && s.Size() == t.Size()
    requires s.varIndices == t.varIndices && s.consIndices == t.consIndices
    ensures StoredTo(s, jac, c, k) == StoredTo(t, jac, c, k)
  {
    if !(k <= jac.cols[c] || k > |jac.rows|) { StoredOfIndices(s, t, jac, c, k - 1); }
  }

  /** The identity entry and the unit entry of an active variable. */
  function StartOfColumn(s: Sets, c: nat): Vec
    requires c < |s.varIndices|
  {
    var dim := s.NumVars() + s.Size();
    if s.varIndices[c] == NONE then Vec(dim, [c], [1.0])
    else Vec(dim, [c, s.NumVars() + s.varIndices[c]], [1.0, 1.0])
  }

  lemma StartColumn(s: Sets, jac: Mat, c: nat)
    requires s.WellFormed() && Fits(s, jac) && c < jac.numCols
    ensures ColumnTo(StartOfColumn(s, c), s, jac, c, jac.cols[c])
  {
    assert Indexed(s) && StoredTo(s, jac, c, jac.cols[c]) == StartOfColumn(s, c);
    hide StoredTo, StartOfColumn, HasValues, LeavesRoom, IdentityFirst;
    StartInValues(s, jac, c);
  }

  lemma StartInValues(s: Sets, jac: Mat, c: nat)
    requires s.WellFormed() && Fits(s, jac) && c < jac.numCols
    ensures c < |s.varIndices| && ValuesTo(StartOfColumn(s, c), s, jac, c, jac.cols[c])
  {
    var v, n := StartOfColumn(s, c), s.NumVars();
    SeenAll(jac, c);
    StartValues(s, c);
    hide Vec.At;
    assert forall p :: 0 <= p < |v.indices| ==> v.indices[p] < n + s.numActiveVars;
  }

  lemma StartValues(s: Sets, c: nat)
    requires s.WellFormed() && c < s.NumVars()
    ensures var v := StartOfColumn(s, c);
      && v.Valid()
      && (forall i :: 0 <= i < s.NumVars() ==> v.At(i) == if i == c then 1.0 else 0.0)
      && (forall r :: 0 <= r < s.numActiveVars ==> v.At(s.NumVars() + r) == if s.content[r] == c then 1.0 else 0.0)
      && (forall i :: s.NumVars() + s.numActiveVars <= i ==> v.At(i) == 0.0)
  {
    var v, n := StartOfColumn(s, c), s.NumVars();
    assert v.Valid();
    StoredAt(v, 0);
    if s.varIndices[c] != NONE { StoredAt(v, 1); }
    forall i | i != c && (s.varIndices[c] == NONE || i != n + s.varIndices[c]) ensures v.At(i) == 0.0 {
      AbsentAt(v, i);
    }
    forall r | 0 <= r < s.numActiveVars ensures v.At(n + r) == if s.content[r] == c then 1.0 else 0.0 {
      assert s.varIndices[s.content[r]] == r;
    }
  }

  /** An entry of an inactive constraint is left out. */
  lemma SkipEntry(v: Vec, s: Sets, jac: Mat, c: nat, k: nat, next: nat)
    requires s.WellFormed() && ColumnTo(v, s, jac, c, k) && k < jac.cols[c + 1] && next == k + 1
    requires k < |jac.rows| && 0 <= jac.rows[k] < |s.consIndices| && s.consIndices[jac.rows[k]] == NONE
    ensures ColumnTo(v, s, jac, c, next)
  {
    assert StoredTo(s, jac, c, next) == v;
    hide StoredTo, HasValues, LeavesRoom;
    SkipInValues(v, s, jac, c, k, next);
  }

  lemma SkipInValues(v: Vec, s: Sets, jac: Mat, c: nat, k: nat, next: nat)
    requires s.WellFormed() && ValuesTo(v, s, jac, c, k) && k < jac.cols[c + 1] && next == k + 1
    requires k < |jac.rows| && 0 <= jac.rows[k] < |s.consIndices| && s.consIndices[jac.rows[k]] == NONE
    ensures ValuesTo(v, s, jac, c, next)
  {
    forall r | s.numActiveVars <= r < s.Size() ensures s.content[r] != s.NumVars() + jac.rows[k] {
      assert s.consIndices[s.content[r] - s.NumVars()] == r;
    }
    hide Sets.WellFormed, Vec.At;
    SkippedValues(v, s, jac, c, k, next);
  }

  lemma SkippedValues(v: Vec, s: Sets, jac: Mat, c: nat, k: nat, next: nat)
    requires Fits(s, jac) && c < jac.numCols && jac.cols[c] <= k < jac.cols[c + 1] && next == k + 1
    requires HasValues(v, s, jac, c, k) && k < |jac.rows|
    requires forall r :: s.numActiveVars <= r < s.Size() ==> s.content[r] != s.NumVars() + jac.rows[k]
    ensures HasValues(v, s, jac, c, next)
  {
    SeenStep(jac, c, k);
    hide Vec.At, Seen, Mat.Valid;
  }

  /** The entry of an active constraint goes behind everything pushed so far. */
  lemma EntryFits(v: Vec, s: Sets, jac: Mat, c: nat, k: nat, q: nat)
    requires s.WellFormed() && s.OrderPreserving() && ValuesTo(v, s, jac, c, k) && k < jac.cols[c + 1]
    requires k < |jac.rows| && 0 <= jac.rows[k] < |s.consIndices| && s.consIndices[jac.rows[k]] == q
    ensures s.numActiveVars <= q < s.Size() && s.content[q] == s.NumVars() + jac.rows[k]
    ensures forall p :: 0 <= p < |v.indices| ==> v.indices[p] < s.NumVars() + q
  {
    assert s.numActiveVars <= q < s.Size() && s.content[q] == s.NumVars() + jac.rows[k];
    assert v.dim == s.NumVars() + s.Size() && v.Valid();
    hide HasValues, Mat.Valid, IdentityFirst;
    forall p | 0 <= p < |v.indices| ensures v.indices[p] < s.NumVars() + q {
      var r := v.indices[p] - s.NumVars();
      if r >= s.numActiveVars {
        var i := s.content[r] - s.NumVars();
        assert s.consIndices[i] == r && i < jac.rows[k];
      }
    }
  }

  lemma PushedValues(v: Vec, w: Vec, s: Sets, jac: Mat, c: nat, k: nat, q: nat, next: nat)
    requires Fits(s, jac) && c < jac.numCols && jac.cols[c] <= k < jac.cols[c + 1] && next == k + 1
    requires HasValues(v, s, jac, c, k) && k < |jac.rows| && k < |jac.data|
    requires s.numActiveVars <= q < s.Size() && s.content[q] == s.NumVars() + jac.rows[k]
    requires forall r :: s.numActiveVars <= r < s.Size() && s.content[r] == s.content[q] ==> r == q
    requires w.Valid() && w.dim == v.dim && w.At(s.NumVars() + q) == jac.data[k]
    requires forall i :: i != s.NumVars() + q ==> w.At(i) == v.At(i)
    ensures HasValues(w, s, jac, c, next)
  {
    SeenStep(jac, c, k);
    hide Vec.At, Seen, Mat.Valid;
  }

  lemma PushedRoom(v: Vec, s: Sets, jac: Mat, c: nat, k: nat, q: nat, next: nat)
    requires Fits(s, jac) && c < jac.numCols && LeavesRoom(v, s, jac, c, k) && next == k + 1
    requires jac.cols[c] <= k < jac.cols[c + 1] && k < |jac.rows|
    requires s.numActiveVars <= q < s.Size() && s.content[q] == s.NumVars() + jac.rows[k]
    ensures LeavesRoom(Vec(v.dim, v.indices + [s.NumVars() + q], v.data + [jac.data[k]]), s, jac, c, next)
  {
    assert jac.Ascends(c);
  }

  lemma StoredStep(s: Sets, jac: Mat, c: nat, k: nat, next: nat)
    requires Fits(s, jac) && Indexed(s) && c < jac.numCols && next == k + 1
    requires jac.cols[c] <= k < |jac.rows| == |jac.data| && s.consIndices[jac.rows[k]] != NONE
    ensures var v := StoredTo(s, jac, c, k);
      StoredTo(s, jac, c, next)
      == Vec(v.dim, v.indices + [s.NumVars() + s.consIndices[jac.rows[k]]], v.data + [jac.data[k]])
  {
  }

  lemma PushEntryOf(v: Vec, s: Sets, jac: Mat, c: nat, k: nat, q: nat, next: nat)
    requires s.WellFormed() && s.OrderPreserving() && ColumnTo(v, s, jac, c, k) && k < jac.cols[c + 1] && next == k + 1
    requires k < |jac.rows| && 0 <= jac.rows[k] < |s.consIndices| && s.consIndices[jac.rows[k]] == q
    ensures k < |jac.data|
    ensures ColumnTo(Vec(v.dim, v.indices + [s.NumVars() + q], v.data + [jac.data[k]]), s, jac, c, next)
  {
    ColumnsOrdered(jac, c);
    StoredStep(s, jac, c, k, next);
    hide StoredTo, HasValues, LeavesRoom, Sets.WellFormed, Sets.OrderPreserving, IdentityFirst;
    PushInValues(v, s, jac, c, k, q, next);
  }

  lemma PushInValues(v: Vec, s: Sets, jac: Mat, c: nat, k: nat, q: nat, next: nat)
    requires s.WellFormed() && s.OrderPreserving() && ValuesTo(v, s, jac, c, k) && k < jac.cols[c + 1] && next == k + 1
    requires k < |jac.rows| && 0 <= jac.rows[k] < |s.consIndices| && s.consIndices[jac.rows[k]] == q
    ensures k < |jac.data|
    ensures ValuesTo(Vec(v.dim, v.indices + [s.NumVars() + q], v.data + [jac.data[k]]), s, jac, c, next)
  {
    EntryFits(v, s, jac, c, k, q);
    ColumnsOrdered(jac, c);
    var w := SparseVec.Push(v, s.NumVars() + q, jac.data[k]);
    forall r | s.numActiveVars <= r < s.Size() && s.content[r] == s.content[q] ensures r == q {
      assert s.consIndices[s.content[r] - s.NumVars()] == r;
    }
    hide Sets.WellFormed, Sets.OrderPreserving, Vec.At;
    PushedValues(v, w, s, jac, c, k, q, next);
    PushedRoom(v, s, jac, c, k, q, next);
  }

  /** A complete column holds the identity and the column of A_W. */
  lemma ColumnEnd(v: Vec, s: Sets, jac: Mat, c: nat, end: nat)
    requires ColumnTo(v, s, jac, c, end) && end == jac.cols[c + 1]
    ensures v.Valid() && v.dim == s.NumVars() + s.Size()
    ensures forall i :: 0 <= i < s.NumVars() ==> v.At(i) == if i == c then 1.0 else 0.0
    ensures forall r :: 0 <= r < s.Size() ==> v.At(s.NumVars() + r) == WorkingMatrix(s, jac)[r][c]
  {
    SeenAll(jac, c);
    hide Vec.At, Seen;
    forall r | 0 <= r < s.Size() ensures v.At(s.NumVars() + r) == WorkingMatrix(s, jac)[r][c] {
      assert WorkingMatrix(s, jac)[r] == WorkingRow(s, jac, r) == EntryRow(jac, s.content[r]);
    }
  }
}
