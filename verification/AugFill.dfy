/** Pushing the first n columns of the augmented matrix, one entry after the other
    (src/main/aug_jac/standard_aug_jac.c). */
module AugFill {
  import opened LinearAlgebra
  import opened SparseVec
  import opened SparseMat
  import opened Problems
  import opened WorkingSets
  import opened WorkingMatrices
  import opened AugJacSpec
  import opened MatrixPush
  import opened AugMatrix
  import opened UpperFill
  import opened Factorisations

  /** How many entries the first c columns can have. */
  ghost function Room(s: Sets, jac: Mat, c: nat): int
    requires Fits(s, jac) && c <= jac.numCols && |s.varIndices| == s.NumVars()
  {
    c + CountSet(s.varIndices, c) + jac.cols[c]
  }

  function IsActive(s: Sets, c: nat): nat
    requires c < |s.varIndices|
  {
    if s.varIndices[c] == NONE then 0 else 1
  }

  lemma {:induction false} RoomMonotone(s: Sets, jac: Mat, c: nat, d: nat)
    requires Fits(s, jac) && c <= d <= jac.numCols && |s.varIndices| == s.NumVars()
    ensures Room(s, jac, c) <= Room(s, jac, d)
    ensures c < d ==> Room(s, jac, c) + 1 + IsActive(s, c) + jac.cols[c + 1] - jac.cols[c] <= Room(s, jac, d)
  {
    if c < d {
      RoomMonotone(s, jac, c, d - 1);
      ColumnsOrdered(jac, d - 1);
    }
  }

  /** There is room for all entries when the number of active variables and of Jacobian entries is reserved. */
  lemma RoomAtEnd(s: Sets, jac: Mat)
    requires s.WellFormed() && Fits(s, jac)
    ensures Room(s, jac, jac.numCols) == jac.numCols + s.numActiveVars + |jac.rows|
  {
    assert jac.cols[jac.numCols] == |jac.rows|;
    InverseIsUnique(s.content, s.varStates, s.varIndices, 0, 0, s.numActiveVars);
    hide Mat.Valid, Inverse, Unique;
  }

  ghost predicate IsAugColumn(v: Vec, s: Sets, jac: Mat, j: nat)
  {
    Fits(s, jac) && j < jac.numCols && jac.cols[j + 1] >= 0 && ColumnTo(v, s, jac, j, jac.cols[j + 1])
  }

  /** The first c columns have been pushed. */
  ghost predicate ColumnsPushed(m: Mat, s: Sets, jac: Mat, c: nat)
  {
    && s.WellFormed() && Fits(s, jac) && c <= jac.numCols
    && m.numRows == m.numCols == s.NumVars() + s.Size() && Building(m, c)
    && |m.rows| <= Room(s, jac, c)
    && forall j :: 0 <= j < c ==> IsAugColumn(BuiltCol(m, c, j), s, jac, j)
  }

  /** The columns before c have been pushed, and column c, the last of the d columns, up to Jacobian entry k. */
  ghost predicate EntriesPushed(m: Mat, s: Sets, jac: Mat, c: nat, d: nat, k: nat)
  {
    && s.WellFormed() && Fits(s, jac) && c < jac.numCols && d == c + 1
    && m.numRows == m.numCols == s.NumVars() + s.Size() && Building(m, d)
    && ColumnTo(BuiltCol(m, d, c), s, jac, c, k)
    && |m.rows| <= Room(s, jac, c) + 1 + IsActive(s, c) + k - jac.cols[c]
    && forall j :: 0 <= j < c ==> IsAugColumn(BuiltCol(m, d, j), s, jac, j)
  }

  lemma StartColumns(s: Sets, jac: Mat)
    requires s.WellFormed() && Fits(s, jac)
    ensures ColumnsPushed(Cleared(s.NumVars() + s.Size(), s.NumVars() + s.Size()), s, jac, 0)
  {
    BuildingStart(s.NumVars() + s.Size(), s.NumVars() + s.Size());
  }

  /** The matrix after the identity entry and the unit entry of column c. */
  function Opened(m: Mat, s: Sets, c: nat): Mat
    requires c < m.numCols && |m.cols| == m.numCols + 1 && c < |s.varIndices|
  {
    var m2 := PushEntry(PushCol(m, c), c, c, 1.0);
    if s.varIndices[c] == NONE then m2 else PushEntry(m2, s.NumVars() + s.varIndices[c], c, 1.0)
  }

  lemma OpenAugColumn(m: Mat, s: Sets, jac: Mat, c: nat)
    requires ColumnsPushed(m, s, jac, c) && c < jac.numCols
    ensures c < m.numCols && |m.cols| == m.numCols + 1 && c < |s.varIndices|
    ensures 0 <= jac.cols[c] && EntriesPushed(Opened(m, s, c), s, jac, c, c + 1, jac.cols[c])
  {
    OpenAugRange(m, s, jac, c);
    hide Sets.WellFormed, Mat.Valid, ColumnTo, Building, PushCol, PushEntry;
    var m3, d := Opened(m, s, c), c + 1;
    OpenedBuilds(m, s, jac, c, PushCol(m, c), PushEntry(PushCol(m, c), c, c, 1.0), m3);
    StartColumn(s, jac, c);
    forall j | 0 <= j < c ensures IsAugColumn(BuiltCol(m3, d, j), s, jac, j) {
      assert IsAugColumn(BuiltCol(m, c, j), s, jac, j);
    }
    OpenedSize(m, s, c);
  }

  lemma OpenAugRange(m: Mat, s: Sets, jac: Mat, c: nat)
    requires ColumnsPushed(m, s, jac, c) && c < jac.numCols
    ensures c < m.numCols && |m.cols| == m.numCols + 1 && c < |s.varIndices| && c < |jac.cols| && 0 <= jac.cols[c]
  {
    ColumnsOrdered(jac, c);
  }

  lemma OpenedSize(m: Mat, s: Sets, c: nat)
    requires c < m.numCols && |m.cols| == m.numCols + 1 && c < |s.varIndices|
    ensures |Opened(m, s, c).rows| == |m.rows| + 1 + IsActive(s, c)
    ensures Opened(m, s, c).numRows == m.numRows && Opened(m, s, c).numCols == m.numCols
  {
  }

  lemma OpenedBuilds(m: Mat, s: Sets, jac: Mat, c: nat, m1: Mat, m2: Mat, m3: Mat)
    requires ColumnsPushed(m, s, jac, c) && c < jac.numCols && c < m.numCols && |m.cols| == m.numCols + 1
    requires c < |s.varIndices| && m1 == PushCol(m, c) && m2 == PushEntry(m1, c, c, 1.0) && m3 == Opened(m, s, c)
    ensures Building(m3, c + 1) && BuiltCol(m3, c + 1, c) == StartOfColumn(s, c)
    ensures forall j :: 0 <= j < c ==> BuiltCol(m3, c + 1, j) == BuiltCol(m, c, j)
  {
    assert Building(m, c) && c < s.NumVars() && m.numRows == s.NumVars() + s.Size();
    assert s.varIndices[c] == NONE || 0 <= s.varIndices[c] < s.numActiveVars <= s.Size();
    hide Sets.WellFormed, ColumnsPushed, Building, BuiltCol, PushCol, PushEntry;
    IdentityBuilds(m, c, m1, m2);
    if s.varIndices[c] != NONE {
      UnitBuilds(m2, m3, c, c + 1, s.NumVars() + s.varIndices[c]);
    }
  }

  lemma IdentityBuilds(m: Mat, c: nat, m1: Mat, m2: Mat)
    requires Building(m, c) && c < m.numCols && c < m.numRows && |m.cols| == m.numCols + 1
    requires m1 == PushCol(m, c) && |m1.cols| == m.numCols + 1 && m2 == PushEntry(m1, c, c, 1.0)
    ensures m2.numRows == m.numRows && m2.numCols == m.numCols && |m2.cols| == m2.numCols + 1
    ensures Building(m2, c + 1) && BuiltCol(m2, c + 1, c) == Vec(m.numRows, [c], [1.0])
    ensures forall j :: 0 <= j < c ==> BuiltCol(m2, c + 1, j) == BuiltCol(m, c, j)
  {
    PushColBuilds(m, m1, c, c + 1);
    PushEntryBuilds(m1, m2, c, c, c + 1, 1.0);
  }

  lemma UnitBuilds(m2: Mat, m3: Mat, c: nat, d: nat, row: int)
    requires d == c + 1 && Building(m2, d) && BuiltCol(m2, d, c) == Vec(m2.numRows, [c], [1.0]) && c < row < m2.numRows
    requires c < m2.numCols && |m2.cols| == m2.numCols + 1 && m3 == PushEntry(m2, row, c, 1.0)
    ensures Building(m3, d) && BuiltCol(m3, d, c) == Vec(m2.numRows, [c, row], [1.0, 1.0])
    ensures forall j :: 0 <= j < c ==> BuiltCol(m3, d, j) == BuiltCol(m2, d, j)
  {
    BuiltBelow(m2, c, d, row);
    hide Building, BuiltCol;
    PushEntryBuilds(m2, m3, row, c, d, 1.0);
  }

  /** An entry of an inactive constraint is passed over. */
  lemma SkipAugEntry(m: Mat, s: Sets, jac: Mat, c: nat, d: nat, k: nat, next: nat)
    requires EntriesPushed(m, s, jac, c, d, k) && k < jac.cols[c + 1] && next == k + 1 && k < |jac.rows|
    requires 0 <= jac.rows[k] < |s.consIndices| && s.consIndices[jac.rows[k]] == NONE
    ensures EntriesPushed(m, s, jac, c, d, next)
  {
    SkipEntry(BuiltCol(m, d, c), s, jac, c, k, next);
    hide Sets.WellFormed, Mat.Valid, ColumnTo, Building;
  }

  /** The entry of an active constraint is pushed. */
  lemma PushAugEntry(m: Mat, s: Sets, jac: Mat, c: nat, d: nat, k: nat, q: nat, next: nat)
    requires EntriesPushed(m, s, jac, c, d, k) && s.OrderPreserving()
    requires k < jac.cols[c + 1] && next == k + 1 && k < |jac.rows|
    requires 0 <= jac.rows[k] < |s.consIndices| && s.consIndices[jac.rows[k]] == q
    ensures c < m.numCols && |m.cols| == m.numCols + 1 && k < |jac.data|
    ensures EntriesPushed(PushEntry(m, s.NumVars() + q, c, jac.data[k]), s, jac, c, d, next)
  {
    EntryFits(BuiltCol(m, d, c), s, jac, c, k, q);
    BuiltBelow(m, c, d, s.NumVars() + q);
    PushEntryOf(BuiltCol(m, d, c), s, jac, c, k, q, next);
    var m' := PushEntry(m, s.NumVars() + q, c, jac.data[k]);
    PushEntryBuilds(m, m', s.NumVars() + q, c, d, jac.data[k]);
    hide Sets.WellFormed, Sets.OrderPreserving, Mat.Valid, ColumnTo, Building;
    forall j | 0 <= j < c ensures IsAugColumn(BuiltCol(m', d, j), s, jac, j) {
      assert IsAugColumn(BuiltCol(m, d, j), s, jac, j);
    }
  }

  lemma CloseAugColumn(m: Mat, s: Sets, jac: Mat, c: nat, d: nat, k: nat)
    requires EntriesPushed(m, s, jac, c, d, k) && k == jac.cols[c + 1]
    ensures ColumnsPushed(m, s, jac, d)
  {
    RoomMonotone(s, jac, c, d);
    hide Sets.WellFormed, Mat.Valid, ColumnTo, Building;
    forall j | 0 <= j < d ensures IsAugColumn(BuiltCol(m, d, j), s, jac, j) {
    }
  }

  // ----- what has been pushed

  /** low holds the columns of [I; A]. */
  ghost predicate HoldsLower(low: Mat, A: Matrix)
  {
    && IsLow(low) && IsMatrix(A, |A|, low.numCols) && low.numRows == low.numCols + |A|
    && (forall c, i :: 0 <= c < low.numCols && 0 <= i < low.numCols ==> low.At(i, c) == if i == c then 1.0 else 0.0)
    && (forall c, i :: 0 <= c < low.numCols && low.numCols <= i < low.numRows ==> low.At(i, c) == A[i - low.numCols][c])
  }

  lemma PushedIsLower(m: Mat, s: Sets, jac: Mat)
    requires ColumnsPushed(m, s, jac, jac.numCols)
    ensures HoldsLower(Prefix(m, jac.numCols), WorkingMatrix(s, jac))
  {
    var n, low, A := jac.numCols, Prefix(m, jac.numCols), WorkingMatrix(s, jac);
    assert IsLow(low) && n == s.NumVars() && low.numRows == n + |A|;
    hide Vec.At, Sets.WellFormed, Building, ColumnTo;
    forall c, i | 0 <= c < n && 0 <= i < low.numRows
      ensures low.At(i, c) == if i < n then (if i == c then 1.0 else 0.0) else A[i - n][c]
    {
      assert IsAugColumn(BuiltCol(m, n, c), s, jac, c);
      assert low.Col(c) == BuiltCol(m, n, c) && low.At(i, c) == low.Col(c).At(i);
      LowerPartEntry(BuiltCol(m, n, c), s, jac, c, i);
    }
  }

  lemma LowerPartEntry(v: Vec, s: Sets, jac: Mat, c: nat, i: nat)
    requires IsAugColumn(v, s, jac, c) && i < s.NumVars() + s.Size()
    ensures v.Valid() && IsMatrix(WorkingMatrix(s, jac), s.Size(), s.NumVars()) && c < s.NumVars()
    ensures v.At(i) == if i < s.NumVars() then (if i == c then 1.0 else 0.0)
                       else WorkingMatrix(s, jac)[i - s.NumVars()][c]
  {
    ColumnEnd(v, s, jac, c, jac.cols[c + 1]);
    hide ColumnTo, Vec.At;
    assert i >= s.NumVars() ==> v.At(s.NumVars() + (i - s.NumVars())) == WorkingMatrix(s, jac)[i - s.NumVars()][c];
  }

  lemma {:induction false} IdentityInColumns(m: Mat, s: Sets, jac: Mat, c: nat, low: Mat)
    requires ColumnsPushed(m, s, jac, jac.numCols) && c <= jac.numCols && low == Prefix(m, jac.numCols)
    ensures 0 <= low.cols[c] <= |low.rows| && IdentityCount(low.rows, jac.numCols, low.cols[c]) == c
  {
    var n := jac.numCols;
    if c == 0 {
      assert low.cols[0] == 0;
    } else {
      IdentityInColumns(m, s, jac, c - 1, low);
      ColumnsOrdered(low, c - 1);
      assert IsAugColumn(BuiltCol(m, n, c - 1), s, jac, c - 1);
      assert IdentityFirst(low.Col(c - 1), c - 1, n);
      hide ColumnsPushed, Mat.Valid, IsAugColumn, IdentityFirst;
      IdentityInColumn(low, c - 1, n);
    }
  }

  lemma IdentityInColumn(low: Mat, c: nat, n: nat)
    requires low.Valid() && c < low.numCols && 0 <= low.cols[c] <= low.cols[c + 1] <= |low.rows|
    requires c < n && IdentityFirst(low.Col(c), c, n)
    ensures IdentityCount(low.rows, n, low.cols[c + 1]) == IdentityCount(low.rows, n, low.cols[c]) + 1
  {
    var v := low.Col(c);
    forall k | low.cols[c] < k < low.cols[c + 1] ensures low.rows[k] >= n {
      assert v.indices[k - low.cols[c]] == low.rows[k];
    }
    assert v.indices[0] == low.rows[low.cols[c]];
    hide Mat.Valid;
    IdentitySkip(low.rows, n, low.cols[c] + 1, low.cols[c + 1]);
  }

  lemma {:induction false} IdentitySkip(rows: seq<int>, n: nat, k: nat, l: nat)
    requires k <= l <= |rows| && forall i :: k <= i < l ==> rows[i] >= n
    ensures IdentityCount(rows, n, l) == IdentityCount(rows, n, k)
  {
    if k < l { IdentitySkip(rows, n, k, l - 1); }
  }

  /** After the completion there are n entries of the identity and two for every entry of A. */
  lemma CompletedSize(m: Mat, s: Sets, jac: Mat, low: Mat)
    requires ColumnsPushed(m, s, jac, jac.numCols) && low == Prefix(m, jac.numCols)
    ensures IsLow(low) && |low.rows| == |m.rows| <= jac.numCols + s.numActiveVars + |jac.rows|
    ensures Begin(low, low.numRows - low.numCols, |low.rows|) == 2 * |low.rows| - jac.numCols
  {
    RoomAtEnd(s, jac);
    IdentityInColumns(m, s, jac, jac.numCols, low);
    assert low.Valid() && low.cols[jac.numCols] == |low.rows|;
    hide Mat.Valid, Sets.WellFormed;
    BeginAtEnd(low, |low.rows|);
  }

  // ----- the finished matrix

  /** The completed matrix is [[I, A^T], [A, 0]]. */
  lemma CompletedIsKkt(m: Mat, low: Mat, A: Matrix)
    requires IsCompleted(m, low) && HoldsLower(low, A)
    ensures Meaning(m, false) == KktMatrix(A, low.numCols)
  {
    hide Mat.Valid, Vec.At;
    var n, K := low.numCols, KktMatrix(A, low.numCols);
    forall i, j | 0 <= i < m.numRows && 0 <= j < m.numRows ensures m.At(i, j) == K[i][j] {
      CompletedEntry(m, low, A, i, j);
      KktEntry(A, n, i, j);
    }
    SameEntries(Meaning(m, false), K, m.numRows);
  }

  lemma CompletedEntry(m: Mat, low: Mat, A: Matrix, i: nat, j: nat)
    requires IsCompleted(m, low) && HoldsLower(low, A) && i < m.numRows && j < m.numRows
    ensures var n := low.numCols;
      m.At(i, j)
      == if i < n && j < n then (if i == j then 1.0 else 0.0)
         else if i < n then A[j - n][i]
         else if j < n then A[i - n][j] else 0.0
  {
    hide Mat.Valid, Vec.At;
    var n := low.numCols;
    if j >= n {
      var r := j - n;
      assert IsTransposedRow(m.Col(j), low, r);
      assert m.At(i, j) == m.Col(j).At(i);
      if i < n { assert m.At(i, j) == low.At(n + r, i) == low.At(j, i) == A[j - n][i]; }
    } else {
      assert m.At(i, j) == low.Col(j).At(i) == low.At(i, j);
    }
  }

  lemma KktEntry(A: Matrix, n: nat, i: nat, j: nat)
    requires IsMatrix(A, |A|, n) && i < n + |A| && j < n + |A|
    ensures KktMatrix(A, n)[i][j]
         == if i < n && j < n then (if i == j then 1.0 else 0.0)
            else if i < n then A[j - n][i]
            else if j < n then A[i - n][j] else 0.0
  {
  }

  lemma SameEntries(M: Matrix, K: Matrix, n: nat)
    requires IsMatrix(M, n, n) && IsMatrix(K, n, n)
    requires forall i, j :: 0 <= i < n && 0 <= j < n ==> M[i][j] == K[i][j]
    ensures M == K
  {
    forall i | 0 <= i < n ensures M[i] == K[i] {
    }
  }

  /** The first n columns, with nothing behind them. */
  ghost predicate IsLowerOnly(m: Mat, low: Mat)
  {
    && IsLow(low) && m.Valid() && m.numRows == m.numCols == low.numRows
    && (forall c :: 0 <= c < low.numCols ==> m.Col(c) == low.Col(c))
    && (forall c :: low.numCols <= c < low.numRows ==> m.Col(c) == Vec(low.numRows, [], []))
  }

  /** As a lower triangle, the pushed columns mean the same matrix. */
  lemma LowerIsKkt(m: Mat, low: Mat, A: Matrix)
    requires IsLowerOnly(m, low) && HoldsLower(low, A)
    ensures Meaning(m, true) == KktMatrix(A, low.numCols)
  {
    hide Mat.Valid, Vec.At;
    var n, K, M := low.numCols, KktMatrix(A, low.numCols), Meaning(m, true);
    forall i, j | 0 <= i < m.numRows && 0 <= j < m.numRows ensures M[i][j] == K[i][j] {
      if j <= i { LowerEntry(m, low, A, i, j); } else { LowerEntry(m, low, A, j, i); }
      KktEntry(A, n, i, j);
    }
    SameEntries(M, K, m.numRows);
  }

  lemma LowerEntry(m: Mat, low: Mat, A: Matrix, i: nat, j: nat)
    requires IsLowerOnly(m, low) && HoldsLower(low, A) && j <= i < m.numRows
    ensures var n := low.numCols;
      m.At(i, j) == if i < n then (if i == j then 1.0 else 0.0) else if j < n then A[i - n][j] else 0.0
  {
    if j >= low.numCols {
      AbsentAt(m.Col(j), i);
    } else {
      assert m.At(i, j) == low.Col(j).At(i) == low.At(i, j);
    }
  }
}
