/** fill_aug_jac and add_upper in src/main/aug_jac/standard_aug_jac.c: building [[I, A_W^T], [A_W, 0]] in the arrays of
    the matrix. */
module AugAssembly {
  import opened LinearAlgebra
  import opened SparseVec
  import opened SparseMat
  import opened Problems
  import opened WorkingSets
  import opened WorkingMatrices
  import opened MatrixPush
  import opened MatBuffers
  import opened AugMatrix
  import opened AugFill
  import opened UpperFill
  import UpperKernels
  import opened RowKernels
  import opened Factorisations
  import opened AugJacSpec

  // ----- filling the matrix

  /** The buffer has room for the columns of [I; A_W], and the first c of them have been pushed. */
  ghost predicate ColumnsIn(buffer: MatBuffer, s: Sets, jac: Mat, c: nat)
    reads buffer, buffer.cols, buffer.rows, buffer.data
  {
    && buffer.Shaped() && s.OrderPreserving() && ColumnsPushed(buffer.Value(), s, jac, c)
    && jac.numCols + s.numActiveVars + |jac.rows| <= buffer.rows.Length
  }

  /** Column c has been pushed up to entry k of the Jacobian, too. */
  ghost predicate EntriesIn(buffer: MatBuffer, s: Sets, jac: Mat, c: nat, k: nat)
    reads buffer, buffer.cols, buffer.rows, buffer.data
  {
    && buffer.Shaped() && s.OrderPreserving() && EntriesPushed(buffer.Value(), s, jac, c, c + 1, k)
    && jac.numCols + s.numActiveVars + |jac.rows| <= buffer.rows.Length
  }

  /** The first loop of fill_aug_jac: the columns of the identity and everything below it. */
  method FillLower(buffer: MatBuffer, s: Sets, jac: Mat)
    requires buffer.Shaped() && s.WellFormed() && s.OrderPreserving() && Fits(s, jac)
    requires buffer.Value() == Cleared(s.NumVars() + s.Size(), s.NumVars() + s.Size())
    requires jac.numCols + s.numActiveVars + |jac.rows| <= buffer.rows.Length
    modifies buffer`nnz, buffer.cols, buffer.rows, buffer.data
    ensures ColumnsIn(buffer, s, jac, jac.numCols)
  {
    StartColumns(s, jac);
    hide ColumnsPushed, Sets.WellFormed, Sets.OrderPreserving, Fits, MatBuffer.Value;
    for column := 0 to jac.numCols
      invariant ColumnsIn(buffer, s, jac, column)
    {
      FillColumn(buffer, s, jac, column);
    }
  }

  /** One column: identity entry, unit entry of an active variable, entries of active constraints. */
  method FillColumn(buffer: MatBuffer, s: Sets, jac: Mat, column: nat)
    requires ColumnsIn(buffer, s, jac, column) && column < jac.numCols
    modifies buffer`nnz, buffer.cols, buffer.rows, buffer.data
    ensures ColumnsIn(buffer, s, jac, column + 1)
  {
    hide *;
    OpenColumn(buffer, s, jac, column);
    ColumnBounds(buffer, s, jac, column);
    for index := jac.cols[column] to jac.cols[column + 1]
      invariant EntriesIn(buffer, s, jac, column, index)
    {
      FillEntry(buffer, s, jac, column, index);
    }
    CloseColumn(buffer, s, jac, column, jac.cols[column + 1]);
  }

  lemma ColumnBounds(buffer: MatBuffer, s: Sets, jac: Mat, c: nat)
    requires c < |jac.cols| && jac.cols[c] >= 0 && EntriesIn(buffer, s, jac, c, jac.cols[c])
    ensures c + 1 < |jac.cols| && jac.cols[c] <= jac.cols[c + 1] <= |jac.rows|
  {
    ColumnsOrdered(jac, c);
  }

  lemma CloseColumn(buffer: MatBuffer, s: Sets, jac: Mat, c: nat, k: nat)
    requires EntriesIn(buffer, s, jac, c, k) && c + 1 < |jac.cols| && k == jac.cols[c + 1]
    ensures ColumnsIn(buffer, s, jac, c + 1)
  {
    hide ColumnsPushed, EntriesPushed, Sets.OrderPreserving;
    CloseAugColumn(buffer.Value(), s, jac, c, c + 1, k);
  }

  method OpenColumn(buffer: MatBuffer, s: Sets, jac: Mat, column: nat)
    requires ColumnsIn(buffer, s, jac, column) && column < jac.numCols
    modifies buffer`nnz, buffer.cols, buffer.rows, buffer.data
    ensures column < |jac.cols| && 0 <= jac.cols[column] && EntriesIn(buffer, s, jac, column, jac.cols[column])
  {
    hide ColumnsPushed, EntriesPushed, ColumnsIn, EntriesIn, MatBuffer.Value, Sets.OrderPreserving, Sets.WellFormed;
    BeforeOpening(buffer, s, jac, column);
    ghost var m := buffer.Value();
    buffer.PushColumn(column);
    buffer.Push(column, column, 1.0);
    var variableIndex := s.varIndices[column];
    if variableIndex != NONE {
      buffer.Push(|s.varStates| + variableIndex, column, 1.0);
    }
    AfterPushing(buffer, s, jac, column, jac.cols[column], Opened(m, s, column));
  }

  lemma BeforeOpening(buffer: MatBuffer, s: Sets, jac: Mat, c: nat)
    requires ColumnsIn(buffer, s, jac, c) && c < jac.numCols
    ensures buffer.Shaped() && c < buffer.numCols == buffer.Value().numCols && c < |s.varIndices| && s.OrderPreserving()
    ensures buffer.nnz + 1 + IsActive(s, c) <= buffer.rows.Length && c < |jac.cols| && 0 <= jac.cols[c]
    ensures jac.numCols + s.numActiveVars + |jac.rows| <= buffer.rows.Length
    ensures EntriesPushed(Opened(buffer.Value(), s, c), s, jac, c, c + 1, jac.cols[c])
  {
    hide EntriesPushed, Sets.OrderPreserving;
    var m := buffer.Value();
    OpenAugColumn(m, s, jac, c);
    OpenAugRange(m, s, jac, c);
    RoomMonotone(s, jac, c, jac.numCols);
    RoomAtEnd(s, jac);
    ColumnsOrdered(jac, c);
    hide Sets.WellFormed, Mat.Valid, Building;
  }

  lemma AfterPushing(buffer: MatBuffer, s: Sets, jac: Mat, c: nat, k: nat, m: Mat)
    requires buffer.Shaped() && buffer.Value() == m && EntriesPushed(m, s, jac, c, c + 1, k)
    requires s.OrderPreserving() && jac.numCols + s.numActiveVars + |jac.rows| <= buffer.rows.Length
    ensures EntriesIn(buffer, s, jac, c, k)
  {
  }

  method FillEntry(buffer: MatBuffer, s: Sets, jac: Mat, column: nat, index: nat)
    requires EntriesIn(buffer, s, jac, column, index) && column + 1 < |jac.cols|
    requires index < jac.cols[column + 1] <= |jac.rows|
    modifies buffer`nnz, buffer.cols, buffer.rows, buffer.data
    ensures EntriesIn(buffer, s, jac, column, index + 1)
  {
    hide *;
    BeforeEntry(buffer, s, jac, column, index);
    var consIndex := s.consIndices[jac.rows[index]];
    if consIndex != NONE {
      buffer.Push(|s.varStates| + consIndex, column, jac.data[index]);
    }
    AfterPushing(buffer, s, jac, column, index + 1, buffer.Value());
  }

  lemma BeforeEntry(buffer: MatBuffer, s: Sets, jac: Mat, c: nat, k: nat)
    requires EntriesIn(buffer, s, jac, c, k) && c + 1 < |jac.cols| && k < jac.cols[c + 1] <= |jac.rows|
    ensures buffer.Shaped() && s.OrderPreserving() && jac.numCols + s.numActiveVars + |jac.rows| <= buffer.rows.Length
    ensures c < buffer.numCols == buffer.Value().numCols && buffer.nnz < buffer.rows.Length
    ensures 0 <= jac.rows[k] < |s.consIndices| && k < |jac.data|
    ensures var q, m := s.consIndices[jac.rows[k]], buffer.Value();
      EntriesPushed(if q == NONE then m else PushEntry(m, |s.varStates| + q, c, jac.data[k]), s, jac, c, c + 1, k + 1)
  {
    hide EntriesPushed, Sets.OrderPreserving, Sets.WellFormed;
    var m := buffer.Value();
    EntryRange(m, s, jac, c, c + 1, k);
    HasRoom(m, s, jac, c, c + 1, k);
    var q := s.consIndices[jac.rows[k]];
    if q == NONE {
      SkipAugEntry(m, s, jac, c, c + 1, k, k + 1);
    } else {
      PushAugEntry(m, s, jac, c, c + 1, k, q, k + 1);
    }
  }

  /** There is room for one more entry. */
  lemma HasRoom(m: Mat, s: Sets, jac: Mat, c: nat, d: nat, k: nat)
    requires EntriesPushed(m, s, jac, c, d, k) && k < jac.cols[c + 1]
    ensures |m.rows| < jac.numCols + s.numActiveVars + |jac.rows|
  {
    RoomMonotone(s, jac, c, d);
    RoomMonotone(s, jac, d, jac.numCols);
    RoomAtEnd(s, jac);
    hide Sets.WellFormed, Mat.Valid, Building, ColumnTo;
  }

  lemma EntryRange(m: Mat, s: Sets, jac: Mat, c: nat, d: nat, k: nat)
    requires EntriesPushed(m, s, jac, c, d, k) && k < |jac.rows|
    ensures 0 <= jac.rows[k] < |s.consIndices| && k < |jac.data|
    ensures s.consIndices[jac.rows[k]] == NONE || s.consIndices[jac.rows[k]] >= 0
    ensures c < m.numCols && |m.cols| == m.numCols + 1
  {
  }

  // ----- completing the matrix

  /** What add_upper starts from: the pushed columns, and room for their transposed rows. */
  ghost predicate CanComplete(buffer: MatBuffer, used: array<int>, s: Sets, jac: Mat, low: Mat)
    reads buffer, buffer.cols, buffer.rows, buffer.data
  {
    && ColumnsIn(buffer, s, jac, jac.numCols) && low == Prefix(buffer.Value(), jac.numCols)
    && jac.numCols + 2 * (s.numActiveVars + |jac.rows|) <= buffer.rows.Length
    && used != buffer.cols && used != buffer.rows && buffer.numRows < used.Length
  }

  lemma CompletionFacts(buffer: MatBuffer, used: array<int>, s: Sets, jac: Mat, low: Mat)
    requires CanComplete(buffer, used, s, jac, low)
    ensures buffer.Shaped() && used != buffer.cols && used != buffer.rows && buffer.numRows < used.Length
    ensures buffer.cols != buffer.rows && buffer.rows.Length == buffer.data.Length
    ensures IsLow(low) && low.numRows == buffer.numRows == buffer.numCols && low.numCols == jac.numCols
    ensures low.numRows == s.NumVars() + s.Size() && s.NumVars() == jac.numCols
    ensures low.numRows < buffer.cols.Length && buffer.cols[..low.numCols + 1] == low.cols
    ensures UpperKernels.HoldsLow(low, buffer.rows[..], buffer.data[..]) && |low.rows| == buffer.nnz
    ensures Begin(low, low.numRows - low.numCols, |low.rows|) <= buffer.rows.Length
    ensures Begin(low, low.numRows - low.numCols, |low.rows|)
         == 2 * |low.rows| - IdentityCount(low.rows, low.numCols, |low.rows|)
  {
    CompletedSize(buffer.Value(), s, jac, low);
    BeginAtEnd(low, |low.rows|);
    hide ColumnsPushed, Mat.Valid, Sets.OrderPreserving;
    assert buffer.cols[..low.numCols + 1] == buffer.Value().cols[..low.numCols + 1];
  }

  /** add_upper */
  method AddUpper(buffer: MatBuffer, used: array<int>, ghost s: Sets, ghost jac: Mat, ghost low: Mat, n: nat, size: nat)
    requires CanComplete(buffer, used, s, jac, low) && n == jac.numCols && size == buffer.numRows
    modifies buffer`nnz, buffer.cols, buffer.rows, buffer.data, used
    ensures buffer.Shaped() && IsCompleted(buffer.Value(), low)
  {
    hide *;
    CompletionFacts(buffer, used, s, jac, low);
    ClearCounts(buffer.cols, low, n, size);
    UpperKernels.CountUpper(buffer.cols, buffer.rows, low, buffer.data[..], n);
    UpperKernels.SumUpper(buffer.cols, used, low, n, size);
    UpperKernels.ScatteringStart(low, buffer.cols[..], used[..], buffer.rows[..], buffer.data[..]);
    var added := UpperKernels.ScatterUpper(buffer.cols, used, buffer.rows, buffer.data, low, n);
    buffer.nnz := buffer.nnz + added;
    ShapedAfter(buffer);
    ValueIs(buffer);
    Completed(low, buffer.cols[..], used[..], buffer.rows[..], buffer.data[..], buffer.nnz, buffer.Value());
  }

  lemma ShapedAfter(buffer: MatBuffer)
    requires buffer.cols != buffer.rows && buffer.numCols < buffer.cols.Length
    requires buffer.nnz <= buffer.rows.Length == buffer.data.Length
    ensures buffer.Shaped()
  {
  }

  /** The first loop of add_upper. */
  method ClearCounts(cols: array<int>, ghost low: Mat, n: nat, size: nat)
    requires IsLow(low) && n == low.numCols && size == low.numRows < cols.Length && cols[..n + 1] == low.cols
    modifies cols
    ensures UpperKernels.Counted(low, 0, cols[..])
  {
    for column := n + 1 to size + 1
      invariant cols[..n + 1] == low.cols
      invariant forall c :: n < c < column ==> cols[c] == 0
    {
      cols[column] := 0;
    }
    assert cols[..][..n + 1] == cols[..n + 1];
    UpperKernels.CountedStart(low, cols[..]);
  }

  lemma Completed(low: Mat, cols: seq<int>, used: seq<int>, rows: seq<int>, data: seq<real>, nnz: nat, m: Mat)
    requires UpperKernels.Scattering(low, |low.rows|, cols, used, rows, data)
    requires nnz == Begin(low, low.numRows - low.numCols, |low.rows|) <= |rows| == |data| && low.numRows < |cols|
    requires m == Mat(low.numRows, low.numRows, cols[..low.numRows + 1], rows[..nnz], data[..nnz])
    ensures IsCompleted(m, low)
  {
    hide Mat.Valid, ColumnFilled, Begin;
    UpperCut(low, rows, data, nnz);
    forall r | 0 <= r <= low.numRows - low.numCols ensures m.cols[low.numCols + r] == Begin(low, r, |low.rows|) {
      assert cols[low.numCols + r] == Begin(low, low.numCols + r - low.numCols, |low.rows|);
    }
    assert m.cols[..low.numCols + 1] == cols[..low.numCols + 1];
    FilledIsCompleted(low, m);
  }

  /** Spare places behind the last column do not matter. */
  lemma UpperCut(low: Mat, rows: seq<int>, data: seq<real>, nnz: nat)
    requires UpperFilled(low, |low.rows|, rows, data) && nnz == Begin(low, low.numRows - low.numCols, |low.rows|)
    ensures nnz <= |rows| && UpperFilled(low, |low.rows|, rows[..nnz], data[..nnz])
  {
    BeginMonotone(low, 0, low.numRows - low.numCols, |low.rows|);
    assert rows[..nnz][..|low.rows|] == rows[..|low.rows|] && data[..nnz][..|low.rows|] == data[..|low.rows|];
    forall r | 0 <= r < low.numRows - low.numCols ensures ColumnFilled(low, r, |low.rows|, rows[..nnz], data[..nnz]) {
      assert ColumnFilled(low, r, |low.rows|, rows, data);
      BeginMonotone(low, r, low.numRows - low.numCols, |low.rows|);
      var off, size := Begin(low, r, |low.rows|), |LowerRow(low, r, |low.rows|)|;
      PrefixSlice(rows, nnz, off, off + size);
      PrefixSlice(data, nnz, off, off + size);
    }
  }

  /** The value of the buffer, spelled out. */
  lemma ValueIs(buffer: MatBuffer)
    requires buffer.Shaped()
    ensures buffer.Value()
         == Mat(buffer.numRows, buffer.numCols, buffer.cols[..][..buffer.numCols + 1], buffer.rows[..][..buffer.nnz],
                buffer.data[..][..buffer.nnz])
  {
  }

  // ----- fill_aug_jac

  /** The first c columns of a lower triangle whose columns from n on are empty. */
  ghost predicate EmptyBehind(m: Mat, low: Mat, c: nat)
  {
    && IsLow(low) && low.numCols <= c <= low.numRows == m.numRows == m.numCols && Building(m, c)
    && (forall j :: 0 <= j < low.numCols ==> BuiltCol(m, c, j) == low.Col(j))
    && (forall j :: low.numCols <= j < c ==> BuiltCol(m, c, j) == Vec(low.numRows, [], []))
  }

  lemma EmptyStart(m: Mat, s: Sets, jac: Mat, low: Mat)
    requires ColumnsPushed(m, s, jac, jac.numCols) && low == Prefix(m, jac.numCols)
    ensures EmptyBehind(m, low, low.numCols)
  {
    hide Mat.Valid, Sets.WellFormed, IsAugColumn;
  }

  lemma EmptyNext(m: Mat, m': Mat, low: Mat, c: nat)
    requires EmptyBehind(m, low, c) && c < m.numCols && |m.cols| == m.numCols + 1 && m' == PushCol(m, c)
    ensures EmptyBehind(m', low, c + 1)
  {
    hide Mat.Valid;
    PushColBuilds(m, m', c, c + 1);
    var d := c + 1;
    forall j | 0 <= j < low.numCols ensures BuiltCol(m', d, j) == low.Col(j) { assert BuiltCol(m, c, j) == low.Col(j); }
    forall j | low.numCols <= j < d ensures BuiltCol(m', d, j) == Vec(low.numRows, [], []) {
      if j < c { assert BuiltCol(m, c, j) == Vec(low.numRows, [], []); }
    }
  }

  lemma EmptyEnd(m: Mat, low: Mat)
    requires EmptyBehind(m, low, m.numCols)
    ensures IsLowerOnly(m, low)
  {
    BuildingEnd(m);
    hide Mat.Valid;
    forall c | 0 <= c < low.numCols ensures m.Col(c) == low.Col(c) { assert BuiltCol(m, m.numCols, c) == low.Col(c); }
    forall c | low.numCols <= c < low.numRows ensures m.Col(c) == Vec(low.numRows, [], []) {
      assert BuiltCol(m, m.numCols, c) == Vec(low.numRows, [], []);
    }
  }

  /** The columns behind the variables stay empty when only the lower triangle is wanted. */
  method PushEmptyColumns(buffer: MatBuffer, ghost low: Mat, n: nat, size: nat)
    requires buffer.Shaped() && n == low.numCols && size == buffer.numCols && EmptyBehind(buffer.Value(), low, n)
    modifies buffer.cols
    ensures IsLowerOnly(buffer.Value(), low)
  {
    EmptyBounds(buffer.Value(), low, n);
    hide EmptyBehind, MatBuffer.Value;
    for j := n to size
      invariant EmptyBehind(buffer.Value(), low, j)
    {
      ghost var m := buffer.Value();
      EmptyNext(m, PushCol(m, j), low, j);
      buffer.PushColumn(j);
    }
    EmptyEnd(buffer.Value(), low);
  }

  lemma EmptyBounds(m: Mat, low: Mat, c: nat)
    requires EmptyBehind(m, low, c)
    ensures c <= m.numCols
  {
  }

  /** The matrix is the one of the given working set, as the factorisation understands it. */
  ghost predicate IsSystem(m: Mat, lower: bool, s: Sets, jac: Mat)
  {
    && Fits(s, jac) && m.Valid() && m.numRows == m.numCols == s.NumVars() + s.Size()
    && Meaning(m, lower) == KktMatrix(WorkingMatrix(s, jac), s.NumVars())
    && IsStoredSystem(m, lower, s, jac)
  }

  /** low stores the first columns entry by entry as they are pushed. */
  ghost predicate IsLowerPart(low: Mat, s: Sets, jac: Mat)
  {
    && Fits(s, jac) && Indexed(s) && IsLow(low)
    && low.numCols == jac.numCols && low.numRows == s.NumVars() + s.Size()
    && forall c :: 0 <= c < low.numCols ==> low.Col(c) == StoredTo(s, jac, c, jac.cols[c + 1])
  }

  ghost predicate IsStored(m: Mat, low: Mat, lower: bool)
  {
    if lower then IsLowerOnly(m, low) else IsCompleted(m, low)
  }

  /** The arrays hold what fill_aug_jac leaves behind. */
  ghost predicate IsStoredSystem(m: Mat, lower: bool, s: Sets, jac: Mat)
  {
    exists low :: IsLowerPart(low, s, jac) && IsStored(m, low, lower)
  }

  lemma PushedIsLowerPart(before: Mat, s: Sets, jac: Mat)
    requires ColumnsPushed(before, s, jac, jac.numCols)
    ensures IsLowerPart(Prefix(before, jac.numCols), s, jac)
  {
    var low := Prefix(before, jac.numCols);
    assert IsLow(low) && Indexed(s);
    hide Sets.WellFormed, StoredTo, Mat.Valid, Building;
    forall c | 0 <= c < low.numCols ensures low.Col(c) == StoredTo(s, jac, c, jac.cols[c + 1]) {
      assert IsAugColumn(BuiltCol(before, jac.numCols, c), s, jac, c);
    }
  }

  /** Building the system again from the same set and Jacobian gives the same arrays. */
  lemma SystemUnique(m: Mat, m': Mat, lower: bool, s: Sets, jac: Mat)
    requires IsSystem(m, lower, s, jac) && IsSystem(m', lower, s, jac)
    ensures m == m'
  {
    hide Meaning, KktMatrix, WorkingMatrix, StoredTo, IsTransposedRow, ListsRow;
    var low :| IsLowerPart(low, s, jac) && IsStored(m, low, lower);
    var low' :| IsLowerPart(low', s, jac) && IsStored(m', low', lower);
    SameColumnsSameMatrix(low, low');
    if lower {
      SameColumnsSameMatrix(m, m');
    } else {
      forall c | 0 <= c < m.numCols ensures m.Col(c) == m'.Col(c) { SameStoredColumn(m, m', low, c); }
      SameColumnsSameMatrix(m, m');
    }
  }

  lemma SameStoredColumn(m: Mat, m': Mat, low: Mat, c: nat)
    requires IsCompleted(m, low) && IsCompleted(m', low) && c < m.numCols
    ensures m'.numCols == m.numCols && m.Col(c) == m'.Col(c)
  {
    hide Mat.Valid, Lists, Vec.At;
    if c >= low.numCols {
      var r := c - low.numCols;
      assert IsTransposedRow(m.Col(c), low, r) && IsTransposedRow(m'.Col(c), low, r);
      SameListed(m.Col(c), m'.Col(c), low, r);
    }
  }

  lemma SameListed(v: Vec, w: Vec, low: Mat, r: nat)
    requires IsLow(low) && low.numCols + r < low.numRows && ListsRow(v, low, r) && ListsRow(w, low, r)
    ensures v == w
  {
    var o := LowerRow(low, r, |low.rows|);
    forall p | 0 <= p < |v.indices| ensures v.indices[p] == w.indices[p] && v.data[p] == w.data[p] {
      ListsUnique(low, o, v.indices, v.data, w.indices, w.data, p);
    }
    assert v.indices == w.indices && v.data == w.data;
  }

  /** The arrays depend on the index maps of the working set only. */
  lemma SystemOfIndices(m: Mat, lower: bool, s: Sets, t: Sets, jac: Mat)
    requires IsSystem(m, lower, s, jac) && s.WellFormed() && t.WellFormed() && Fits(t, jac)
    requires s.varIndices == t.varIndices && s.consIndices == t.consIndices
    ensures IsSystem(m, lower, t, jac)
  {
    SameIndicesSameContent(s, t);
    SameIndicesSameMatrix(s, t, jac);
    var low :| IsLowerPart(low, s, jac) && IsStored(m, low, lower);
    assert Indexed(t);
    hide Sets.WellFormed, StoredTo, IsStored;
    forall c | 0 <= c < low.numCols ensures low.Col(c) == StoredTo(t, jac, c, jac.cols[c + 1]) {
      StoredOfIndices(s, t, jac, c, jac.cols[c + 1]);
    }
    assert IsLowerPart(low, t, jac);
  }

  lemma CompletedIsSystem(m: Mat, before: Mat, s: Sets, jac: Mat, low: Mat)
    requires ColumnsPushed(before, s, jac, jac.numCols) && low == Prefix(before, jac.numCols) && IsCompleted(m, low)
    ensures IsSystem(m, false, s, jac)
  {
    PushedIsLower(before, s, jac);
    PushedIsLowerPart(before, s, jac);
    hide ColumnsPushed, Sets.WellFormed, IsTransposedRow;
    CompletedIsKkt(m, low, WorkingMatrix(s, jac));
    assert IsStored(m, low, false);
  }

  lemma LowerIsSystem(m: Mat, before: Mat, s: Sets, jac: Mat, low: Mat)
    requires ColumnsPushed(before, s, jac, jac.numCols) && low == Prefix(before, jac.numCols) && IsLowerOnly(m, low)
    ensures IsSystem(m, true, s, jac)
  {
    PushedIsLower(before, s, jac);
    PushedIsLowerPart(before, s, jac);
    hide ColumnsPushed, Sets.WellFormed;
    LowerIsKkt(m, low, WorkingMatrix(s, jac));
    assert IsStored(m, low, true);
  }

  /** reserve_aug_jac and fill_aug_jac */
  method FillAugJac(buffer: MatBuffer, used: array<int>, s: Sets, jac: Mat, lowerOnly: bool)
    requires buffer.Shaped() && s.WellFormed() && s.OrderPreserving() && Fits(s, jac)
    requires used != buffer.cols && used != buffer.rows && s.NumVars() + s.Size() < used.Length
    modifies buffer, buffer.cols, buffer.rows, buffer.data, used
    ensures buffer.Shaped() && IsSystem(buffer.Value(), lowerOnly, s, jac)
    ensures buffer.cols == old(buffer.cols) || fresh(buffer.cols)
    ensures buffer.rows == old(buffer.rows) || fresh(buffer.rows)
  {
    hide Sets.WellFormed, Sets.OrderPreserving, Fits, ColumnsIn, ColumnsPushed, IsSystem, IsCompleted, IsLowerOnly,
         EmptyBehind, MatBuffer.Value;
    var numVariables, nnz := |s.varStates|, |jac.rows| + s.numActiveVars;
    var augmentedSize := numVariables + |s.content|;
    buffer.Reserve(numVariables + nnz + if lowerOnly then 0 else nnz);
    buffer.Restart(augmentedSize, augmentedSize);
    assert jac.numCols == s.NumVars() by { FitsDimensions(s, jac); }
    FillLower(buffer, s, jac);
    Finish(buffer, used, s, jac, lowerOnly, numVariables, augmentedSize);
  }

  lemma FitsDimensions(s: Sets, jac: Mat)
    requires Fits(s, jac)
    ensures jac.numCols == s.NumVars() && jac.numRows == s.NumCons()
  {
  }

  /** The last part of fill_aug_jac. */
  method Finish(buffer: MatBuffer, used: array<int>, ghost s: Sets, ghost jac: Mat, lowerOnly: bool, n: nat, size: nat)
    requires ColumnsIn(buffer, s, jac, jac.numCols) && n == jac.numCols && size == buffer.numRows
    requires !lowerOnly ==> jac.numCols + 2 * (s.numActiveVars + |jac.rows|) <= buffer.rows.Length
    requires used != buffer.cols && used != buffer.rows && buffer.numRows < used.Length
    modifies buffer`nnz, buffer.cols, buffer.rows, buffer.data, used
    ensures buffer.Shaped() && IsSystem(buffer.Value(), lowerOnly, s, jac)
  {
    FinishFacts(buffer, s, jac);
    hide ColumnsPushed, IsSystem, IsCompleted, IsLowerOnly, EmptyBehind, MatBuffer.Value, Sets.OrderPreserving,
         Building;
    ghost var before := buffer.Value();
    ghost var low := Prefix(before, jac.numCols);
    if !lowerOnly {
      AddUpper(buffer, used, s, jac, low, n, size);
      CompletedIsSystem(buffer.Value(), before, s, jac, low);
    } else {
      EmptyStart(before, s, jac, low);
      PushEmptyColumns(buffer, low, n, size);
      LowerIsSystem(buffer.Value(), before, s, jac, low);
    }
  }

  lemma FinishFacts(buffer: MatBuffer, s: Sets, jac: Mat)
    requires ColumnsIn(buffer, s, jac, jac.numCols)
    ensures buffer.Shaped() && ColumnsPushed(buffer.Value(), s, jac, jac.numCols)
    ensures buffer.numCols == buffer.numRows && jac.numCols <= buffer.numCols
  {
  }
}
