/** The counting transposition of src/main/aug_jac/reduced_aug_jac.c: the rows of the working-set matrix, compressed
    by rows, from the column-compressed Jacobian. */
module RowForm {
  import opened LinearAlgebra
  import opened SparseVec
  import opened SparseMat
  import opened Problems
  import opened WorkingSets
  import opened WorkingMatrices

  // ----- row sizes

  /** The entries of working row r among the first limit entries of the Jacobian. */
  ghost function RowEntries(s: Sets, jac: Mat, r: nat, limit: nat): seq<nat>
    requires Fits(s, jac) && s.numActiveVars <= r < s.Size() && limit <= |jac.rows|
  {
    Occurrences(jac.rows, s.content[r] - s.NumVars(), limit)
  }

  ghost function RowCount(s: Sets, jac: Mat, r: nat, limit: nat): nat
    requires Fits(s, jac) && r < s.Size() && limit <= |jac.rows|
  {
    if r < s.numActiveVars then 1 else |RowEntries(s, jac, r, limit)|
  }

  /** The total size of the rows before r. */
  ghost function Offset(s: Sets, jac: Mat, r: nat, limit: nat): nat
    requires Fits(s, jac) && r <= s.Size() && limit <= |jac.rows|
  {
    if r == 0 then 0 else Offset(s, jac, r - 1, limit) + RowCount(s, jac, r - 1, limit)
  }

  lemma {:induction false} OffsetOfUnits(s: Sets, jac: Mat, r: nat, limit: nat)
    requires Fits(s, jac) && r <= s.numActiveVars && limit <= |jac.rows|
    ensures Offset(s, jac, r, limit) == r
  {
    if r > 0 { OffsetOfUnits(s, jac, r - 1, limit); }
  }

  lemma {:induction false} OffsetMonotone(s: Sets, jac: Mat, q: nat, r: nat, limit: nat)
    requires Fits(s, jac) && q <= r <= s.Size() && limit <= |jac.rows|
    ensures Offset(s, jac, q, limit) <= Offset(s, jac, r, limit)
    ensures q < r ==> Offset(s, jac, q, limit) + RowCount(s, jac, q, limit) <= Offset(s, jac, r, limit)
  {
    if q < r { OffsetMonotone(s, jac, q, r - 1, limit); }
  }

  /** The working row of a Jacobian entry, NONE when its constraint is inactive. */
  function RowOf(s: Sets, i: int): int
    requires 0 <= i < |s.consIndices|
  {
    s.consIndices[i]
  }

  /** One more entry enlarges exactly the row it belongs to. */
  lemma CountStep(s: Sets, jac: Mat, r: nat, limit: nat)
    requires s.WellFormed() && Fits(s, jac) && r < s.Size() && limit < |jac.rows|
    ensures RowCount(s, jac, r, limit + 1)
         == RowCount(s, jac, r, limit) + if RowOf(s, jac.rows[limit]) == r then 1 else 0
  {
    var i := jac.rows[limit];
    var q := RowOf(s, i);
    if q != NONE { assert s.content[q] == s.NumVars() + i; }
    if r >= s.numActiveVars { assert s.consIndices[s.content[r] - s.NumVars()] == r; }
  }

  lemma {:induction false} OffsetStep(s: Sets, jac: Mat, r: nat, limit: nat)
    requires s.WellFormed() && Fits(s, jac) && r <= s.Size() && limit < |jac.rows|
    ensures var q := RowOf(s, jac.rows[limit]);
      Offset(s, jac, r, limit + 1) == Offset(s, jac, r, limit) + if q != NONE && q < r then 1 else 0
  {
    var q := RowOf(s, jac.rows[limit]);
    assert q == NONE || q >= 0;
    if r > 0 {
      OffsetStep(s, jac, r - 1, limit);
      CountStep(s, jac, r - 1, limit);
    }
  }

  lemma {:induction false} OffsetStart(s: Sets, jac: Mat, r: nat)
    requires Fits(s, jac) && r <= s.Size()
    ensures Offset(s, jac, r, 0) == if r <= s.numActiveVars then r else s.numActiveVars
  {
    if r > 0 { OffsetStart(s, jac, r - 1); }
  }

  // ----- filling

  /** The part of row r that the first limit entries of the Jacobian determine is in place. */
  ghost predicate RowFilled(s: Sets, jac: Mat, r: nat, limit: nat, cols: seq<int>, vals: seq<real>)
    requires Fits(s, jac) && r < s.Size() && limit <= |jac.rows|
  {
    var off := Offset(s, jac, r, |jac.rows|);
    && off + RowCount(s, jac, r, limit) <= |cols| == |vals|
    && if r < s.numActiveVars then cols[off] == s.content[r] && vals[off] == 1.0
       else Lists(jac, RowEntries(s, jac, r, limit), cols[off..off + RowCount(s, jac, r, limit)],
                  vals[off..off + RowCount(s, jac, r, limit)])
  }

  ghost predicate Filled(s: Sets, jac: Mat, limit: nat, cols: seq<int>, vals: seq<real>)
    requires Fits(s, jac) && limit <= |jac.rows|
  {
    forall r :: 0 <= r < s.Size() ==> RowFilled(s, jac, r, limit, cols, vals)
  }

  /** Where the next entry goes: the end of the filled part of its row, which is inside the row. */
  lemma NextPosition(s: Sets, jac: Mat, r: nat, limit: nat)
    requires s.WellFormed() && Fits(s, jac) && limit < |jac.rows| && r == RowOf(s, jac.rows[limit])
    ensures s.numActiveVars <= r < s.Size()
    ensures Offset(s, jac, r, |jac.rows|) + RowCount(s, jac, r, limit) < Offset(s, jac, r + 1, |jac.rows|)
    ensures Offset(s, jac, r + 1, |jac.rows|) <= Offset(s, jac, s.Size(), |jac.rows|)
    ensures RowEntries(s, jac, r, limit + 1) == RowEntries(s, jac, r, limit) + [limit]
  {
    assert s.numActiveVars <= r < s.Size() && s.content[r] == s.NumVars() + jac.rows[limit];
    hide Sets.WellFormed, Mat.Valid, Occurrences;
    OccurrencesGrow(jac.rows, jac.rows[limit], limit, |jac.rows|);
    OffsetMonotone(s, jac, r + 1, s.Size(), |jac.rows|);
    OffsetMonotone(s, jac, r, r + 1, |jac.rows|);
    hide Offset;
  }

  /** Writing the next entry of row r leaves the other rows alone. */
  lemma OtherRowKept(s: Sets, jac: Mat, q: nat, r: nat, limit: nat, cols: seq<int>, vals: seq<real>,
                     pos: nat, col: int, val: real)
    requires s.WellFormed() && Fits(s, jac) && limit < |jac.rows| && r == RowOf(s, jac.rows[limit])
    requires q < s.Size() && q != r && RowFilled(s, jac, q, limit, cols, vals)
    requires pos == Offset(s, jac, r, |jac.rows|) + RowCount(s, jac, r, limit) && pos < |cols| == |vals|
    ensures RowFilled(s, jac, q, limit + 1, cols[pos := col], vals[pos := val])
  {
    hide Sets.WellFormed, Mat.Valid, Lists, Occurrences;
    NextPosition(s, jac, r, limit);
    CountStep(s, jac, q, limit);
    if q >= s.numActiveVars {
      OccurrencesGrow(jac.rows, s.content[q] - s.NumVars(), limit, |jac.rows|);
      OccurrencesGrow(jac.rows, s.content[q] - s.NumVars(), limit, limit + 1);
    }
    if q < r { OffsetMonotone(s, jac, q, r, |jac.rows|); } else { OffsetMonotone(s, jac, r + 1, q, |jac.rows|); }
    var off, size := Offset(s, jac, q, |jac.rows|), RowCount(s, jac, q, limit);
    SliceKept(cols, off, off + size, pos, col);
    SliceKept(vals, off, off + size, pos, val);
    assert q >= s.numActiveVars ==> RowEntries(s, jac, q, limit + 1) == RowEntries(s, jac, q, limit);
  }

  lemma SliceKept<T>(a: seq<T>, from: nat, to: nat, pos: nat, x: T)
    requires from <= to <= |a| && pos < |a| && (pos < from || to <= pos)
    ensures a[pos := x][from..to] == a[from..to]
    ensures forall k :: from <= k < to ==> a[pos := x][k] == a[k]
  {
  }

  lemma SliceExtended<T>(a: seq<T>, from: nat, pos: nat, x: T)
    requires from <= pos < |a|
    ensures a[pos := x][from..pos + 1] == a[from..pos] + [x]
  {
  }

  lemma OwnRowExtended(s: Sets, jac: Mat, r: nat, limit: nat, cols: seq<int>, vals: seq<real>, pos: nat, col: int)
    requires s.WellFormed() && Fits(s, jac) && limit < |jac.rows| && r == RowOf(s, jac.rows[limit]) && r < s.Size()
    requires RowFilled(s, jac, r, limit, cols, vals) && InColumn(jac, limit, col)
    requires pos == Offset(s, jac, r, |jac.rows|) + RowCount(s, jac, r, limit) && pos < |cols|
    ensures RowFilled(s, jac, r, limit + 1, cols[pos := col], vals[pos := jac.data[limit]])
  {
    NextPosition(s, jac, r, limit);
    var off := Offset(s, jac, r, |jac.rows|);
    SliceExtended(cols, off, pos, col);
    SliceExtended(vals, off, pos, jac.data[limit]);
    ListsExtended(jac, RowEntries(s, jac, r, limit), cols[off..pos], vals[off..pos], limit, col);
  }

  lemma ListsExtended(m: Mat, o: seq<nat>, index: seq<int>, value: seq<real>, k: nat, col: int)
    requires Lists(m, o, index, value) && |index| == |o| && InColumn(m, k, col) && k < |m.data|
    ensures Lists(m, o + [k], index + [col], value + [m.data[k]])
  {
  }

  /** The next entry of an active constraint is put in place. */
  lemma FillStep(s: Sets, jac: Mat, limit: nat, cols: seq<int>, vals: seq<real>, col: int, r: nat, pos: nat)
    requires s.WellFormed() && Fits(s, jac) && limit < |jac.rows| && InColumn(jac, limit, col)
    requires Filled(s, jac, limit, cols, vals)
    requires |cols| == |vals| == Offset(s, jac, s.Size(), |jac.rows|)
    requires r == RowOf(s, jac.rows[limit]) && r < s.Size()
    requires pos == Offset(s, jac, r, |jac.rows|) + RowCount(s, jac, r, limit)
    ensures pos < |cols|
    ensures Filled(s, jac, limit + 1, cols[pos := col], vals[pos := jac.data[limit]])
  {
    NextPosition(s, jac, r, limit);
    var next, cols', vals' := limit + 1, cols[pos := col], vals[pos := jac.data[limit]];
    forall q | 0 <= q < s.Size() ensures RowFilled(s, jac, q, next, cols', vals')
    {
      assert RowFilled(s, jac, q, limit, cols, vals);
      hide RowFilled;
      if q == r {
        OwnRowExtended(s, jac, r, limit, cols, vals, pos, col);
      } else {
        OtherRowKept(s, jac, q, r, limit, cols, vals, pos, col, jac.data[limit]);
      }
    }
  }

  /** The next entry belongs to an inactive constraint. */
  lemma FillSkip(s: Sets, jac: Mat, limit: nat, cols: seq<int>, vals: seq<real>)
    requires s.WellFormed() && Fits(s, jac) && limit < |jac.rows| && RowOf(s, jac.rows[limit]) == NONE
    requires Filled(s, jac, limit, cols, vals)
    ensures Filled(s, jac, limit + 1, cols, vals)
  {
    var next := limit + 1;
    forall q | 0 <= q < s.Size() ensures RowFilled(s, jac, q, next, cols, vals)
    {
      assert RowFilled(s, jac, q, limit, cols, vals);
      CountStep(s, jac, q, limit);
      if q >= s.numActiveVars {
        OccurrencesGrow(jac.rows, s.content[q] - s.NumVars(), limit, limit + 1);
        assert RowEntries(s, jac, q, limit + 1) == RowEntries(s, jac, q, limit);
      }
    }
  }

  /** Before the first entry only the unit rows have to be in place. */
  lemma FillStart(s: Sets, jac: Mat, cols: seq<int>, vals: seq<real>)
    requires Fits(s, jac) && |cols| == |vals| == Offset(s, jac, s.Size(), |jac.rows|)
    requires forall k :: 0 <= k < s.numActiveVars && k < |cols| ==> cols[k] == s.content[k] && vals[k] == 1.0
    ensures s.numActiveVars <= |cols| && Filled(s, jac, 0, cols, vals)
  {
    OffsetOfUnits(s, jac, s.numActiveVars, |jac.rows|);
    OffsetMonotone(s, jac, s.numActiveVars, s.Size(), |jac.rows|);
    forall r | 0 <= r < s.Size() ensures RowFilled(s, jac, r, 0, cols, vals) {
      OffsetMonotone(s, jac, r, s.Size(), |jac.rows|);
      if r < s.numActiveVars { OffsetOfUnits(s, jac, r, |jac.rows|); }
    }
  }

  // ----- the result

  /** T holds the rows of the working-set matrix as its columns. */
  ghost predicate IsRowForm(T: Mat, s: Sets, jac: Mat)
  {
    && Fits(s, jac) && T.Valid() && T.numRows == s.NumVars() && T.numCols == s.Size()
    && forall r :: 0 <= r < s.Size() ==> T.Col(r).Dense() == WorkingRow(s, jac, r)
  }

  /** One filled row is the sparse form of its working row. */
  lemma RowIsRight(s: Sets, jac: Mat, r: nat, cols: seq<int>, vals: seq<real>)
    requires Fits(s, jac) && r < s.Size() && RowFilled(s, jac, r, |jac.rows|, cols, vals)
    ensures var off, end := Offset(s, jac, r, |jac.rows|), Offset(s, jac, r + 1, |jac.rows|);
      && end <= |cols| == |vals|
      && Vec(s.NumVars(), cols[off..end], vals[off..end]).Valid()
      && Vec(s.NumVars(), cols[off..end], vals[off..end]).Dense() == WorkingRow(s, jac, r)
  {
    var off, end := Offset(s, jac, r, |jac.rows|), Offset(s, jac, r + 1, |jac.rows|);
    FilledSlice(s, jac, r, cols, vals);
    hide RowFilled, Lists, RowEntries, Offset, Vec.At;
    if r < s.numActiveVars {
      UnitVec(s.NumVars(), s.content[r]);
    } else {
      RowAsVec(jac, s.content[r] - s.NumVars(), cols[off..end], vals[off..end]);
    }
  }

  /** What a completely filled row holds. */
  lemma FilledSlice(s: Sets, jac: Mat, r: nat, cols: seq<int>, vals: seq<real>)
    requires Fits(s, jac) && r < s.Size() && RowFilled(s, jac, r, |jac.rows|, cols, vals)
    ensures var off, end := Offset(s, jac, r, |jac.rows|), Offset(s, jac, r + 1, |jac.rows|);
      && off <= end <= |cols| == |vals|
      && if r < s.numActiveVars then cols[off..end] == [s.content[r]] && vals[off..end] == [1.0]
         else Lists(jac, RowEntries(s, jac, r, |jac.rows|), cols[off..end], vals[off..end])
  {
    hide Lists, RowEntries, Mat.Valid;
    var off, end := Offset(s, jac, r, |jac.rows|), Offset(s, jac, r + 1, |jac.rows|);
    assert end == off + RowCount(s, jac, r, |jac.rows|);
    if r < s.numActiveVars { assert cols[off..end] == [cols[off]] && vals[off..end] == [vals[off]]; }
  }

  lemma UnitVec(n: nat, j: nat)
    requires j < n
    ensures Vec(n, [j], [1.0]).Valid() && Vec(n, [j], [1.0]).Dense() == Unit(n, j)
  {
    var v := Vec(n, [j], [1.0]);
    forall i | 0 <= i < n ensures v.Dense()[i] == Unit(n, j)[i] {
      if i == j { StoredAt(v, 0); } else { AbsentAt(v, i); }
    }
  }

  /** Offsets, columns and values of a complete fill form the row form. */
  lemma FilledIsRowForm(s: Sets, jac: Mat, T: Mat)
    requires Fits(s, jac) && T.numRows == s.NumVars() && T.numCols == s.Size() && |T.cols| == s.Size() + 1
    requires forall r :: 0 <= r <= s.Size() ==> T.cols[r] == Offset(s, jac, r, |jac.rows|)
    requires |T.rows| == |T.data| == Offset(s, jac, s.Size(), |jac.rows|)
    requires Filled(s, jac, |jac.rows|, T.rows, T.data)
    ensures IsRowForm(T, s, jac)
  {
    forall i, j | 0 <= i <= j < |T.cols| ensures T.cols[i] <= T.cols[j] {
      OffsetMonotone(s, jac, i, j, |jac.rows|);
    }
    assert T.Framed();
    forall r | 0 <= r < s.Size() ensures Slice(T, r).Valid() && Slice(T, r).Dense() == WorkingRow(s, jac, r) {
      assert RowFilled(s, jac, r, |jac.rows|, T.rows, T.data);
      RowIsRight(s, jac, r, T.rows, T.data);
    }
    hide Filled, Offset, Mat.Framed, Vec.Valid;
    ColumnsMakeMatrix(T);
  }

  /** The entries of column r of a framed matrix. */
  ghost function Slice(T: Mat, r: nat): Vec
    requires T.Framed() && r < T.numCols
  {
    ColumnsOrdered(T, r);
    Vec(T.numRows, T.rows[T.cols[r]..T.cols[r + 1]], T.data[T.cols[r]..T.cols[r + 1]])
  }

  /** A framed matrix whose columns are valid sparse vectors is valid. */
  lemma ColumnsMakeMatrix(T: Mat)
    requires T.Framed() && forall r :: 0 <= r < T.numCols ==> Slice(T, r).Valid()
    ensures T.Valid() && forall r :: 0 <= r < T.numCols ==> T.Col(r) == Slice(T, r)
  {
    forall k | 0 <= k < |T.rows| ensures 0 <= T.rows[k] < T.numRows {
      var c := ColumnOf(T, k, T.numCols);
      ColumnsOrdered(T, c);
      assert Slice(T, c).Valid() && Slice(T, c).indices[k - T.cols[c]] == T.rows[k];
    }
    forall j, k, l | 0 <= j < T.numCols && T.cols[j] <= k < l < T.cols[j + 1] ensures T.rows[k] < T.rows[l] {
      ColumnsOrdered(T, j);
      var v := Slice(T, j);
      assert v.indices[k - T.cols[j]] == T.rows[k] && v.indices[l - T.cols[j]] == T.rows[l];
    }
  }
}
