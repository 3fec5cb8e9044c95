/** The in-place completion of src/main/aug_jac/standard_aug_jac.c: from the first n columns of the augmented matrix,
    which hold the identity and everything below it, the remaining columns are the transposed lower rows. */
module UpperFill {
  import opened LinearAlgebra
  import opened SparseVec
  import opened SparseMat
  import opened WorkingMatrices
  import opened RowForm

  /** low holds the first n columns; its rows from n on are to be transposed behind its own entries. */
  ghost predicate IsLow(low: Mat)
  {
    low.Valid() && low.numCols <= low.numRows
  }

  /** The entries of row n + r among the first limit entries. */
  ghost function LowerRow(low: Mat, r: nat, limit: nat): seq<nat>
    requires IsLow(low) && low.numCols + r < low.numRows && limit <= |low.rows|
  {
    Occurrences(low.rows, low.numCols + r, limit)
  }

  /** Where column n + r begins. */
  ghost function Begin(low: Mat, r: nat, limit: nat): nat
    requires IsLow(low) && low.numCols + r <= low.numRows && limit <= |low.rows|
  {
    if r == 0 then |low.rows| else Begin(low, r - 1, limit) + |LowerRow(low, r - 1, limit)|
  }

  lemma {:induction false} BeginMonotone(low: Mat, q: nat, r: nat, limit: nat)
    requires IsLow(low) && q <= r && low.numCols + r <= low.numRows && limit <= |low.rows|
    ensures |low.rows| <= Begin(low, q, limit) <= Begin(low, r, limit)
    ensures q < r ==> Begin(low, q, limit) + |LowerRow(low, q, limit)| <= Begin(low, r, limit)
  {
    if q < r { BeginMonotone(low, q, r - 1, limit); } else if q > 0 { BeginMonotone(low, q - 1, r - 1, limit); }
  }

  /** The number of entries among the first limit that lie in the identity part. */
  ghost function IdentityCount(rows: seq<int>, n: nat, limit: nat): nat
    requires limit <= |rows|
  {
    if limit == 0 then 0 else IdentityCount(rows, n, limit - 1) + if rows[limit - 1] < n then 1 else 0
  }

  /** One more entry lengthens the row it belongs to. */
  lemma RowStep(low: Mat, r: nat, limit: nat, next: nat)
    requires IsLow(low) && low.numCols + r < low.numRows && limit < |low.rows| && next == limit + 1
    ensures low.rows[limit] == low.numCols + r ==> LowerRow(low, r, next) == LowerRow(low, r, limit) + [limit]
    ensures low.rows[limit] != low.numCols + r ==> LowerRow(low, r, next) == LowerRow(low, r, limit)
  {
  }

  lemma {:induction false} BeginStep(low: Mat, r: nat, limit: nat)
    requires IsLow(low) && low.numCols + r <= low.numRows && limit < |low.rows|
    ensures Begin(low, r, limit + 1)
         == Begin(low, r, limit) + if low.numCols <= low.rows[limit] < low.numCols + r then 1 else 0
  {
    if r > 0 {
      BeginStep(low, r - 1, limit);
      RowStep(low, r - 1, limit, limit + 1);
    }
  }

  /** The transposed part has one entry for every entry outside the identity. */
  lemma {:induction false} BeginAtEnd(low: Mat, limit: nat)
    requires IsLow(low) && limit <= |low.rows|
    ensures IdentityCount(low.rows, low.numCols, limit) <= limit
    ensures Begin(low, low.numRows - low.numCols, limit)
         == |low.rows| + limit - IdentityCount(low.rows, low.numCols, limit)
  {
    if limit > 0 {
      BeginAtEnd(low, limit - 1);
      BeginStep(low, low.numRows - low.numCols, limit - 1);
    } else {
      BeginEmpty(low, low.numRows - low.numCols);
    }
  }

  lemma {:induction false} BeginEmpty(low: Mat, r: nat)
    requires IsLow(low) && low.numCols + r <= low.numRows
    ensures Begin(low, r, 0) == |low.rows|
  {
    if r > 0 { BeginEmpty(low, r - 1); }
  }

  // ----- the scatter

  /** The part of column n + r that the first limit entries determine is in place. */
  ghost predicate ColumnFilled(low: Mat, r: nat, limit: nat, rows: seq<int>, data: seq<real>)
    requires IsLow(low) && low.numCols + r < low.numRows && limit <= |low.rows|
  {
    var off, size := Begin(low, r, |low.rows|), |LowerRow(low, r, limit)|;
    && off + size <= |rows| == |data|
    && Lists(low, LowerRow(low, r, limit), rows[off..off + size], data[off..off + size])
  }

  /** The given entries stay in front, and the columns behind them are filled as far as limit. */
  ghost predicate UpperFilled(low: Mat, limit: nat, rows: seq<int>, data: seq<real>)
  {
    && IsLow(low) && limit <= |low.rows| <= |rows| == |data|
    && rows[..|low.rows|] == low.rows && data[..|low.rows|] == low.data
    && Begin(low, low.numRows - low.numCols, |low.rows|) <= |rows|
    && forall r :: 0 <= r < low.numRows - low.numCols ==> ColumnFilled(low, r, limit, rows, data)
  }

  lemma UpperStart(low: Mat, rows: seq<int>, data: seq<real>)
    requires IsLow(low) && |low.rows| <= |rows| == |data|
    requires rows[..|low.rows|] == low.rows && data[..|low.rows|] == low.data
    requires Begin(low, low.numRows - low.numCols, |low.rows|) <= |rows|
    ensures UpperFilled(low, 0, rows, data)
  {
    forall r | 0 <= r < low.numRows - low.numCols ensures ColumnFilled(low, r, 0, rows, data) {
      BeginMonotone(low, r, low.numRows - low.numCols, |low.rows|);
    }
  }

  lemma UpperSkip(low: Mat, limit: nat, rows: seq<int>, data: seq<real>, next: nat)
    requires UpperFilled(low, limit, rows, data) && limit < |low.rows| && next == limit + 1
    requires low.rows[limit] < low.numCols
    ensures UpperFilled(low, next, rows, data)
  {
    hide Mat.Valid, Lists, Begin;
    forall r | 0 <= r < low.numRows - low.numCols ensures ColumnFilled(low, r, next, rows, data) {
      assert ColumnFilled(low, r, limit, rows, data);
      RowStep(low, r, limit, next);
    }
  }

  /** Where the next entry goes: behind the filled part of its column and inside it. */
  lemma UpperPosition(low: Mat, r: nat, limit: nat)
    requires IsLow(low) && limit < |low.rows| && low.rows[limit] == low.numCols + r
    ensures low.numCols + r < low.numRows
    ensures |low.rows| <= Begin(low, r, |low.rows|)
    ensures Begin(low, r, |low.rows|) + |LowerRow(low, r, limit)| < Begin(low, r + 1, |low.rows|)
    ensures Begin(low, r + 1, |low.rows|) <= Begin(low, low.numRows - low.numCols, |low.rows|)
  {
    OccurrencesGrow(low.rows, low.numCols + r, limit, |low.rows|);
    BeginMonotone(low, r, r + 1, |low.rows|);
    BeginMonotone(low, r + 1, low.numRows - low.numCols, |low.rows|);
  }

  lemma OtherColumnKept(low: Mat, q: nat, r: nat, limit: nat, rows: seq<int>, data: seq<real>, pos: nat, row: int,
                        val: real, next: nat)
    requires IsLow(low) && limit < |low.rows| && low.rows[limit] == low.numCols + r && next == limit + 1
    requires low.numCols + q < low.numRows && q != r && ColumnFilled(low, q, limit, rows, data)
    requires pos == Begin(low, r, |low.rows|) + |LowerRow(low, r, limit)| && pos < |rows| == |data|
    ensures ColumnFilled(low, q, next, rows[pos := row], data[pos := val])
  {
    hide Mat.Valid, Lists, Occurrences;
    UpperPosition(low, r, limit);
    RowStep(low, q, limit, next);
    OccurrencesGrow(low.rows, low.numCols + q, limit, |low.rows|);
    if q < r {
      BeginMonotone(low, q, r, |low.rows|);
    } else {
      BeginMonotone(low, r + 1, q, |low.rows|);
    }
    var off, size := Begin(low, q, |low.rows|), |LowerRow(low, q, limit)|;
    SliceKept(rows, off, off + size, pos, row);
    SliceKept(data, off, off + size, pos, val);
  }

  lemma OwnColumnExtended(low: Mat, r: nat, limit: nat, rows: seq<int>, data: seq<real>, pos: nat, col: int, next: nat)
    requires IsLow(low) && limit < |low.rows| && low.rows[limit] == low.numCols + r && next == limit + 1
    requires low.numCols + r < low.numRows && ColumnFilled(low, r, limit, rows, data) && InColumn(low, limit, col)
    requires pos == Begin(low, r, |low.rows|) + |LowerRow(low, r, limit)| && pos < |rows|
    ensures ColumnFilled(low, r, next, rows[pos := col], data[pos := low.data[limit]])
  {
    var off := Begin(low, r, |low.rows|);
    RowStep(low, r, limit, next);
    SliceExtended(rows, off, pos, col);
    SliceExtended(data, off, pos, low.data[limit]);
    ListsExtended(low, LowerRow(low, r, limit), rows[off..pos], data[off..pos], limit, col);
    hide Mat.Valid, Lists, Occurrences;
  }

  lemma UpperPut(low: Mat, limit: nat, rows: seq<int>, data: seq<real>, r: nat, pos: nat, col: int, next: nat)
    requires UpperFilled(low, limit, rows, data) && limit < |low.rows| && next == limit + 1
    requires low.rows[limit] == low.numCols + r && low.numCols + r < low.numRows && InColumn(low, limit, col)
    requires pos == Begin(low, r, |low.rows|) + |LowerRow(low, r, limit)|
    ensures |low.rows| <= pos < |rows| == |data| && limit < |low.data|
    ensures UpperFilled(low, next, rows[pos := col], data[pos := low.data[limit]])
  {
    UpperPosition(low, r, limit);
    var rows', data' := rows[pos := col], data[pos := low.data[limit]];
    forall q | 0 <= q < low.numRows - low.numCols ensures ColumnFilled(low, q, next, rows', data') {
      assert ColumnFilled(low, q, limit, rows, data);
      hide ColumnFilled;
      if q == r {
        OwnColumnExtended(low, r, limit, rows, data, pos, col, next);
      } else {
        OtherColumnKept(low, q, r, limit, rows, data, pos, col, low.data[limit], next);
      }
    }
  }

  // ----- the completed matrix

  /** The first n columns are those of low, the others its transposed lower rows. */
  ghost predicate IsCompleted(m: Mat, low: Mat)
  {
    && IsLow(low) && m.Valid() && m.numRows == m.numCols == low.numRows
    && (forall c :: 0 <= c < low.numCols ==> m.Col(c) == low.Col(c))
    && (forall c :: low.numCols <= c < low.numRows ==> IsTransposedRow(m.Col(c), low, c - low.numCols))
  }

  /** v is row n + r of low, with nothing behind it. */
  ghost predicate IsTransposedRow(v: Vec, low: Mat, r: nat)
    requires IsLow(low) && low.numCols + r < low.numRows
  {
    && v.Valid()
    && (forall i :: 0 <= i < low.numCols ==> v.At(i) == low.At(low.numCols + r, i))
    && (forall i :: low.numCols <= i ==> v.At(i) == 0.0)
    && ListsRow(v, low, r)
  }

  /** v stores the entries of the row, one by one and in their order. */
  ghost predicate ListsRow(v: Vec, low: Mat, r: nat)
    requires IsLow(low) && low.numCols + r < low.numRows
  {
    && v.dim == low.numRows && |v.indices| == |v.data| == |LowerRow(low, r, |low.rows|)|
    && Lists(low, LowerRow(low, r, |low.rows|), v.indices, v.data)
  }

  /** One filled column as a sparse vector of the full dimension. */
  lemma FilledColumn(low: Mat, r: nat, rows: seq<int>, data: seq<real>, off: nat, end: nat)
    requires IsLow(low) && low.numCols + r < low.numRows && ColumnFilled(low, r, |low.rows|, rows, data)
    requires off == Begin(low, r, |low.rows|) && end == Begin(low, r + 1, |low.rows|)
    ensures off <= end <= |rows| == |data|
    ensures IsTransposedRow(Vec(low.numRows, rows[off..end], data[off..end]), low, r)
  {
    var v, w := Vec(low.numRows, rows[off..end], data[off..end]), Vec(low.numCols, rows[off..end], data[off..end]);
    RowAsVec(low, low.numCols + r, rows[off..end], data[off..end]);
    assert w.Valid() && v.Valid();
    hide Lists, Occurrences, Mat.Valid;
    forall i | 0 <= i < low.numCols ensures v.At(i) == low.At(low.numCols + r, i) {
      assert v.At(i) == w.Dense()[i] == low.Row(low.numCols + r)[i];
    }
    forall i | low.numCols <= i ensures v.At(i) == 0.0 { AbsentAt(v, i); }
  }

  /** Offsets, rows and values of a complete fill are the completed matrix. */
  lemma FilledIsCompleted(low: Mat, m: Mat)
    requires m.numRows == m.numCols == low.numRows && |m.cols| == m.numCols + 1
    requires UpperFilled(low, |low.rows|, m.rows, m.data)
    requires |m.rows| == Begin(low, low.numRows - low.numCols, |low.rows|)
    requires m.cols[..low.numCols + 1] == low.cols
    requires forall r :: 0 <= r <= low.numRows - low.numCols ==> m.cols[low.numCols + r] == Begin(low, r, |low.rows|)
    ensures IsCompleted(m, low)
  {
    CompletedFramed(low, m);
    hide UpperFilled, Mat.Valid, Vec.Valid, Mat.Framed, IsTransposedRow;
    SlicesAreRight(low, m);
    ColumnsMakeMatrix(m);
    CompletedFrom(low, m);
  }

  /** The columns as the completed matrix needs them. */
  ghost predicate IsRightSlice(v: Vec, low: Mat, c: nat)
    requires IsLow(low) && c < low.numRows
  {
    v.Valid() && if c < low.numCols then v == low.Col(c) else IsTransposedRow(v, low, c - low.numCols)
  }

  lemma CompletedFrom(low: Mat, m: Mat)
    requires IsLow(low) && m.Valid() && m.numRows == m.numCols == low.numRows
    requires forall c :: 0 <= c < m.numCols ==> m.Col(c) == Slice(m, c)
    requires forall c :: 0 <= c < m.numCols ==> IsRightSlice(Slice(m, c), low, c)
    ensures IsCompleted(m, low)
  {
    hide IsTransposedRow, Vec.Valid, Slice;
    forall c | 0 <= c < low.numCols ensures m.Col(c) == low.Col(c) { assert IsRightSlice(Slice(m, c), low, c); }
    forall c | low.numCols <= c < low.numRows ensures IsTransposedRow(m.Col(c), low, c - low.numCols) {
      assert IsRightSlice(Slice(m, c), low, c);
    }
  }

  lemma SlicesAreRight(low: Mat, m: Mat)
    requires m.numRows == m.numCols == low.numRows && m.Framed()
    requires UpperFilled(low, |low.rows|, m.rows, m.data)
    requires m.cols[..low.numCols + 1] == low.cols
    requires forall r :: 0 <= r <= low.numRows - low.numCols ==> m.cols[low.numCols + r] == Begin(low, r, |low.rows|)
    ensures IsLow(low) && forall c :: 0 <= c < m.numCols ==> IsRightSlice(Slice(m, c), low, c) && Slice(m, c).Valid()
  {
    hide Mat.Valid, Vec.Valid, Begin, ColumnFilled;
    forall c | 0 <= c < m.numCols ensures IsRightSlice(Slice(m, c), low, c) {
      if c < low.numCols {
        LeftSlice(low, m, c);
      } else {
        var r := c - low.numCols;
        assert m.cols[low.numCols + r] == Begin(low, r, |low.rows|);
        assert m.cols[low.numCols + (r + 1)] == Begin(low, r + 1, |low.rows|);
        RightSlice(low, m, r);
      }
    }
  }

  lemma CompletedFramed(low: Mat, m: Mat)
    requires IsLow(low) && m.numRows == m.numCols == low.numRows && |m.cols| == m.numCols + 1 && |m.rows| == |m.data|
    requires |m.rows| == Begin(low, low.numRows - low.numCols, |low.rows|)
    requires m.cols[..low.numCols + 1] == low.cols
    requires forall r :: 0 <= r <= low.numRows - low.numCols ==> m.cols[low.numCols + r] == Begin(low, r, |low.rows|)
    ensures m.Framed()
  {
    var n := low.numCols;
    assert m.cols[n + (low.numRows - n)] == |m.rows|;
    forall i, j | 0 <= i <= j < |m.cols| ensures m.cols[i] <= m.cols[j] {
      if i >= n {
        BeginMonotone(low, i - n, j - n, |low.rows|);
        assert m.cols[n + (i - n)] == Begin(low, i - n, |low.rows|);
        assert m.cols[n + (j - n)] == Begin(low, j - n, |low.rows|);
      } else if j >= n {
        BeginMonotone(low, 0, j - n, |low.rows|);
        assert m.cols[i] == low.cols[i] <= |low.rows| && m.cols[n + (j - n)] == Begin(low, j - n, |low.rows|);
      } else {
        assert m.cols[i] == low.cols[i] && m.cols[j] == low.cols[j];
      }
    }
  }

  lemma LeftSlice(low: Mat, m: Mat, c: nat)
    requires IsLow(low) && m.Framed() && m.numRows == m.numCols == low.numRows && c < low.numCols
    requires |low.rows| <= |m.rows| && m.rows[..|low.rows|] == low.rows && m.data[..|low.rows|] == low.data
    requires m.cols[..low.numCols + 1] == low.cols
    ensures Slice(m, c) == low.Col(c)
  {
    ColumnsOrdered(low, c);
    assert m.cols[c] == low.cols[c] && m.cols[c + 1] == low.cols[c + 1];
    var a, b := low.cols[c], low.cols[c + 1];
    PrefixSlice(m.rows, |low.rows|, a, b);
    PrefixSlice(m.data, |low.rows|, a, b);
  }

  lemma PrefixSlice<T>(a: seq<T>, n: nat, from: nat, to: nat)
    requires from <= to <= n <= |a|
    ensures a[..n][from..to] == a[from..to]
  {
  }

  lemma RightSlice(low: Mat, m: Mat, r: nat)
    requires UpperFilled(low, |low.rows|, m.rows, m.data) && m.Framed() && m.numRows == m.numCols == low.numRows
    requires low.numCols + r < low.numRows && m.cols[low.numCols + r] == Begin(low, r, |low.rows|)
    requires m.cols[low.numCols + r + 1] == Begin(low, r + 1, |low.rows|)
    ensures IsTransposedRow(Slice(m, low.numCols + r), low, r)
  {
    assert ColumnFilled(low, r, |low.rows|, m.rows, m.data);
    FilledColumn(low, r, m.rows, m.data, m.cols[low.numCols + r], m.cols[low.numCols + r + 1]);
  }
}
