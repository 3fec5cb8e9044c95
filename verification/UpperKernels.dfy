/** add_upper in src/main/aug_jac/standard_aug_jac.c: count, prefix sum and scatter inside the arrays of the matrix. */
module UpperKernels {
  import opened LinearAlgebra
  import opened SparseVec
  import opened SparseMat
  import opened WorkingMatrices
  import opened RowForm
  import opened UpperFill

  /** The number of entries that column c - 1 of the completed matrix takes over, from the first limit entries. */
  ghost function CountAt(low: Mat, c: nat, limit: nat): nat
    requires IsLow(low) && low.numCols < c <= low.numRows && limit <= |low.rows|
  {
    |LowerRow(low, c - 1 - low.numCols, limit)|
  }

  /** The arrays hold low, and nothing is counted beyond it yet for entries from limit on. */
  ghost predicate Counted(low: Mat, limit: nat, cols: seq<int>)
  {
    && IsLow(low) && limit <= |low.rows| && low.numRows + 1 <= |cols| && cols[..low.numCols + 1] == low.cols
    && forall c :: low.numCols < c <= low.numRows ==> cols[c] == CountAt(low, c, limit)
  }

  lemma CountedStart(low: Mat, cols: seq<int>)
    requires IsLow(low) && low.numRows + 1 <= |cols| && cols[..low.numCols + 1] == low.cols
    requires forall c :: low.numCols < c <= low.numRows ==> cols[c] == 0
    ensures Counted(low, 0, cols)
  {
  }

  /** The next entry is counted for its column, one place further to the right. */
  lemma CountedStep(low: Mat, limit: nat, cols: seq<int>, next: nat)
    requires Counted(low, limit, cols) && limit < |low.rows| && next == limit + 1
    ensures 0 <= low.rows[limit] < low.numRows < |cols|
    ensures low.rows[limit] < low.numCols ==> Counted(low, next, cols)
    ensures low.rows[limit] >= low.numCols ==>
      Counted(low, next, cols[low.rows[limit] + 1 := cols[low.rows[limit] + 1] + 1])
  {
    hide Mat.Ascends;
    forall c | low.numCols < c <= low.numRows
      ensures CountAt(low, c, next) == CountAt(low, c, limit) + (if low.rows[limit] + 1 == c then 1 else 0)
    {
      RowStep(low, c - 1 - low.numCols, limit, next);
    }
    var q := low.rows[limit] + 1;
    if q > low.numCols { assert cols[q := cols[q] + 1][..low.numCols + 1] == cols[..low.numCols + 1]; }
  }

  /** The entries in front belong to low. */
  ghost predicate HoldsLow(low: Mat, rows: seq<int>, data: seq<real>)
  {
    |low.rows| <= |rows| == |data| && rows[..|low.rows|] == low.rows && data[..|low.rows|] == low.data
  }

  /** The second loop of add_upper. */
  method CountUpper(cols: array<int>, rows: array<int>, ghost low: Mat, ghost data: seq<real>, n: nat)
    requires cols != rows && n == low.numCols && Counted(low, 0, cols[..]) && HoldsLow(low, rows[..], data)
    modifies cols
    ensures Counted(low, |low.rows|, cols[..])
  {
    LowFacts(low, cols[..], 0);
    hide Counted, IsLow, Mat.Framed;
    for column := 0 to n
      invariant 0 <= low.cols[column] <= |low.rows| && Counted(low, low.cols[column], cols[..])
    {
      LowFacts(low, cols[..], low.cols[column]);
      ColumnsOrdered(low, column);
      PrefixAt(cols[..], low.cols, column);
      PrefixAt(cols[..], low.cols, column + 1);
      for index := cols[column] to cols[column + 1]
        invariant Counted(low, index, cols[..])
      {
        CountOne(cols, rows, low, data, n, index);
      }
    }
  }

  method CountOne(cols: array<int>, rows: array<int>, ghost low: Mat, ghost data: seq<real>, n: nat, index: nat)
    requires cols != rows && n == low.numCols && index < |low.rows|
    requires Counted(low, index, cols[..]) && HoldsLow(low, rows[..], data)
    modifies cols
    ensures Counted(low, index + 1, cols[..])
  {
    ghost var before := cols[..];
    PrefixAt(rows[..], low.rows, index);
    hide *;
    CountedStep(low, index, before, index + 1);
    if rows[index] < n { return; }
    var target := rows[index] + 1;
    cols[target] := cols[target] + 1;
    assert cols[..] == before[target := before[target] + 1];
  }

  lemma PrefixAt(a: seq<int>, b: seq<int>, k: nat)
    requires k < |b| <= |a| && a[..|b|] == b
    ensures a[k] == b[k]
  {
  }

  lemma LowFacts(low: Mat, cols: seq<int>, limit: nat)
    requires Counted(low, limit, cols)
    ensures low.Framed() && low.numCols < |low.cols| == low.numCols + 1 <= |cols| && cols[..|low.cols|] == low.cols
    ensures low.cols[0] == 0 && low.cols[low.numCols] == |low.rows|
  {
  }

  // ----- prefix sums

  /** The offsets behind those of low are the beginnings of the transposed columns. */
  ghost predicate Summed(low: Mat, cols: seq<int>)
  {
    && IsLow(low) && low.numRows + 1 <= |cols| && cols[..low.numCols + 1] == low.cols
    && forall c :: low.numCols <= c <= low.numRows ==> cols[c] == Begin(low, c - low.numCols, |low.rows|)
  }

  lemma BeginNext(low: Mat, c: nat)
    requires IsLow(low) && low.numCols < c <= low.numRows
    ensures Begin(low, c - low.numCols, |low.rows|)
         == Begin(low, c - 1 - low.numCols, |low.rows|) + CountAt(low, c, |low.rows|)
  {
  }

  /** The third loop of add_upper: offsets from counts, and no entry inserted yet. */
  method SumUpper(cols: array<int>, used: array<int>, ghost low: Mat, n: nat, size: nat)
    requires cols != used && n == low.numCols && size == low.numRows && size < used.Length
    requires Counted(low, |low.rows|, cols[..])
    modifies cols, used
    ensures Summed(low, cols[..]) && forall c :: n < c <= size ==> used[c] == 0
  {
    ghost var counts := cols[..];
    CountsAre(low, counts);
    hide IsLow, CountAt, Begin, Counted, Mat.Framed;
    for column := n + 1 to size + 1
      invariant forall c :: 0 <= c <= n ==> cols[c] == counts[c]
      invariant forall c :: n <= c < column ==> cols[c] == Begin(low, c - n, |low.rows|)
      invariant forall c :: column <= c <= size ==> cols[c] == counts[c]
      invariant forall c :: n < c < column ==> used[c] == 0
    {
      BeginNext(low, column);
      cols[column] := cols[column] + cols[column - 1];
      used[column] := 0;
    }
    assert cols[..n + 1] == counts[..n + 1];
  }

  lemma CountsAre(low: Mat, counts: seq<int>)
    requires Counted(low, |low.rows|, counts)
    ensures IsLow(low) && low.numCols <= low.numRows < |counts| && counts[..low.numCols + 1] == low.cols
    ensures counts[low.numCols] == Begin(low, 0, |low.rows|)
    ensures forall c :: low.numCols < c <= low.numRows ==> counts[c] == CountAt(low, c, |low.rows|)
  {
    assert counts[low.numCols] == low.cols[low.numCols];
  }

  // ----- the scatter

  /** The state of the scatter after the first limit entries; used[c] entries of column c - 1 have been inserted. */
  ghost predicate Scattering(low: Mat, limit: nat, cols: seq<int>, used: seq<int>, rows: seq<int>, data: seq<real>)
  {
    && Summed(low, cols) && UpperFilled(low, limit, rows, data) && low.numRows < |used|
    && forall c :: low.numCols < c <= low.numRows ==> used[c] == CountAt(low, c, limit)
  }

  lemma ScatteringStart(low: Mat, cols: seq<int>, used: seq<int>, rows: seq<int>, data: seq<real>)
    requires Summed(low, cols) && HoldsLow(low, rows, data) && low.numRows < |used|
    requires Begin(low, low.numRows - low.numCols, |low.rows|) <= |rows|
    requires forall c :: low.numCols < c <= low.numRows ==> used[c] == 0
    ensures Scattering(low, 0, cols, used, rows, data)
  {
    UpperStart(low, rows, data);
    hide UpperFilled, Begin, Mat.Valid;
  }

  lemma CountAtStep(low: Mat, limit: nat, next: nat)
    requires IsLow(low) && limit < |low.rows| && next == limit + 1
    ensures forall c :: low.numCols < c <= low.numRows ==>
      CountAt(low, c, next) == CountAt(low, c, limit) + (if low.rows[limit] + 1 == c then 1 else 0)
  {
    forall c | low.numCols < c <= low.numRows
      ensures CountAt(low, c, next) == CountAt(low, c, limit) + (if low.rows[limit] + 1 == c then 1 else 0)
    {
      RowStep(low, c - 1 - low.numCols, limit, next);
    }
  }

  lemma ScatteringSkip(low: Mat, limit: nat, cols: seq<int>, used: seq<int>, rows: seq<int>, data: seq<real>, next: nat)
    requires Scattering(low, limit, cols, used, rows, data) && limit < |low.rows| && next == limit + 1
    requires low.rows[limit] < low.numCols
    ensures Scattering(low, next, cols, used, rows, data)
  {
    CountAtStep(low, limit, next);
    UpperSkip(low, limit, rows, data, next);
    hide UpperFilled, CountAt, Mat.Valid;
  }

  lemma ScatteringPut(low: Mat, limit: nat, cols: seq<int>, used: seq<int>, rows: seq<int>, data: seq<real>,
                      col: int, target: nat, next: nat)
    requires Scattering(low, limit, cols, used, rows, data) && limit < |low.rows| && next == limit + 1
    requires target == low.rows[limit] && low.numCols <= target && InColumn(low, limit, col)
    ensures target < |cols| && target + 1 < |used| && used[target + 1] >= 0 && limit < |low.data|
    ensures |low.rows| <= cols[target] + used[target + 1] < |rows| == |data|
    ensures Scattering(low, next, cols, used[target + 1 := used[target + 1] + 1],
                       rows[cols[target] + used[target + 1] := col],
                       data[cols[target] + used[target + 1] := low.data[limit]])
  {
    var r := target - low.numCols;
    UpperPosition(low, r, limit);
    var pos := Begin(low, r, |low.rows|) + |LowerRow(low, r, limit)|;
    assert cols[target] == Begin(low, r, |low.rows|) && used[target + 1] == CountAt(low, target + 1, limit);
    assert pos == cols[target] + used[target + 1];
    CountAtStep(low, limit, next);
    UpperPut(low, limit, rows, data, r, pos, col, next);
    hide UpperFilled, CountAt, Mat.Valid, Begin;
  }

  /** The last loop of add_upper. */
  method ScatterUpper(cols: array<int>, used: array<int>, rows: array<int>, data: array<real>, ghost low: Mat, n: nat)
    returns (count: nat)
    requires cols != used && cols != rows && used != rows && n == low.numCols
    requires Scattering(low, 0, cols[..], used[..], rows[..], data[..])
    modifies used, rows, data
    ensures Scattering(low, |low.rows|, cols[..], used[..], rows[..], data[..])
    ensures count == |low.rows| - IdentityCount(low.rows, n, |low.rows|)
  {
    count := 0;
    ghost var offsets := cols[..];
    SummedFacts(low, offsets);
    hide Scattering, Summed, IsLow, Mat.Framed;
    for column := 0 to n
      invariant 0 <= low.cols[column] <= |low.rows| && cols[..] == offsets
      invariant Scattering(low, low.cols[column], offsets, used[..], rows[..], data[..])
      invariant count == low.cols[column] - IdentityCount(low.rows, n, low.cols[column])
    {
      ColumnsOrdered(low, column);
      PrefixAt(offsets, low.cols, column);
      PrefixAt(offsets, low.cols, column + 1);
      assert cols[column] == offsets[column] && cols[column + 1] == offsets[column + 1];
      for index := cols[column] to cols[column + 1]
        invariant cols[..] == offsets && Scattering(low, index, offsets, used[..], rows[..], data[..])
        invariant count == index - IdentityCount(low.rows, n, index)
      {
        var added := ScatterOne(cols, used, rows, data, low, n, column, index);
        count := count + added;
      }
    }
  }

  lemma SummedFacts(low: Mat, cols: seq<int>)
    requires Summed(low, cols)
    ensures IsLow(low) && low.Framed() && |low.cols| == low.numCols + 1 <= |cols| && cols[..|low.cols|] == low.cols
    ensures low.cols[0] == 0 && low.cols[low.numCols] == |low.rows|
  {
  }

  /** One entry below the identity goes to the next free place of its column. */
  method ScatterOne(cols: array<int>, used: array<int>, rows: array<int>, data: array<real>, ghost low: Mat, n: nat,
                    column: nat, index: nat)
    returns (added: nat)
    requires cols != used && cols != rows && used != rows && n == low.numCols
    requires Scattering(low, index, cols[..], used[..], rows[..], data[..]) && index < |low.rows|
    requires InColumn(low, index, column)
    modifies used, rows, data
    ensures Scattering(low, index + 1, cols[..], used[..], rows[..], data[..])
    ensures added == if low.rows[index] < n then 0 else 1
  {
    ghost var u, r, d := used[..], rows[..], data[..];
    FrontOf(low, index, cols[..], u, r, d);
    hide *;
    if rows[index] < n {
      ScatteringSkip(low, index, cols[..], u, r, d, index + 1);
      return 0;
    }
    ScatteringPut(low, index, cols[..], u, r, d, column, rows[index], index + 1);
    var targetColumn := rows[index];
    var targetIndex := cols[targetColumn] + used[targetColumn + 1];
    used[targetColumn + 1] := used[targetColumn + 1] + 1;
    data[targetIndex] := data[index];
    rows[targetIndex] := column;
    assert used[..] == u[targetColumn + 1 := u[targetColumn + 1] + 1];
    assert rows[..] == r[targetIndex := column] && data[..] == d[targetIndex := low.data[index]];
    added := 1;
  }

  lemma FrontOf(low: Mat, k: nat, cols: seq<int>, used: seq<int>, rows: seq<int>, data: seq<real>)
    requires Scattering(low, k, cols, used, rows, data) && k < |low.rows|
    ensures k < |rows| == |data| && k < |low.data| && rows[k] == low.rows[k] && data[k] == low.data[k]
  {
    assert rows[..|low.rows|][k] == rows[k] && data[..|low.rows|][k] == data[k];
  }
}
