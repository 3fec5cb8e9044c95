/** Leaving out entries and rows: sleqp_vec_remove_entries and sleqp_mat_remove_rows, as src/main/gauss_newton.c uses
    them. */
module RowRemoval {
  import opened LinearAlgebra
  import opened SparseVec
  import opened SparseMat
  import opened MatrixPush

  ghost predicate Ascending(s: seq<int>)
  {
    forall k, l :: 0 <= k < l < |s| ==> s[k] < s[l]
  }

  /** kept and removed are the two halves of 0..m, each in order. */
  ghost predicate Complementary(kept: seq<int>, removed: seq<int>, m: nat)
  {
    && Ascending(kept) && Ascending(removed)
    && (forall k :: 0 <= k < |kept| ==> 0 <= kept[k] < m)
    && (forall k :: 0 <= k < |removed| ==> 0 <= removed[k] < m)
    && (forall i :: 0 <= i < m ==> (i in kept <==> i !in removed))
  }

  /** The number of elements below r. */
  ghost function Below(s: seq<int>, r: int): nat
  {
    if |s| == 0 then 0 else Below(s[..|s| - 1], r) + if s[|s| - 1] < r then 1 else 0
  }

  lemma {:induction false} BelowNone(s: seq<int>, r: int)
    requires forall k :: 0 <= k < |s| ==> s[k] >= r
    ensures Below(s, r) == 0
  {
    if |s| > 0 { BelowNone(s[..|s| - 1], r); }
  }

  /** In an ascending sequence the elements below r are the first ones. */
  lemma {:induction false} BelowSplit(s: seq<int>, k: nat, r: int)
    requires Ascending(s) && k <= |s|
    requires forall q :: 0 <= q < k ==> s[q] < r
    requires forall q :: k <= q < |s| ==> s[q] >= r
    ensures Below(s, r) == k
  {
    if |s| > 0 { BelowSplit(s[..|s| - 1], if k == |s| then k - 1 else k, r); }
  }

  lemma {:induction false} BelowNext(s: seq<int>, r: int)
    requires Ascending(s)
    ensures Below(s, r + 1) == Below(s, r) + if r in s then 1 else 0
  {
    if |s| > 0 {
      var t := s[..|s| - 1];
      BelowNext(t, r);
      assert r in s <==> r in t || r == s[|s| - 1];
      if r == s[|s| - 1] { assert r !in t; }
    }
  }

  /** Below every index the two halves count up to it. */
  lemma {:induction false} Ranks(kept: seq<int>, removed: seq<int>, m: nat, r: nat)
    requires Complementary(kept, removed, m) && r <= m
    ensures Below(kept, r) + Below(removed, r) == r
  {
    if r == 0 {
      BelowNone(kept, 0);
      BelowNone(removed, 0);
    } else {
      Ranks(kept, removed, m, r - 1);
      BelowNext(kept, r - 1);
      BelowNext(removed, r - 1);
    }
  }

  lemma Sizes(kept: seq<int>, removed: seq<int>, m: nat)
    requires Complementary(kept, removed, m)
    ensures |kept| + |removed| == m
  {
    Ranks(kept, removed, m, m);
    BelowSplit(kept, |kept|, m);
    BelowSplit(removed, |removed|, m);
  }

  /** A kept element sits at the number of kept elements below it. */
  lemma RankOfKept(kept: seq<int>, removed: seq<int>, m: nat, i: nat)
    requires Complementary(kept, removed, m) && i < m && i !in removed
    ensures Below(kept, i) < |kept| && kept[Below(kept, i)] == i
  {
    assert i in kept;
    var p :| 0 <= p < |kept| && kept[p] == i;
    BelowSplit(kept, p, i);
  }

  // ----- thinning a vector

  /** The entries of v below j have gone to w, at the ranks of their indices. */
  ghost predicate Thinning(v: Vec, w: Vec, kept: seq<int>, j: int)
    requires v.Valid()
  {
    && w.Valid() && w.dim == |kept|
    && (forall p :: 0 <= p < |kept| && kept[p] < j ==> w.At(p) == v.At(kept[p]))
    && (forall p :: 0 <= p < |kept| && kept[p] >= j ==> w.At(p) == 0.0)
    && (forall q :: 0 <= q < |w.indices| ==> w.indices[q] < Below(kept, j))
  }

  /** w holds the kept entries of v. */
  ghost predicate IsThinned(v: Vec, w: Vec, kept: seq<int>)
    requires v.Valid()
  {
    w.Valid() && w.dim == |kept| && forall p :: 0 <= p < |kept| ==> w.At(p) == v.At(kept[p])
  }

  lemma ThinningStart(v: Vec, kept: seq<int>, removed: seq<int>)
    requires v.Valid() && Complementary(kept, removed, v.dim)
    ensures Thinning(v, Vec(|kept|, [], []), kept, 0)
  {
    forall p | 0 <= p < |kept| ensures Vec(|kept|, [], []).At(p) == 0.0 { AbsentAt(Vec(|kept|, [], []), p); }
  }

  /** Zeros and removed entries leave nothing behind. */
  lemma ThinningSkip(v: Vec, w: Vec, kept: seq<int>, j: int, i: int)
    requires v.Valid() && Thinning(v, w, kept, j) && j <= i && Ascending(kept)
    requires forall l :: j <= l < i && l in kept ==> v.At(l) == 0.0
    ensures Thinning(v, w, kept, i)
  {
    hide Vec.At, Vec.Valid;
    BelowMonotone(kept, j, i);
    forall p | 0 <= p < |kept| && kept[p] < i ensures w.At(p) == v.At(kept[p]) { assert kept[p] in kept; }
  }

  lemma {:induction false} BelowMonotone(s: seq<int>, j: int, i: int)
    requires j <= i
    ensures Below(s, j) <= Below(s, i)
  {
    if |s| > 0 { BelowMonotone(s[..|s| - 1], j, i); }
  }

  lemma ThinningPush(v: Vec, w: Vec, kept: seq<int>, removed: seq<int>, i: nat, p: int, value: real, w': Vec)
    requires v.Valid() && Complementary(kept, removed, v.dim) && Thinning(v, w, kept, i) && i < v.dim && i !in removed
    requires p == i - Below(removed, i) && value == v.At(i)
    requires w' == Vec(w.dim, w.indices + [p], w.data + [value])
    ensures 0 <= p < |kept| && (forall q :: 0 <= q < |w.indices| ==> w.indices[q] < p)
    ensures Thinning(v, w', kept, i + 1)
  {
    Ranks(kept, removed, v.dim, i);
    RankOfKept(kept, removed, v.dim, i);
    BelowNext(kept, i);
    var pushed := SparseVec.Push(w, p, value);
    assert pushed == w';
    assert kept[p] in kept;
    hide Vec.At, Vec.Valid, Below;
  }

  lemma ThinningEnd(v: Vec, w: Vec, kept: seq<int>, removed: seq<int>, j: int)
    requires v.Valid() && Complementary(kept, removed, v.dim) && Thinning(v, w, kept, j)
    requires forall l :: j <= l ==> v.At(l) == 0.0
    ensures IsThinned(v, w, kept)
  {
    hide Vec.At, Vec.Valid;
  }

  /** The place of an index among the removed ones, found with a moving cursor. */
  method AdvanceRemoved(removed: seq<int>, offset: nat, i: int) returns (offset': nat)
    requires Ascending(removed) && offset <= |removed| && forall q :: 0 <= q < offset ==> removed[q] < i
    ensures offset <= offset' <= |removed| && (forall q :: 0 <= q < offset' ==> removed[q] < i)
    ensures offset' == Below(removed, i)
    ensures (offset' < |removed| && removed[offset'] == i) <==> i in removed
  {
    offset' := offset;
    while offset' < |removed| && removed[offset'] < i
      invariant offset <= offset' <= |removed| && forall q :: 0 <= q < offset' ==> removed[q] < i
    {
      offset' := offset' + 1;
    }
    BelowSplit(removed, offset', i);
  }

  /** sleqp_vec_remove_entries */
  method RemoveEntries(source: Vec, removed: seq<int>, ghost kept: seq<int>) returns (target: Vec)
    requires source.Valid() && |removed| <= source.dim && Complementary(kept, removed, source.dim)
    ensures IsThinned(source, target, kept)
  {
    Sizes(kept, removed, source.dim);
    ThinningStart(source, kept, removed);
    target := Empty(source.dim - |removed|);
    hide Vec.At, Thinning, Below;
    var offset := 0;
    ghost var j := 0;
    for k := 0 to |source.indices|
      invariant 0 <= j <= source.dim && source.Cursor(k, j)
      invariant Thinning(source, target, kept, j)
      invariant offset <= |removed| && forall q :: 0 <= q < offset ==> removed[q] < j
    {
      var i, v := source.indices[k], source.data[k];
      CursorSkip(source, k, j, i);
      CursorAt(source, k, i);
      ThinningSkip(source, target, kept, j, i);
      offset := AdvanceRemoved(removed, offset, i);
      if offset < |removed| && removed[offset] == i {
        ThinningSkip(source, target, kept, i, i + 1);
      } else {
        var pushed := Vec(target.dim, target.indices + [i - offset], target.data + [v]);
        ThinningPush(source, target, kept, removed, i, i - offset, v, pushed);
        target := pushed;
      }
      j := i + 1;
    }
    CursorEnd(source, j);
    ThinningEnd(source, target, kept, removed, j);
  }

  // ----- thinning a matrix

  /** The first c columns have been thinned. */
  ghost predicate ColumnsThinned(m: Mat, source: Mat, kept: seq<int>, c: nat)
  {
    && source.Valid() && c <= source.numCols == m.numCols && m.numRows == |kept| && Building(m, c)
    && forall j :: 0 <= j < c ==> IsThinned(source.Col(j), BuiltCol(m, c, j), kept)
  }

  /** The columns before c have been thinned, and column c, the last of the d columns, below row i. */
  ghost predicate EntriesThinned(m: Mat, source: Mat, kept: seq<int>, c: nat, d: nat, i: int)
  {
    && source.Valid() && c < source.numCols == m.numCols && d == c + 1 && m.numRows == |kept| && Building(m, d)
    && (forall j :: 0 <= j < c ==> IsThinned(source.Col(j), BuiltCol(m, d, j), kept))
    && Thinning(source.Col(c), BuiltCol(m, d, c), kept, i)
  }

  lemma OpenThinned(m: Mat, source: Mat, kept: seq<int>, removed: seq<int>, c: nat, d: nat)
    requires ColumnsThinned(m, source, kept, c) && c < source.numCols && d == c + 1
    requires Complementary(kept, removed, source.numRows)
    ensures c < m.numCols && |m.cols| == m.numCols + 1
    ensures EntriesThinned(PushCol(m, c), source, kept, c, d, 0)
  {
    PushColBuilds(m, PushCol(m, c), c, d);
    ThinningStart(source.Col(c), kept, removed);
    hide Mat.Valid, Building, Thinning, IsThinned;
    var m' := PushCol(m, c);
    forall j | 0 <= j < c ensures IsThinned(source.Col(j), BuiltCol(m', d, j), kept) {
      assert IsThinned(source.Col(j), BuiltCol(m, c, j), kept);
    }
  }

  lemma SkipThinned(m: Mat, source: Mat, kept: seq<int>, c: nat, d: nat, j: int, i: int)
    requires EntriesThinned(m, source, kept, c, d, j) && j <= i && Ascending(kept)
    requires forall l :: j <= l < i && l in kept ==> source.Col(c).At(l) == 0.0
    ensures EntriesThinned(m, source, kept, c, d, i)
  {
    ThinningSkip(source.Col(c), BuiltCol(m, d, c), kept, j, i);
    hide Mat.Valid, Building, Thinning, IsThinned;
  }

  lemma PushThinned(m: Mat, source: Mat, kept: seq<int>, removed: seq<int>, c: nat, d: nat, i: nat, p: int, value: real)
    requires EntriesThinned(m, source, kept, c, d, i) && Complementary(kept, removed, source.numRows)
    requires i < source.numRows && i !in removed && p == i - Below(removed, i) && value == source.Col(c).At(i)
    ensures c < m.numCols && |m.cols| == m.numCols + 1
    ensures EntriesThinned(PushEntry(m, p, c, value), source, kept, c, d, i + 1)
  {
    var v, w, m' := source.Col(c), BuiltCol(m, d, c), PushEntry(m, p, c, value);
    ThinningPush(v, w, kept, removed, i, p, value, Vec(w.dim, w.indices + [p], w.data + [value]));
    BuiltBelow(m, c, d, p);
    PushEntryBuilds(m, m', p, c, d, value);
    hide Mat.Valid, Building, Thinning, IsThinned;
    forall j | 0 <= j < c ensures IsThinned(source.Col(j), BuiltCol(m', d, j), kept) {
      assert IsThinned(source.Col(j), BuiltCol(m, d, j), kept);
    }
  }

  lemma CloseThinned(m: Mat, source: Mat, kept: seq<int>, removed: seq<int>, c: nat, d: nat, i: int)
    requires EntriesThinned(m, source, kept, c, d, i) && Complementary(kept, removed, source.numRows)
    requires forall l :: i <= l ==> source.Col(c).At(l) == 0.0
    ensures ColumnsThinned(m, source, kept, d)
  {
    ThinningEnd(source.Col(c), BuiltCol(m, d, c), kept, removed, i);
    hide Mat.Valid, Building, Thinning, IsThinned;
  }

  lemma EntryOf(source: Mat, c: nat, index: nat)
    requires source.Valid() && c < source.numCols && c + 1 < |source.cols|
    requires source.cols[c] <= index < source.cols[c + 1]
    ensures 0 <= source.cols[c] && source.cols[c + 1] - source.cols[c] == |source.Col(c).indices|
      == |source.Col(c).data|
    ensures index < |source.rows| == |source.data| && 0 <= source.rows[index] < source.numRows
    ensures source.Col(c).indices[index - source.cols[c]] == source.rows[index]
    ensures source.Col(c).data[index - source.cols[c]] == source.data[index]
  {
    ColumnsOrdered(source, c);
  }

  /** The entries of column c before position k have been treated; offset removed rows lie below row j. */
  ghost predicate AtEntry(m: Mat, source: Mat, kept: seq<int>, removed: seq<int>, c: nat, k: int, offset: nat, j: nat)
  {
    && Complementary(kept, removed, source.numRows) && EntriesThinned(m, source, kept, c, c + 1, j)
    && c + 1 < |source.cols| && source.cols[c] <= k <= source.cols[c + 1]
    && source.Col(c).Cursor(k - source.cols[c], j)
    && offset <= |removed| && forall q :: 0 <= q < offset ==> removed[q] < j
  }

  /** The entries of one column of sleqp_mat_remove_rows. */
  method RemoveInColumn(m: Mat, source: Mat, removed: seq<int>, col: nat, ghost kept: seq<int>) returns (target: Mat)
    requires EntriesThinned(m, source, kept, col, col + 1, 0) && Complementary(kept, removed, source.numRows)
    ensures ColumnsThinned(target, source, kept, col + 1)
  {
    target := m;
    var rowOffset := 0;
    ghost var j: nat := 0;
    FirstEntry(m, source, kept, removed, col);
    hide *;
    for k := source.cols[col] to source.cols[col + 1]
      invariant AtEntry(target, source, kept, removed, col, k, rowOffset, j)
    {
      target, rowOffset, j := RemoveOne(target, source, removed, col, k, rowOffset, kept, j);
    }
    LastEntry(target, source, kept, removed, col, rowOffset, j);
  }

  lemma FirstEntry(m: Mat, source: Mat, kept: seq<int>, removed: seq<int>, c: nat)
    requires EntriesThinned(m, source, kept, c, c + 1, 0) && Complementary(kept, removed, source.numRows)
    ensures c + 1 < |source.cols| && source.cols[c] <= source.cols[c + 1]
    ensures AtEntry(m, source, kept, removed, c, source.cols[c], 0, 0)
  {
    ColumnsOrdered(source, c);
  }

  lemma LastEntry(m: Mat, source: Mat, kept: seq<int>, removed: seq<int>, c: nat, offset: nat, j: nat)
    requires c + 1 < |source.cols| && AtEntry(m, source, kept, removed, c, source.cols[c + 1], offset, j)
    ensures ColumnsThinned(m, source, kept, c + 1)
  {
    ColumnsOrdered(source, c);
    CursorEnd(source.Col(c), j);
    hide EntriesThinned, ColumnsThinned;
    CloseThinned(m, source, kept, removed, c, c + 1, j);
  }

  /** One entry: left out, or pushed at its rank. */
  method RemoveOne(m: Mat, source: Mat, removed: seq<int>, col: nat, k: nat, rowOffset: nat,
                   ghost kept: seq<int>, ghost j: nat)
    returns (target: Mat, rowOffset': nat, ghost j': nat)
    requires AtEntry(m, source, kept, removed, col, k, rowOffset, j) && col + 1 < |source.cols|
    requires k < source.cols[col + 1]
    ensures AtEntry(target, source, kept, removed, col, k + 1, rowOffset', j')
  {
    hide EntriesThinned, Complementary, AtEntry, Ascending, Below, Mat.Valid, Vec.At, Mat.Col;
    BeforeOne(m, source, kept, removed, col, k, rowOffset, j);
    var row := source.rows[k];
    rowOffset' := AdvanceRemoved(removed, rowOffset, row);
    target := m;
    if rowOffset' < |removed| && removed[rowOffset'] == row {
      NotKept(kept, removed, source.numRows, row);
      SkipThinned(target, source, kept, col, col + 1, row, row + 1);
    } else {
      PushThinned(target, source, kept, removed, col, col + 1, row, row - rowOffset', source.data[k]);
      target := PushEntry(target, row - rowOffset', col, source.data[k]);
    }
    j' := row + 1;
    AfterOne(m, target, source, kept, removed, col, k, rowOffset, rowOffset', j, j');
  }

  lemma BeforeOne(m: Mat, source: Mat, kept: seq<int>, removed: seq<int>, c: nat, k: nat, offset: nat, j: nat)
    requires AtEntry(m, source, kept, removed, c, k, offset, j) && c + 1 < |source.cols| && k < source.cols[c + 1]
    ensures Complementary(kept, removed, source.numRows) && Ascending(kept) && Ascending(removed)
    ensures source.Valid() && c < source.numCols && k < |source.rows| == |source.data|
    ensures j <= source.rows[k] < source.numRows && offset <= |removed|
    ensures forall q :: 0 <= q < offset ==> removed[q] < source.rows[k]
    ensures source.Col(c).At(source.rows[k]) == source.data[k]
    ensures EntriesThinned(m, source, kept, c, c + 1, source.rows[k])
  {
    hide Complementary, Below;
    assert Ascending(kept) by { AscendingKept(kept, removed, source.numRows); }
    EntryOf(source, c, k);
    var v, row := source.Col(c), source.rows[k];
    CursorSkip(v, k - source.cols[c], j, row);
    CursorAt(v, k - source.cols[c], row);
    hide EntriesThinned, Mat.Valid;
    AscendingKept(kept, removed, source.numRows);
    SkipThinned(m, source, kept, c, c + 1, j, row);
  }

  lemma AscendingKept(kept: seq<int>, removed: seq<int>, m: nat)
    requires Complementary(kept, removed, m)
    ensures Ascending(kept) && Ascending(removed)
  {
  }

  lemma AfterOne(m: Mat, target: Mat, source: Mat, kept: seq<int>, removed: seq<int>, c: nat, k: nat, offset: nat,
                 offset': nat, j: nat, j': nat)
    requires AtEntry(m, source, kept, removed, c, k, offset, j) && c + 1 < |source.cols| && k < source.cols[c + 1]
    requires k < |source.rows| && j' == source.rows[k] + 1 && EntriesThinned(target, source, kept, c, c + 1, j')
    requires offset' <= |removed| && forall q :: 0 <= q < offset' ==> removed[q] < source.rows[k]
    ensures AtEntry(target, source, kept, removed, c, k + 1, offset', j')
  {
    hide Complementary;
    EntryOf(source, c, k);
    CursorSkip(source.Col(c), k - source.cols[c], j, source.rows[k]);
    CursorAt(source.Col(c), k - source.cols[c], source.rows[k]);
    hide EntriesThinned, Mat.Valid, Vec.At;
  }

  lemma NotKept(kept: seq<int>, removed: seq<int>, m: nat, i: int)
    requires Complementary(kept, removed, m) && i in removed
    ensures i !in kept
  {
  }

  /** sleqp_mat_remove_rows */
  method RemoveRows(source: Mat, removed: seq<int>, ghost kept: seq<int>) returns (target: Mat)
    requires source.Valid() && |removed| <= source.numRows && Complementary(kept, removed, source.numRows)
    ensures target.Valid() && target.numRows == |kept| && target.numCols == source.numCols
    ensures forall p :: 0 <= p < |kept| ==> 0 <= kept[p] < source.numRows && target.Row(p) == source.Row(kept[p])
  {
    Sizes(kept, removed, source.numRows);
    target := Cleared(source.numRows - |removed|, source.numCols);
    BuildingStart(|kept|, source.numCols);
    hide EntriesThinned, Complementary, Mat.Valid, Building, Thinning, IsThinned, Mat.Row;
    for col := 0 to source.numCols
      invariant ColumnsThinned(target, source, kept, col)
    {
      OpenThinned(target, source, kept, removed, col, col + 1);
      target := RemoveInColumn(PushCol(target, col), source, removed, col, kept);
    }
    ThinnedRows(target, source, kept, removed);
  }

  lemma ThinnedRows(m: Mat, source: Mat, kept: seq<int>, removed: seq<int>)
    requires ColumnsThinned(m, source, kept, source.numCols) && Complementary(kept, removed, source.numRows)
    ensures m.Valid() && m.numRows == |kept| && m.numCols == source.numCols
    ensures forall p :: 0 <= p < |kept| ==> 0 <= kept[p] < source.numRows && m.Row(p) == source.Row(kept[p])
  {
    BuildingEnd(m);
    hide Mat.Valid, Building, Vec.At;
    forall p | 0 <= p < |kept| ensures m.Row(p) == source.Row(kept[p]) {
      forall j | 0 <= j < m.numCols ensures m.Row(p)[j] == source.Row(kept[p])[j] {
        assert IsThinned(source.Col(j), BuiltCol(m, source.numCols, j), kept);
      }
    }
  }
}
