/** The matrix of the working set: unit rows for the active variables, then the Jacobian rows of the active
    constraints; and the rows of a column-compressed matrix as lists of entries. */
module WorkingMatrices {
  import opened LinearAlgebra
  import opened SparseVec
  import opened SparseMat
  import opened Problems
  import opened WorkingSets

  function Unit(n: nat, j: int): (x: Vector)
    ensures |x| == n
  {
    seq(n, i => if i == j then 1.0 else 0.0)
  }

  ghost predicate Fits(s: Sets, jac: Mat)
  {
    s.Placed() && jac.Valid() && jac.numRows == s.NumCons() && jac.numCols == s.NumVars()
  }

  /** The row that a content entry stands for. */
  ghost function EntryRow(jac: Mat, c: int): (x: Vector)
    requires jac.Valid() && 0 <= c < jac.numCols + jac.numRows
    ensures |x| == jac.numCols
  {
    if c < jac.numCols then Unit(jac.numCols, c) else jac.Row(c - jac.numCols)
  }

  ghost function WorkingRow(s: Sets, jac: Mat, k: nat): (x: Vector)
    requires Fits(s, jac) && k < s.Size()
    ensures |x| == s.NumVars()
  {
    EntryRow(jac, s.content[k])
  }

  /** A_W */
  ghost function WorkingMatrix(s: Sets, jac: Mat): (A: Matrix)
    requires Fits(s, jac)
    ensures IsMatrix(A, s.Size(), s.NumVars())
  {
    seq(s.Size(), k requires 0 <= k < s.Size() => WorkingRow(s, jac, k))
  }

  /** The matrix depends on the index maps only. */
  lemma SameIndicesSameMatrix(s: Sets, t: Sets, jac: Mat)
    requires s.WellFormed() && t.WellFormed() && Fits(s, jac) && Fits(t, jac) && s.varIndices == t.varIndices
      && s.consIndices == t.consIndices
    ensures WorkingMatrix(s, jac) == WorkingMatrix(t, jac)
  {
    SameIndicesSameContent(s, t);
    SameContentSameMatrix(s, t, jac);
  }

  lemma SameContentSameMatrix(s: Sets, t: Sets, jac: Mat)
    requires Fits(s, jac) && Fits(t, jac) && s.content == t.content && s.numActiveVars == t.numActiveVars
    ensures WorkingMatrix(s, jac) == WorkingMatrix(t, jac)
  {
  }

  lemma SameIndicesSameContent(s: Sets, t: Sets)
    requires s.WellFormed() && t.WellFormed() && s.varIndices == t.varIndices && s.consIndices == t.consIndices
    ensures s.content == t.content && s.numActiveVars == t.numActiveVars
  {
    hide Inverse, Count, CountSet, Unique;
    InverseIsUnique(s.content, s.varStates, s.varIndices, 0, 0, s.numActiveVars);
    InverseIsUnique(t.content, t.varStates, t.varIndices, 0, 0, t.numActiveVars);
    InverseIsUnique(s.content, s.consStates, s.consIndices, s.NumVars(), s.numActiveVars, s.Size());
    InverseIsUnique(t.content, t.consStates, t.consIndices, t.NumVars(), t.numActiveVars, t.Size());
    SameContent(s.content, t.content, s.varStates, t.varStates, s.varIndices, 0, 0, s.numActiveVars);
    SameContent(s.content, t.content, s.consStates, t.consStates, s.consIndices, s.NumVars(), s.numActiveVars,
                s.Size());
  }

  lemma SameContent(a: seq<int>, b: seq<int>, p: seq<ActiveState>, q: seq<ActiveState>, indices: seq<int>, shift: nat,
                    from: nat, to: nat)
    requires |p| == |q| == |indices| && from <= to <= |a| && to <= |b|
    requires Inverse(a, p, indices, shift, from, to) && Inverse(b, q, indices, shift, from, to)
    ensures forall k :: from <= k < to ==> a[k] == b[k]
  {
    forall k | from <= k < to ensures a[k] == b[k] { assert indices[a[k] - shift] == k; }
  }

  // ----- entries of one row

  /** The positions before limit that hold an entry of row i, in order. */
  ghost function Occurrences(rows: seq<int>, i: int, limit: nat): (o: seq<nat>)
    requires limit <= |rows|
  {
    if limit == 0 then []
    else Occurrences(rows, i, limit - 1) + if rows[limit - 1] == i then [limit - 1] else []
  }

  lemma {:induction false} OccurrencesAre(rows: seq<int>, i: int, limit: nat)
    requires limit <= |rows|
    ensures var o := Occurrences(rows, i, limit);
      && (forall p :: 0 <= p < |o| ==> o[p] < limit && rows[o[p]] == i)
      && (forall p, q :: 0 <= p < q < |o| ==> o[p] < o[q])
      && (forall k: nat :: k < limit && rows[k] == i ==> k in o)
  {
    if limit > 0 {
      OccurrencesAre(rows, i, limit - 1);
      var o, p := Occurrences(rows, i, limit), Occurrences(rows, i, limit - 1);
      forall k: nat | k < limit && rows[k] == i ensures k in o {
        if k == limit - 1 { assert o[|o| - 1] == k; } else { assert k in p; }
      }
    }
  }

  /** Later entries are appended. */
  lemma {:induction false} OccurrencesGrow(rows: seq<int>, i: int, k: nat, limit: nat)
    requires k <= limit <= |rows|
    ensures Occurrences(rows, i, k) <= Occurrences(rows, i, limit)
    ensures k < limit && rows[k] == i ==> |Occurrences(rows, i, k)| < |Occurrences(rows, i, limit)|
  {
    if k < limit { OccurrencesGrow(rows, i, k, limit - 1); }
  }

  /** Position k belongs to column c. */
  predicate InColumn(m: Mat, k: int, c: int)
  {
    0 <= c < m.numCols && c + 1 < |m.cols| && m.cols[c] <= k < m.cols[c + 1]
  }

  /** index and value list the first |index| of the given entries by column and value. */
  ghost predicate Lists(m: Mat, o: seq<nat>, index: seq<int>, value: seq<real>)
  {
    && |index| == |value| <= |o|
    && forall p :: 0 <= p < |index| ==> InColumn(m, o[p], index[p]) && o[p] < |m.data| && value[p] == m.data[o[p]]
  }

  /** All entries of row i, listed by column and value, are the sparse form of row i. */
  lemma RowAsVec(m: Mat, i: nat, index: seq<int>, value: seq<real>)
    requires m.Valid() && i < m.numRows
    requires |index| == |Occurrences(m.rows, i, |m.rows|)| && Lists(m, Occurrences(m.rows, i, |m.rows|), index, value)
    ensures Vec(m.numCols, index, value).Valid() && Vec(m.numCols, index, value).Dense() == m.Row(i)
  {
    var o := Occurrences(m.rows, i, |m.rows|);
    OccurrencesAre(m.rows, i, |m.rows|);
    forall p, q | 0 <= p < q < |index| ensures index[p] < index[q] {
      ColumnsAscend(m, o[p], index[p], o[q], index[q]);
    }
    var v := Vec(m.numCols, index, value);
    assert v.Valid();
    forall j | 0 <= j < m.numCols ensures v.Dense()[j] == m.Row(i)[j] {
      RowEntry(m, i, v, j);
    }
  }

  lemma ColumnsAscend(m: Mat, k: int, c: int, l: int, d: int)
    requires m.Valid() && 0 <= k < l < |m.rows| && InColumn(m, k, c) && InColumn(m, l, d) && m.rows[k] == m.rows[l]
    ensures c < d
  {
    assert m.Ascends(c);
  }

  lemma RowEntry(m: Mat, i: nat, v: Vec, j: nat)
    requires m.Valid() && i < m.numRows && j < m.numCols && v.Valid() && v.dim == m.numCols
    requires |v.indices| == |Occurrences(m.rows, i, |m.rows|)|
    requires Lists(m, Occurrences(m.rows, i, |m.rows|), v.indices, v.data)
    ensures v.At(j) == m.At(i, j)
  {
    if p :| 0 <= p < |v.indices| && v.indices[p] == j {
      StoredAt(v, p);
      StoredEntry(m, i, v.indices, v.data, p);
    } else {
      AbsentAt(v, j);
      AbsentEntry(m, i, v.indices, v.data, j);
    }
  }

  lemma StoredEntry(m: Mat, i: nat, index: seq<int>, value: seq<real>, p: nat)
    requires m.Valid() && i < m.numRows && p < |index|
    requires Lists(m, Occurrences(m.rows, i, |m.rows|), index, value)
    ensures m.At(i, index[p]) == value[p]
  {
    OccurrencesAre(m.rows, i, |m.rows|);
    var k, j := Occurrences(m.rows, i, |m.rows|)[p], index[p];
    ColumnsOrdered(m, j);
    hide Occurrences, Mat.Valid, Vec.Valid;
    assert m.Col(j).indices[k - m.cols[j]] == m.rows[k];
    StoredAt(m.Col(j), k - m.cols[j]);
  }

  lemma AbsentEntry(m: Mat, i: nat, index: seq<int>, value: seq<real>, j: nat)
    requires m.Valid() && i < m.numRows && j < m.numCols && j !in index
    requires |index| == |Occurrences(m.rows, i, |m.rows|)|
    requires Lists(m, Occurrences(m.rows, i, |m.rows|), index, value)
    ensures m.At(i, j) == 0.0
  {
    var o := Occurrences(m.rows, i, |m.rows|);
    OccurrencesAre(m.rows, i, |m.rows|);
    ColumnsOrdered(m, j);
    var c := m.Col(j);
    assert m.Framed() && c.Valid();
    hide Occurrences, Mat.Valid, Mat.Framed, Vec.Valid;
    forall k | 0 <= k < |c.indices| ensures c.indices[k] != i {
      var l := m.cols[j] + k;
      assert c.indices[k] == m.rows[l];
      if m.rows[l] == i {
        assert l in o;
        var q :| 0 <= q < |o| && o[q] == l;
        SameColumn(m, l, j, index[q]);
        assert false;
      }
    }
    AbsentAt(c, i);
  }

  lemma SameColumn(m: Mat, k: int, c: int, d: int)
    requires m.Framed() && InColumn(m, k, c) && InColumn(m, k, d)
    ensures c == d
  {
  }
}
