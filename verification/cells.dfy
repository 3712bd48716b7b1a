/**
 * The cells of a rows-by-cols box that pass a test, listed in the order of
 * the nested `for i in range(rows): for j in range(cols)` loops both A*
 * toys use to generate their successors.
 */
module Cells {
  import opened Blocks
  import opened Moves

  /** The cells (i, 0), ..., (i, j-1) that pass the test, left to right. */
  function RowCellsTo(i: nat, j: nat, p: (nat, nat) -> bool): (r: seq<Anchor>)
    ensures |r| <= j
    ensures forall a :: a in r <==> a.row == i && a.col < j && p(a.row, a.col)
    ensures RowMajor(r)
  {
    if j == 0 then []
    else
      var rest := RowCellsTo(i, j - 1, p);
      if p(i, j - 1) then rest + [Anchor(i, j - 1)] else rest
  }

  /** The cells of rows 0, ..., k-1 of the box that pass the test, in row-major order. */
  function RowsTo(k: nat, cols: nat, p: (nat, nat) -> bool): (r: seq<Anchor>)
    ensures forall a :: a in r <==> a.row < k && a.col < cols && p(a.row, a.col)
    ensures RowMajor(r)
  {
    if k == 0 then []
    else
      var front := RowsTo(k - 1, cols, p);
      var last := RowCellsTo(k - 1, cols, p);
      JoinRowMajor(front, last, k - 1);
      front + last
  }

  /** Every passing cell of the box, in row-major order. */
  function CellsWhere(rows: nat, cols: nat, p: (nat, nat) -> bool): (r: seq<Anchor>)
    ensures forall a :: a in r <==> a.row < rows && a.col < cols && p(a.row, a.col)
    ensures RowMajor(r)
  {
    RowsTo(rows, cols, p)
  }

  /** Widening the row prefix by one cell adds one cell when it passes the test. */
  lemma RowCellsCount(i: nat, j: nat, p: (nat, nat) -> bool)
    ensures |RowCellsTo(i, j + 1, p)| == |RowCellsTo(i, j, p)| + (if p(i, j) then 1 else 0)
  {
  }

  /** Adding a row adds the count of its passing cells. */
  lemma RowsCount(k: nat, cols: nat, p: (nat, nat) -> bool)
    ensures |RowsTo(k + 1, cols, p)| == |RowsTo(k, cols, p)| + |RowCellsTo(k, cols, p)|
  {
  }

  /** Cells of earlier rows followed by cells of row i stay in row-major order. */
  lemma JoinRowMajor(front: seq<Anchor>, last: seq<Anchor>, i: nat)
    requires RowMajor(front) && RowMajor(last)
    requires forall a :: a in front ==> a.row < i
    requires forall a :: a in last ==> a.row == i
    ensures RowMajor(front + last)
  {
    var r := front + last;
    forall k, l | 0 <= k < l < |r|
      ensures Before(r[k], r[l])
    {
      if l < |front| {
        assert r[k] == front[k] && r[l] == front[l];
      } else if k >= |front| {
        assert r[k] == last[k - |front|] && r[l] == last[l - |front|];
      } else {
        assert r[k] in front && r[l] in last;
      }
    }
  }

  /** A row-major list holds no cell twice. */
  lemma RowMajorDistinct(r: seq<Anchor>)
    requires RowMajor(r)
    ensures forall k, l :: 0 <= k < |r| && 0 <= l < |r| && k != l ==> r[k] != r[l]
  {
    forall k, l | 0 <= k < |r| && 0 <= l < |r| && k != l
      ensures r[k] != r[l]
    {
      if k < l { assert Before(r[k], r[l]); } else { assert Before(r[l], r[k]); }
    }
  }

  /** The box has at most rows * cols passing cells. */
  lemma {:induction false} CellsBound(k: nat, cols: nat, p: (nat, nat) -> bool)
    ensures |RowsTo(k, cols, p)| <= k * cols
  {
    if k > 0 {
      CellsBound(k - 1, cols, p);
      assert |RowsTo(k, cols, p)| == |RowsTo(k - 1, cols, p)| + |RowCellsTo(k - 1, cols, p)|;
      assert (k - 1) * cols + cols == k * cols;
    }
  }
}
