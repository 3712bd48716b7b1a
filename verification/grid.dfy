/**
 * Integer matrices (numpy arrays or lists of lists in the program) and the
 * sums and counts the puzzle engine takes over them.  Every sum is defined by
 * recursion on an index bound, so that lemmas about a layer never need slices.
 */
module Grid {

  type Layer = seq<seq<int>>

  /** g is an n-by-n matrix. */
  predicate IsSquare(g: Layer, n: nat) {
    |g| == n && forall i :: 0 <= i < n ==> |g[i]| == n
  }

  /** Every row of g has at least w cells. */
  predicate AtLeastWide(g: Layer, w: nat) {
    forall i :: 0 <= i < |g| ==> w <= |g[i]|
  }

  /** Every cell holds 0 or 1. */
  predicate IsBinary(g: Layer) {
    forall i, j :: 0 <= i < |g| && 0 <= j < |g[i]| ==> g[i][j] == 0 || g[i][j] == 1
  }

  predicate IsNonNegative(g: Layer) {
    forall i, j :: 0 <= i < |g| && 0 <= j < |g[i]| ==> 0 <= g[i][j]
  }

  /** Every cell is 0. */
  predicate IsZero(g: Layer) {
    forall i, j :: 0 <= i < |g| && 0 <= j < |g[i]| ==> g[i][j] == 0
  }

  // ---------------------------------------------------------------------------
  // Sums

  /** r[0] + ... + r[k-1]. */
  function SumTo(r: seq<int>, k: nat): int
    requires k <= |r|
  {
    if k == 0 then 0 else SumTo(r, k - 1) + r[k - 1]
  }

  /** Python's `sum(row)` / numpy's `np.sum(row)`. */
  function RowSum(r: seq<int>): int {
    SumTo(r, |r|)
  }

  /** RowSum(g[0]) + ... + RowSum(g[k-1]). */
  function SumRowsTo(g: Layer, k: nat): int
    requires k <= |g|
  {
    if k == 0 then 0 else SumRowsTo(g, k - 1) + RowSum(g[k - 1])
  }

  /** The sum of every cell: `np.sum(g)` and `sum(sum(row) for row in g)`. */
  function LayerSum(g: Layer): int {
    SumRowsTo(g, |g|)
  }

  /** g[0][j] + ... + g[k-1][j]: numpy's `np.sum(g[:, j])` when k == |g|. */
  function ColSumTo(g: Layer, j: nat, k: nat): int
    requires k <= |g| && forall i :: 0 <= i < k ==> j < |g[i]|
  {
    if k == 0 then 0 else ColSumTo(g, j, k - 1) + g[k - 1][j]
  }

  function ColSum(g: Layer, j: nat): int
    requires forall i :: 0 <= i < |g| ==> j < |g[i]|
  {
    ColSumTo(g, j, |g|)
  }

  // ---------------------------------------------------------------------------
  // Zero counts

  /** The number of zeros among r[0..k). */
  function ZerosTo(r: seq<int>, k: nat): nat
    requires k <= |r|
  {
    if k == 0 then 0 else ZerosTo(r, k - 1) + (if r[k - 1] == 0 then 1 else 0)
  }

  /** Python's `row.count(0)`. */
  function RowZeros(r: seq<int>): nat {
    ZerosTo(r, |r|)
  }

  function ZeroRowsTo(g: Layer, k: nat): nat
    requires k <= |g|
  {
    if k == 0 then 0 else ZeroRowsTo(g, k - 1) + RowZeros(g[k - 1])
  }

  /** numpy's `np.sum(g == 0)`: the number of zero cells. */
  function ZeroCount(g: Layer): nat {
    ZeroRowsTo(g, |g|)
  }

  // ---------------------------------------------------------------------------
  // Masking

  /** g with every cell that keep rejects replaced by 0. */
  function Select(g: Layer, keep: (int, int) -> bool): (r: Layer)
    ensures |r| == |g|
    ensures forall i :: 0 <= i < |g| ==> |r[i]| == |g[i]|
    ensures forall i, j :: 0 <= i < |g| && 0 <= j < |g[i]| ==>
              r[i][j] == (if keep(i, j) then g[i][j] else 0)
  {
    seq(|g|, i requires 0 <= i < |g| =>
      seq(|g[i]|, j requires 0 <= j < |g[i]| => if keep(i, j) then g[i][j] else 0))
  }

  /** g with cell (i, j) set to v. */
  function SetCell(g: Layer, i: nat, j: nat, v: int): (r: Layer)
    requires i < |g| && j < |g[i]|
    ensures |r| == |g|
    ensures forall k :: 0 <= k < |g| ==> |r[k]| == |g[k]|
    ensures forall k, l :: 0 <= k < |g| && 0 <= l < |g[k]| ==>
              r[k][l] == (if k == i && l == j then v else g[k][l])
  {
    g[i := g[i][j := v]]
  }

  // ---------------------------------------------------------------------------
  // Lemmas about sums

  /** Sums of rows that agree cell by cell as a + b == e + f agree the same way. */
  lemma {:induction false} SumToLinear(a: seq<int>, b: seq<int>, e: seq<int>, f: seq<int>, k: nat)
    requires k <= |a| && k <= |b| && k <= |e| && k <= |f|
    requires forall j :: 0 <= j < k ==> a[j] + b[j] == e[j] + f[j]
    ensures SumTo(a, k) + SumTo(b, k) == SumTo(e, k) + SumTo(f, k)
  {
    if k > 0 {
      SumToLinear(a, b, e, f, k - 1);
    }
  }

  /** The layer version of SumToLinear, for four layers of one shape. */
  lemma {:induction false} SumRowsLinear(a: Layer, b: Layer, e: Layer, f: Layer, k: nat)
    requires k <= |a| && |a| == |b| == |e| == |f|
    requires forall i :: 0 <= i < |a| ==> |a[i]| == |b[i]| == |e[i]| == |f[i]|
    requires forall i, j :: 0 <= i < |a| && 0 <= j < |a[i]| ==> a[i][j] + b[i][j] == e[i][j] + f[i][j]
    ensures SumRowsTo(a, k) + SumRowsTo(b, k) == SumRowsTo(e, k) + SumRowsTo(f, k)
  {
    if k > 0 {
      SumRowsLinear(a, b, e, f, k - 1);
      var i := k - 1;
      SumToLinear(a[i], b[i], e[i], f[i], |a[i]|);
    }
  }

  lemma LayerSumLinear(a: Layer, b: Layer, e: Layer, f: Layer)
    requires |a| == |b| == |e| == |f|
    requires forall i :: 0 <= i < |a| ==> |a[i]| == |b[i]| == |e[i]| == |f[i]|
    requires forall i, j :: 0 <= i < |a| && 0 <= j < |a[i]| ==> a[i][j] + b[i][j] == e[i][j] + f[i][j]
    ensures LayerSum(a) + LayerSum(b) == LayerSum(e) + LayerSum(f)
  {
    SumRowsLinear(a, b, e, f, |a|);
  }

  /** A cellwise smaller row has a smaller sum. */
  lemma {:induction false} SumToMonotone(a: seq<int>, b: seq<int>, k: nat)
    requires k <= |a| && k <= |b|
    requires forall j :: 0 <= j < k ==> a[j] <= b[j]
    ensures SumTo(a, k) <= SumTo(b, k)
  {
    if k > 0 {
      SumToMonotone(a, b, k - 1);
    }
  }

  lemma {:induction false} SumRowsMonotone(a: Layer, b: Layer, k: nat)
    requires k <= |a| == |b|
    requires forall i :: 0 <= i < |a| ==> |a[i]| == |b[i]|
    requires forall i, j :: 0 <= i < |a| && 0 <= j < |a[i]| ==> a[i][j] <= b[i][j]
    ensures SumRowsTo(a, k) <= SumRowsTo(b, k)
  {
    if k > 0 {
      SumRowsMonotone(a, b, k - 1);
      SumToMonotone(a[k - 1], b[k - 1], |a[k - 1]|);
    }
  }

  /** A cellwise smaller layer has a smaller total. */
  lemma LayerSumMonotone(a: Layer, b: Layer)
    requires |a| == |b|
    requires forall i :: 0 <= i < |a| ==> |a[i]| == |b[i]|
    requires forall i, j :: 0 <= i < |a| && 0 <= j < |a[i]| ==> a[i][j] <= b[i][j]
    ensures LayerSum(a) <= LayerSum(b)
  {
    SumRowsMonotone(a, b, |a|);
  }

  lemma {:induction false} SumToZeroIff(r: seq<int>, k: nat)
    requires k <= |r|
    requires forall j :: 0 <= j < k ==> 0 <= r[j]
    ensures 0 <= SumTo(r, k)
    ensures SumTo(r, k) == 0 <==> forall j :: 0 <= j < k ==> r[j] == 0
  {
    if k > 0 {
      SumToZeroIff(r, k - 1);
    }
  }

  lemma {:induction false} SumRowsZeroIff(g: Layer, k: nat)
    requires k <= |g| && IsNonNegative(g)
    ensures 0 <= SumRowsTo(g, k)
    ensures SumRowsTo(g, k) == 0 <==> forall i, j :: 0 <= i < k && 0 <= j < |g[i]| ==> g[i][j] == 0
  {
    if k > 0 {
      SumRowsZeroIff(g, k - 1);
      SumToZeroIff(g[k - 1], |g[k - 1]|);
    }
  }

  /** A layer of non-negative cells sums to 0 exactly when every cell is 0. */
  lemma LayerSumZeroIff(g: Layer)
    requires IsNonNegative(g)
    ensures 0 <= LayerSum(g)
    ensures LayerSum(g) == 0 <==> IsZero(g)
  {
    SumRowsZeroIff(g, |g|);
  }

  // ---------------------------------------------------------------------------
  // Row sums against column sums

  /** ColSum(g, 0) + ... + ColSum(g, w-1), each over the first m rows. */
  function ColsTotal(g: Layer, w: nat, m: nat): int
    requires m <= |g| && forall i :: 0 <= i < m ==> w <= |g[i]|
  {
    if w == 0 then 0 else ColsTotal(g, w - 1, m) + ColSumTo(g, w - 1, m)
  }

  lemma {:induction false} ColsTotalLastRow(g: Layer, w: nat, m: nat)
    requires 0 < m <= |g| && forall i :: 0 <= i < m ==> w <= |g[i]|
    ensures ColsTotal(g, w, m) == ColsTotal(g, w, m - 1) + SumTo(g[m - 1], w)
  {
    if w > 0 {
      ColsTotalLastRow(g, w - 1, m);
    }
  }

  lemma {:induction false} ColsTotalIsSumRows(g: Layer, w: nat, m: nat)
    requires m <= |g| && forall i :: 0 <= i < m ==> |g[i]| == w
    ensures ColsTotal(g, w, m) == SumRowsTo(g, m)
  {
    if m == 0 {
      if w > 0 {
        ColsTotalZeroRows(g, w);
      }
    } else {
      ColsTotalLastRow(g, w, m);
      ColsTotalIsSumRows(g, w, m - 1);
    }
  }

  lemma {:induction false} ColsTotalZeroRows(g: Layer, w: nat)
    ensures ColsTotal(g, w, 0) == 0
  {
    if w > 0 {
      ColsTotalZeroRows(g, w - 1);
    }
  }

  /** Summing a rectangular layer by columns gives the same total as by rows. */
  lemma ColumnsSumToLayer(g: Layer, w: nat)
    requires forall i :: 0 <= i < |g| ==> |g[i]| == w
    ensures ColsTotal(g, w, |g|) == LayerSum(g)
  {
    ColsTotalIsSumRows(g, w, |g|);
  }

  // ---------------------------------------------------------------------------
  // Zero counts under a single-cell update

  lemma {:induction false} ZerosToSetCell(r: seq<int>, j: nat, v: int, k: nat)
    requires j < |r| && k <= |r|
    ensures ZerosTo(r[j := v], k) ==
            ZerosTo(r, k) + (if j < k then (if v == 0 then 1 else 0) - (if r[j] == 0 then 1 else 0) else 0)
  {
    if k > 0 {
      ZerosToSetCell(r, j, v, k - 1);
    }
  }

  lemma {:induction false} ZeroRowsSetCell(g: Layer, i: nat, j: nat, v: int, k: nat)
    requires i < |g| && j < |g[i]| && k <= |g|
    ensures ZeroRowsTo(SetCell(g, i, j, v), k) ==
            ZeroRowsTo(g, k) + (if i < k then (if v == 0 then 1 else 0) - (if g[i][j] == 0 then 1 else 0) else 0)
  {
    if k > 0 {
      ZeroRowsSetCell(g, i, j, v, k - 1);
      var r := SetCell(g, i, j, v);
      if k - 1 == i {
        assert r[i] == g[i][j := v];
        ZerosToSetCell(g[i], j, v, |g[i]|);
      } else {
        assert r[k - 1] == g[k - 1];
      }
    }
  }

  /** Writing v into one cell changes the zero count by at most one, as expected. */
  lemma ZeroCountSetCell(g: Layer, i: nat, j: nat, v: int)
    requires i < |g| && j < |g[i]|
    ensures ZeroCount(SetCell(g, i, j, v)) ==
            ZeroCount(g) + (if v == 0 then 1 else 0) - (if g[i][j] == 0 then 1 else 0)
  {
    ZeroRowsSetCell(g, i, j, v, |g|);
  }

  /** Zeros and cells: a row has no more zeros than cells. */
  lemma {:induction false} ZerosToBound(r: seq<int>, k: nat)
    requires k <= |r|
    ensures ZerosTo(r, k) <= k
  {
    if k > 0 {
      ZerosToBound(r, k - 1);
    }
  }

  lemma {:induction false} ZeroRowsBound(g: Layer, n: nat, k: nat)
    requires k <= |g| && forall i :: 0 <= i < |g| ==> |g[i]| == n
    ensures ZeroRowsTo(g, k) <= k * n
  {
    if k > 0 {
      ZeroRowsBound(g, n, k - 1);
      ZerosToBound(g[k - 1], n);
      assert ZeroRowsTo(g, k) == ZeroRowsTo(g, k - 1) + RowZeros(g[k - 1]);
      assert (k - 1) * n + n == k * n;
    }
  }

  /** On 0/1 cells, zeros and ones together make up the row prefix. */
  lemma {:induction false} ZerosPlusOnesTo(r: seq<int>, k: nat)
    requires k <= |r| && forall j :: 0 <= j < |r| ==> r[j] == 0 || r[j] == 1
    ensures ZerosTo(r, k) + SumTo(r, k) == k
  {
    if k > 0 {
      ZerosPlusOnesTo(r, k - 1);
    }
  }

  lemma {:induction false} ZeroRowsPlusSumRows(g: Layer, n: nat, k: nat)
    requires k <= |g| && IsBinary(g) && forall i :: 0 <= i < |g| ==> |g[i]| == n
    ensures ZeroRowsTo(g, k) + SumRowsTo(g, k) == k * n
  {
    if k > 0 {
      ZeroRowsPlusSumRows(g, n, k - 1);
      ZerosPlusOnesTo(g[k - 1], n);
      assert (k - 1) * n + n == k * n;
    }
  }

  /** In an n-by-n 0/1 matrix every cell is either a zero or counts one towards the sum. */
  lemma ZerosPlusSum(g: Layer, n: nat)
    requires IsSquare(g, n) && IsBinary(g)
    ensures ZeroCount(g) + LayerSum(g) == n * n
  {
    ZeroRowsPlusSumRows(g, n, n);
  }
}
