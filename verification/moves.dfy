/**
 * Move generation of `WoodBlockAI`: the placement-legality test
 * (`can_place_block`) and the enumeration of legal anchors
 * (`possible_moves`).  Both files of the game (main.py and initial.py) hold
 * the same code.  Legality reads the block layer only: the diamond layer and
 * the shape's 0-cells never matter.
 */
module Moves {
  import opened Grid
  import opened Blocks

  /** The shape's box fits the n-by-n board with its top-left cell at a. */
  predicate InRange(n: nat, s: Shape, a: Anchor)
    requires s.WellFormed()
  {
    a.row + s.Height() <= n && a.col + s.Width() <= n
  }

  /** No 1-cell of the shape lands on a board cell that equals 1. */
  predicate Legal(board: Layer, s: Shape, a: Anchor)
    requires s.WellFormed() && IsSquare(board, |board|) && InRange(|board|, s, a)
  {
    forall i, j :: 0 <= i < s.Height() && 0 <= j < s.Width() && s.Solid(i, j) ==>
      board[a.row + i][a.col + j] != 1
  }

  /** Row-major order on anchors: earlier row, or same row and earlier column. */
  predicate Before(a: Anchor, b: Anchor) {
    a.row < b.row || (a.row == b.row && a.col < b.col)
  }

  /** The sequence is strictly increasing in row-major order (so it has no repeats). */
  predicate RowMajor(r: seq<Anchor>) {
    forall k, l :: 0 <= k < l < |r| ==> Before(r[k], r[l])
  }

  /**
   * `can_place_block(block, x, y)`: the nested loop returns False at the first
   * 1-cell of the block that lands on a board cell equal to 1, and True
   * otherwise.
   */
  method CanPlaceBlock(board: Layer, s: Shape, x: nat, y: nat) returns (ok: bool)
    requires s.WellFormed() && IsSquare(board, |board|) && InRange(|board|, s, Anchor(x, y))
    ensures ok <==> Legal(board, s, Anchor(x, y))
  {
    var i := 0;
    while i < s.Height()
      invariant 0 <= i <= s.Height()
      invariant forall i', j :: 0 <= i' < i && s.Solid(i', j) ==> board[x + i'][y + j] != 1
    {
      var j := 0;
      while j < s.Width()
        invariant 0 <= j <= s.Width()
        invariant forall i', j' :: 0 <= i' < i && s.Solid(i', j') ==> board[x + i'][y + j'] != 1
        invariant forall j' :: 0 <= j' < j && s.Solid(i, j') ==> board[x + i][y + j'] != 1
      {
        if s.cells[i][j] == 1 && board[x + i][y + j] == 1 {
          assert s.Solid(i, j);
          return false;
        }
        j := j + 1;
      }
      i := i + 1;
    }
    return true;
  }

  /** The legal anchors of row i from column j on, in increasing column order. */
  function RowAnchors(board: Layer, s: Shape, i: nat, j: nat): (r: seq<Anchor>)
    requires s.WellFormed() && IsSquare(board, |board|) && i + s.Height() <= |board|
    decreases |board| - j
    ensures forall k :: 0 <= k < |r| ==>
              r[k].row == i && j <= r[k].col && InRange(|board|, s, r[k]) && Legal(board, s, r[k])
    ensures forall c: nat :: j <= c && InRange(|board|, s, Anchor(i, c)) && Legal(board, s, Anchor(i, c)) ==>
              Anchor(i, c) in r
    ensures RowMajor(r)
  {
    if j + s.Width() > |board| then []
    else
      var rest := RowAnchors(board, s, i, j + 1);
      if Legal(board, s, Anchor(i, j)) then [Anchor(i, j)] + rest else rest
  }

  /** The legal anchors of rows i, i+1, ..., in row-major order. */
  function AnchorsFrom(board: Layer, s: Shape, i: nat): (r: seq<Anchor>)
    requires s.WellFormed() && IsSquare(board, |board|)
    decreases |board| - i
    ensures forall k :: 0 <= k < |r| ==>
              i <= r[k].row && InRange(|board|, s, r[k]) && Legal(board, s, r[k])
    ensures forall a: Anchor :: i <= a.row && InRange(|board|, s, a) && Legal(board, s, a) ==> a in r
    ensures RowMajor(r)
  {
    if i + s.Height() > |board| then []
    else
      var here := RowAnchors(board, s, i, 0);
      var rest := AnchorsFrom(board, s, i + 1);
      assert forall a: Anchor :: a in here ==> a.row == i;
      here + rest
  }

  /**
   * `possible_moves(block)`: exactly the in-range anchors at which the block
   * may be placed, each once, in row-major order.
   */
  function PossibleMoves(board: Layer, s: Shape): (r: seq<Anchor>)
    requires s.WellFormed() && IsSquare(board, |board|)
    ensures forall a: Anchor :: a in r <==> InRange(|board|, s, a) && Legal(board, s, a)
    ensures RowMajor(r)
  {
    AnchorsFrom(board, s, 0)
  }

  /** m places a block of the list, inside the board, legally. */
  predicate IsLegalMove(board: Layer, cat: seq<Shape>, m: Move)
    requires IsSquare(board, |board|)
  {
    m.shape in cat && m.shape.WellFormed() && InRange(|board|, m.shape, m.At()) && Legal(board, m.shape, m.At())
  }

  /** The moves of one block, in the order of its anchors. */
  function MovesOfShape(board: Layer, s: Shape): (r: seq<Move>)
    requires s.WellFormed() && IsSquare(board, |board|)
    ensures forall m: Move :: m in r <==> m.shape == s && InRange(|board|, s, m.At()) && Legal(board, s, m.At())
    ensures forall k, l :: 0 <= k < l < |r| ==> Before(r[k].At(), r[l].At())
  {
    var anchors := PossibleMoves(board, s);
    var r := seq(|anchors|, k requires 0 <= k < |anchors| => Move(s, anchors[k].row, anchors[k].col));
    forall m: Move | m in r
      ensures m.shape == s && InRange(|board|, s, m.At()) && Legal(board, s, m.At())
    {
      var k :| 0 <= k < |r| && r[k] == m;
      assert m.At() == anchors[k];
    }
    forall m: Move | m.shape == s && InRange(|board|, s, m.At()) && Legal(board, s, m.At())
      ensures m in r
    {
      var k :| 0 <= k < |anchors| && anchors[k] == m.At();
      assert r[k] == m;
    }
    r
  }

  /** The first position of s in cat, or |cat| when s is not listed. */
  function IndexOf(cat: seq<Shape>, s: Shape): (r: nat)
    ensures r <= |cat| && (r < |cat| <==> s in cat)
    ensures r < |cat| ==> cat[r] == s && forall i :: 0 <= i < r ==> cat[i] != s
  {
    if |cat| == 0 then 0
    else if cat[0] == s then 0
    else 1 + IndexOf(cat[1..], s)
  }

  /** No block is listed twice. */
  predicate NoRepeats(cat: seq<Shape>) {
    forall i, j :: 0 <= i < j < |cat| ==> cat[i] != cat[j]
  }

  /**
   * The moves of earlier blocks come first, and the moves of one block are
   * in row-major order of their anchors.
   */
  predicate BlockMajor(cat: seq<Shape>, r: seq<Move>) {
    forall k, l :: 0 <= k < l < |r| ==>
      || IndexOf(cat, r[k].shape) < IndexOf(cat, r[l].shape)
      || (r[k].shape == r[l].shape && Before(r[k].At(), r[l].At()))
  }

  /** The moves of the first block in row-major order, followed by block-major moves of the later blocks, are block-major. */
  lemma AppendBlockMajor(cat: seq<Shape>, here: seq<Move>, rest: seq<Move>)
    requires |cat| > 0 && NoRepeats(cat)
    requires forall k :: 0 <= k < |here| ==> here[k].shape == cat[0]
    requires forall k, l :: 0 <= k < l < |here| ==> Before(here[k].At(), here[l].At())
    requires forall k :: 0 <= k < |rest| ==> rest[k].shape in cat[1..]
    requires BlockMajor(cat[1..], rest)
    ensures BlockMajor(cat, here + rest)
  {
    forall k | 0 <= k < |rest|
      ensures 0 < IndexOf(cat, rest[k].shape) == 1 + IndexOf(cat[1..], rest[k].shape)
    {
      var i :| 0 <= i < |cat[1..]| && cat[1..][i] == rest[k].shape;
      assert cat[i + 1] == rest[k].shape;
    }
    var r := here + rest;
    forall k, l | 0 <= k < l < |r|
      ensures || IndexOf(cat, r[k].shape) < IndexOf(cat, r[l].shape)
              || (r[k].shape == r[l].shape && Before(r[k].At(), r[l].At()))
    {
      if l < |here| {
        assert r[k] == here[k] && r[l] == here[l];
      } else if k >= |here| {
        assert r[k] == rest[k - |here|] && r[l] == rest[l - |here|];
      } else {
        assert r[k] == here[k] && r[l] == rest[l - |here|];
      }
    }
  }

  /**
   * The double loop `for block in blocks: for (x, y) in possible_moves(block)`
   * of the best-move search and of every search algorithm: exactly the legal
   * moves of the listed blocks, block by block in list order, each block's
   * anchors in row-major order.
   */
  function AllMoves(board: Layer, cat: seq<Shape>): (r: seq<Move>)
    requires IsSquare(board, |board|) && CatalogueOk(cat)
    ensures forall m: Move :: m in r <==> IsLegalMove(board, cat, m)
    ensures forall k :: 0 <= k < |r| ==> IsLegalMove(board, cat, r[k])
    ensures NoRepeats(cat) ==> BlockMajor(cat, r)
  {
    if |cat| == 0 then []
    else
      var rest := AllMoves(board, cat[1..]);
      assert forall m: Move :: IsLegalMove(board, cat, m) && m.shape != cat[0] ==> IsLegalMove(board, cat[1..], m);
      var here := MovesOfShape(board, cat[0]);
      assert forall k :: 0 <= k < |here| ==> here[k] in here;
      assert forall k :: 0 <= k < |rest| ==> IsLegalMove(board, cat[1..], rest[k]);
      if NoRepeats(cat) then
        assert NoRepeats(cat[1..]) by {
          forall i, j | 0 <= i < j < |cat[1..]| ensures cat[1..][i] != cat[1..][j] {
            assert cat[1..][i] == cat[i + 1] && cat[1..][j] == cat[j + 1];
          }
        }
        AppendBlockMajor(cat, here, rest); here + rest
      else here + rest
  }

  /**
   * Legality looks only at the board cells under the shape's 1-cells: two
   * boards that agree there give the same answer, whatever lies under the
   * shape's 0-cells or anywhere else.
   */
  lemma LegalIgnoresUncoveredCells(b1: Layer, b2: Layer, s: Shape, a: Anchor)
    requires s.WellFormed() && IsSquare(b1, |b1|) && IsSquare(b2, |b1|) && InRange(|b1|, s, a)
    requires forall i, j :: s.Solid(i, j) ==> b1[a.row + i][a.col + j] == b2[a.row + i][a.col + j]
    ensures Legal(b1, s, a) <==> Legal(b2, s, a)
  {
  }

  /** A 10-by-10 board whose only occupied cell is (1, 1). */
  function OccupiedAtOneOne(): (b: Layer)
    ensures IsSquare(b, 10)
  {
    seq(10, i => seq(10, j => if i == 1 && j == 1 then 1 else 0))
  }

  /**
   * The L block at (0, 0) is legal on a board whose cell (1, 1) is occupied:
   * that cell lies under one of the block's 0-cells, which are never checked.
   */
  lemma LShapeZeroCellsNotChecked()
    ensures LShape.WellFormed()
    ensures var b := OccupiedAtOneOne();
            b[1][1] == 1 && Anchor(0, 0) in PossibleMoves(b, LShape)
  {
    var b := OccupiedAtOneOne();
    assert LShape.cells[1][1] == 0;
    forall i, j | LShape.Solid(i, j)
      ensures b[i][j] != 1
    {
      assert !(i == 1 && j == 1);
    }
    assert Legal(b, LShape, Anchor(0, 0));
  }
}
