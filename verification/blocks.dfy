/**
 * Block shapes, anchors and moves.  A shape is its own rectangular bounding
 * box of 0/1 cells; a move is the triple (block, x, y) the program passes
 * around, x being the anchor row and y the anchor column.
 */
module Blocks {

  datatype Shape = Shape(cells: seq<seq<int>>) {

    /** `len(block)` */
    function Height(): nat { |cells| }

    /** `len(block[0])`, the width every row shares. */
    function Width(): nat
      requires |cells| > 0
    {
      |cells[0]|
    }

    /** A non-empty rectangle: the program reads `block[0]` and `block[i][j]` for every i, j in the box. */
    predicate WellFormed() {
      && |cells| > 0
      && |cells[0]| > 0
      && forall i :: 0 <= i < |cells| ==> |cells[i]| == |cells[0]|
    }

    /** The shape has a 1 at (i, j) of its box. */
    predicate Solid(i: int, j: int)
      requires WellFormed()
    {
      0 <= i < Height() && 0 <= j < Width() && cells[i][j] == 1
    }

    /** The shape covers at least one cell. */
    predicate HasSolidCell()
      requires WellFormed()
    {
      exists i, j :: 0 <= i < Height() && 0 <= j < Width() && Solid(i, j)
    }
  }

  /** An anchor (i, j) as returned by `possible_moves`. */
  datatype Anchor = Anchor(row: nat, col: nat)

  /** A move (block, x, y): the block's top-left box cell goes to board cell (x, y). */
  datatype Move = Move(shape: Shape, row: nat, col: nat) {
    function At(): Anchor { Anchor(row, col) }
  }

  /** Horizontal bar of three: `[[1, 1, 1]]`. */
  const Horizontal3 := Shape([[1, 1, 1]])

  /** Vertical bar of three: `[[1], [1], [1]]`. */
  const Vertical3 := Shape([[1], [1], [1]])

  /** Two-by-two square: `[[1, 1], [1, 1]]`. */
  const Square2 := Shape([[1, 1], [1, 1]])

  /** The L-shaped block of the older game: `[[1, 1, 1, 1], [1, 0, 0, 0]]`. */
  const LShape := Shape([[1, 1, 1, 1], [1, 0, 0, 0]])

  /** The block list of the game screen and of every search algorithm. */
  const Catalogue: seq<Shape> := [Horizontal3, Vertical3, Square2]

  /** The block list of the older game screen. */
  const InitialCatalogue: seq<Shape> := [LShape, Vertical3, Square2]

  /** Every block of the list is a well-formed shape covering some cell. */
  predicate CatalogueOk(cat: seq<Shape>) {
    forall s :: s in cat ==> s.WellFormed() && s.HasSolidCell()
  }

  /** Both block lists of the program meet CatalogueOk. */
  lemma CataloguesOk()
    ensures CatalogueOk(Catalogue) && CatalogueOk(InitialCatalogue)
  {
    assert Horizontal3.Solid(0, 0);
    assert Vertical3.Solid(0, 0);
    assert Square2.Solid(0, 0);
    assert LShape.Solid(0, 0);
  }
}
