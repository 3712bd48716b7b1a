/**
 * The game state and its transition: a state is the pair of n-by-n layers
 * (blocks, diamonds); a move writes 1 into the board cells under the block's
 * 1-cells (`commit_move`) and then clears every row and column that the new
 * board fills completely, in both layers (`clear_complete_lines` followed by
 * `_clear_lines`).  The same code sits in both game files.
 */
module Board {
  import opened Grid
  import opened Blocks
  import opened Moves

  /** The (board, diamonds) pair; it is also its own deduplication key (`hash_state`). */
  datatype State = State(board: Layer, diamonds: Layer) {

    /** `grid_size`, which the search classes take as `len(board)`. */
    function Size(): nat { |board| }

    /** Both layers are Size()-by-Size() and hold only 0s and 1s. */
    predicate Valid() {
      IsSquare(board, |board|) && IsSquare(diamonds, |board|) && IsBinary(board) && IsBinary(diamonds)
    }

    /** Both layers are Size()-by-Size(). */
    predicate Square() {
      IsSquare(board, |board|) && IsSquare(diamonds, |board|)
    }
  }

  /** `np.sum(diamonds)`: the number of diamonds left. */
  function DiamondCount(s: State): int {
    LayerSum(s.diamonds)
  }

  /** The win test: no diamond is left. */
  predicate IsGoal(s: State) {
    DiamondCount(s) == 0
  }

  // ---------------------------------------------------------------------------
  // Placement

  /** Board cell (r, c) lies under a 1-cell of the shape anchored at a. */
  predicate Covers(s: Shape, a: Anchor, r: int, c: int)
    requires s.WellFormed()
  {
    a.row <= r && a.col <= c && s.Solid(r - a.row, c - a.col)
  }

  /** The board after the block is written at a; legality is not checked here. */
  function Place(board: Layer, s: Shape, a: Anchor): (r: Layer)
    requires s.WellFormed() && IsSquare(board, |board|) && InRange(|board|, s, a)
    ensures IsSquare(r, |board|)
  {
    seq(|board|, i requires 0 <= i < |board| =>
      seq(|board|, j requires 0 <= j < |board| => if Covers(s, a, i, j) then 1 else board[i][j]))
  }

  /**
   * The placement loop of `commit_move` (and of `evaluate_move`'s copy): for
   * each 1-cell (i, j) of the block, board[x + i][y + j] becomes 1.  The board
   * cells under the block's 1-cells end up 1 and every other cell keeps its
   * value.
   */
  method CommitPlace(board: Layer, s: Shape, x: nat, y: nat) returns (r: Layer)
    requires s.WellFormed() && IsSquare(board, |board|) && InRange(|board|, s, Anchor(x, y))
    ensures IsSquare(r, |board|)
    ensures forall p, q :: 0 <= p < |board| && 0 <= q < |board| && Covers(s, Anchor(x, y), p, q) ==> r[p][q] == 1
    ensures forall p, q :: 0 <= p < |board| && 0 <= q < |board| && !Covers(s, Anchor(x, y), p, q) ==>
              r[p][q] == board[p][q]
  {
    var n := |board|;
    var a := Anchor(x, y);
    r := board;
    var i := 0;
    while i < s.Height()
      invariant 0 <= i <= s.Height()
      invariant IsSquare(r, n)
      invariant forall p, q :: 0 <= p < n && 0 <= q < n ==>
                  r[p][q] == (if Covers(s, a, p, q) && p < x + i then 1 else board[p][q])
    {
      var j := 0;
      while j < s.Width()
        invariant 0 <= j <= s.Width()
        invariant IsSquare(r, n)
        invariant forall p, q :: 0 <= p < n && 0 <= q < n ==>
                    r[p][q] == (if Covers(s, a, p, q) && (p < x + i || (p == x + i && q < y + j)) then 1 else board[p][q])
      {
        if s.cells[i][j] == 1 {
          r := SetCell(r, x + i, y + j, 1);
        }
        j := j + 1;
      }
      i := i + 1;
    }
  }

  /** Once a block with some 1-cell has been written at a, the same block is no longer legal at a. */
  lemma PlacedAnchorNoLongerLegal(board: Layer, s: Shape, a: Anchor)
    requires s.WellFormed() && s.HasSolidCell() && IsSquare(board, |board|) && InRange(|board|, s, a)
    ensures !Legal(Place(board, s, a), s, a)
  {
    var i, j :| 0 <= i < s.Height() && 0 <= j < s.Width() && s.Solid(i, j);
    assert Covers(s, a, a.row + i, a.col + j);
  }

  // ---------------------------------------------------------------------------
  // Line clearing

  /** Python's `all(g[i])`: every cell of row i is non-zero. */
  predicate FullRow(g: Layer, i: nat)
    requires IsSquare(g, |g|) && i < |g|
  {
    forall j :: 0 <= j < |g| ==> g[i][j] != 0
  }

  /** Python's `all(g[:, j])`: every cell of column j is non-zero. */
  predicate FullCol(g: Layer, j: nat)
    requires IsSquare(g, |g|) && j < |g|
  {
    forall i :: 0 <= i < |g| ==> g[i][j] != 0
  }

  /** `rows_to_clear` as a set. */
  function FullRows(g: Layer): set<int>
    requires IsSquare(g, |g|)
  {
    set i | 0 <= i < |g| && FullRow(g, i)
  }

  /** `cols_to_clear` as a set. */
  function FullCols(g: Layer): set<int>
    requires IsSquare(g, |g|)
  {
    set j | 0 <= j < |g| && FullCol(g, j)
  }

  /** No row and no column of g is full. */
  predicate NoFullLine(g: Layer)
    requires IsSquare(g, |g|)
  {
    (forall i :: 0 <= i < |g| ==> !FullRow(g, i)) && (forall j :: 0 <= j < |g| ==> !FullCol(g, j))
  }

  /** g with rows R and columns C set to 0. */
  function ClearLayer(g: Layer, rows: set<int>, cols: set<int>): Layer {
    Select(g, (i, j) => i !in rows && j !in cols)
  }

  /**
   * `clear_complete_lines` with `_clear_lines`: the full rows and the full
   * columns are both found on the board as it stands, then each of them is
   * zeroed in both layers.
   */
  function ClearLines(s: State): (r: State)
    requires s.Square()
    ensures r.Square() && r.Size() == s.Size()
    ensures forall i, j :: 0 <= i < s.Size() && 0 <= j < s.Size() && (FullRow(s.board, i) || FullCol(s.board, j)) ==>
              r.board[i][j] == 0 && r.diamonds[i][j] == 0
    ensures forall i, j :: 0 <= i < s.Size() && 0 <= j < s.Size() && !FullRow(s.board, i) && !FullCol(s.board, j) ==>
              r.board[i][j] == s.board[i][j] && r.diamonds[i][j] == s.diamonds[i][j]
    ensures NoFullLine(r.board)
  {
    var rows := FullRows(s.board);
    var cols := FullCols(s.board);
    var r := State(ClearLayer(s.board, rows, cols), ClearLayer(s.diamonds, rows, cols));
    NoFullLineAfterClear(s, r);
    r
  }

  lemma NoFullLineAfterClear(s: State, r: State)
    requires s.Square() && r.Square() && r.Size() == s.Size()
    requires forall i, j :: 0 <= i < s.Size() && 0 <= j < s.Size() && FullRow(s.board, i) ==> r.board[i][j] == 0
    requires forall i, j :: 0 <= i < s.Size() && 0 <= j < s.Size() && FullCol(s.board, j) ==> r.board[i][j] == 0
    requires forall i, j :: 0 <= i < s.Size() && 0 <= j < s.Size() && !FullRow(s.board, i) && !FullCol(s.board, j) ==>
               r.board[i][j] == s.board[i][j]
    ensures NoFullLine(r.board)
  {
    var n := s.Size();
    forall i | 0 <= i < n
      ensures !FullRow(r.board, i)
    {
      if FullRow(s.board, i) {
        assert r.board[i][0] == 0;
      } else {
        var j :| 0 <= j < n && s.board[i][j] == 0;
        if !FullCol(s.board, j) {
          assert r.board[i][j] == s.board[i][j];
        }
      }
    }
    forall j | 0 <= j < n
      ensures !FullCol(r.board, j)
    {
      if FullCol(s.board, j) {
        assert r.board[0][j] == 0;
      } else {
        var i :| 0 <= i < n && s.board[i][j] == 0;
        if !FullRow(s.board, i) {
          assert r.board[i][j] == s.board[i][j];
        }
      }
    }
  }

  /** The board after the move: placement, then clearing (`commit_move`, and `apply_move` of the searches). */
  function ApplyMove(s: State, m: Move): (r: State)
    requires s.Square() && m.shape.WellFormed() && InRange(s.Size(), m.shape, m.At())
    ensures r.Square() && r.Size() == s.Size()
  {
    ClearLines(State(Place(s.board, m.shape, m.At()), s.diamonds))
  }

  // ---------------------------------------------------------------------------
  // Properties of the transition

  /** A move keeps both layers square and 0/1. */
  lemma ApplyKeepsValid(s: State, m: Move)
    requires s.Valid() && m.shape.WellFormed() && InRange(s.Size(), m.shape, m.At())
    ensures ApplyMove(s, m).Valid()
  {
  }

  /** Clearing a board that has just been cleared changes nothing. */
  lemma ClearIdempotent(s: State)
    requires s.Square()
    ensures ClearLines(ClearLines(s)) == ClearLines(s)
  {
    var c := ClearLines(s);
    var cc := ClearLines(c);
    LayersEqual(cc.board, c.board);
    LayersEqual(cc.diamonds, c.diamonds);
  }

  lemma LayersEqual(a: Layer, b: Layer)
    requires |a| == |b| && forall i :: 0 <= i < |a| ==> |a[i]| == |b[i]|
    requires forall i, j :: 0 <= i < |a| && 0 <= j < |a[i]| ==> a[i][j] == b[i][j]
    ensures a == b
  {
    forall i | 0 <= i < |a|
      ensures a[i] == b[i]
    {
    }
  }

  /** The diamond count never goes up across a move. */
  lemma DiamondsNeverIncrease(s: State, m: Move)
    requires s.Valid() && m.shape.WellFormed() && InRange(s.Size(), m.shape, m.At())
    ensures 0 <= DiamondCount(ApplyMove(s, m)) <= DiamondCount(s)
  {
    var r := ApplyMove(s, m);
    LayerSumMonotone(r.diamonds, s.diamonds);
    LayerSumZeroIff(r.diamonds);
  }

  /** With 0/1 layers, the win test holds exactly when the diamond layer is all 0. */
  lemma GoalIffNoDiamonds(s: State)
    requires s.Valid()
    ensures IsGoal(s) <==> IsZero(s.diamonds)
  {
    LayerSumZeroIff(s.diamonds);
  }

  /** Once won, any move keeps the game won. */
  lemma GoalIsStable(s: State, m: Move)
    requires s.Valid() && m.shape.WellFormed() && InRange(s.Size(), m.shape, m.At())
    requires IsGoal(s)
    ensures IsGoal(ApplyMove(s, m))
  {
    DiamondsNeverIncrease(s, m);
  }

  /**
   * A move wins exactly when every diamond lies in a row or a column that
   * the placement fills.
   */
  lemma WinningMove(s: State, m: Move)
    requires s.Valid() && m.shape.WellFormed() && InRange(s.Size(), m.shape, m.At())
    ensures var p := Place(s.board, m.shape, m.At());
            IsGoal(ApplyMove(s, m)) <==>
            forall i, j :: 0 <= i < s.Size() && 0 <= j < s.Size() && s.diamonds[i][j] != 0 ==>
              FullRow(p, i) || FullCol(p, j)
  {
    var r := ApplyMove(s, m);
    GoalIffNoDiamonds(r);
  }
}
