/**
 * The one-step player of `WoodBlockAI` (`evaluate_move`, `best_move`) and the
 * end-of-game test of the game screen (`check_game_over`).  The scoring
 * function works on copies in the program; here every state is a value, so
 * evaluating a move cannot change the game.
 */
module Game {
  import opened Wrappers
  import opened Grid
  import opened Blocks
  import opened Moves
  import opened Board

  // ---------------------------------------------------------------------------
  // Scoring

  /** Sum over the rows i < k that p fills of the diamonds in row i. */
  function RowPartTo(p: Layer, d: Layer, k: nat): int
    requires IsSquare(p, |p|) && IsSquare(d, |p|) && k <= |p|
  {
    if k == 0 then 0 else RowPartTo(p, d, k - 1) + (if FullRow(p, k - 1) then RowSum(d[k - 1]) else 0)
  }

  /** Sum over the columns j < k that p fills of the diamonds in column j. */
  function ColPartTo(p: Layer, d: Layer, k: nat): int
    requires IsSquare(p, |p|) && IsSquare(d, |p|) && k <= |p|
  {
    if k == 0 then 0 else ColPartTo(p, d, k - 1) + (if FullCol(p, k - 1) then ColSum(d, k - 1) else 0)
  }

  /**
   * `diamonds_destroyed`: the diamonds of every row that p fills plus the
   * diamonds of every column that p fills, both read from d.
   */
  function Destroyed(p: Layer, d: Layer): int
    requires IsSquare(p, |p|) && IsSquare(d, |p|)
  {
    RowPartTo(p, d, |p|) + ColPartTo(p, d, |p|)
  }

  /** d restricted to the rows in R. */
  function InRows(d: Layer, rows: set<int>): Layer {
    Select(d, (i, j) => i in rows)
  }

  /** d restricted to the columns in C. */
  function InCols(d: Layer, cols: set<int>): Layer {
    Select(d, (i, j) => j in cols)
  }

  /** d restricted to the cells in a row of R or a column of C. */
  function InEither(d: Layer, rows: set<int>, cols: set<int>): Layer {
    Select(d, (i, j) => i in rows || j in cols)
  }

  /** d restricted to the cells in a row of R and a column of C. */
  function InBoth(d: Layer, rows: set<int>, cols: set<int>): Layer {
    Select(d, (i, j) => i in rows && j in cols)
  }

  /** The diamonds lying where a full row of p crosses a full column of p. */
  function CrossingDiamonds(p: Layer, d: Layer): int
    requires IsSquare(p, |p|)
  {
    LayerSum(InBoth(d, FullRows(p), FullCols(p)))
  }

  /**
   * `evaluate_move(block, x, y)`: the destroyed-diamond count of the board
   * with the block written in (before any clearing), minus the number of
   * zero cells of that board.  On a valid state that is the number of
   * diamonds the move removes, plus the diamonds at crossings of a full row
   * and a full column a second time, minus the empty cells left around the
   * placed block.
   */
  function Evaluate(s: State, m: Move): (r: int)
    requires s.Square() && m.shape.WellFormed() && InRange(s.Size(), m.shape, m.At())
    ensures var p := Place(s.board, m.shape, m.At());
            s.Valid() ==> r == (DiamondCount(s) - DiamondCount(ApplyMove(s, m))) + CrossingDiamonds(p, s.diamonds) - ZeroCount(p)
  {
    var p := Place(s.board, m.shape, m.At());
    var score := Destroyed(p, s.diamonds) - ZeroCount(p);
    if s.Valid() then DestroyedCountsCrossingsTwice(s, m); score else score
  }

  /**
   * The destroyed-diamond part of the score is the number of diamonds the
   * move really removes plus the diamonds at crossings of a full row and a
   * full column, which it counts a second time.
   */
  lemma DestroyedCountsCrossingsTwice(s: State, m: Move)
    requires s.Valid() && m.shape.WellFormed() && InRange(s.Size(), m.shape, m.At())
    ensures var p := Place(s.board, m.shape, m.At());
            Destroyed(p, s.diamonds) ==
            (DiamondCount(s) - DiamondCount(ApplyMove(s, m))) + CrossingDiamonds(p, s.diamonds)
  {
    var p := Place(s.board, m.shape, m.At());
    var d := s.diamonds;
    var rows := FullRows(p);
    var cols := FullCols(p);
    assert ApplyMove(s, m).diamonds == ClearLayer(d, rows, cols);
    DestroyedIsMaskedSums(p, d);
    MaskedSumsSplit(d, rows, cols);
    ClearedPlusEither(d, rows, cols);
  }

  /** The two parts of Destroyed are the totals of d masked to the full rows and to the full columns. */
  lemma DestroyedIsMaskedSums(p: Layer, d: Layer)
    requires IsSquare(p, |p|) && IsSquare(d, |p|)
    ensures Destroyed(p, d) == LayerSum(InRows(d, FullRows(p))) + LayerSum(InCols(d, FullCols(p)))
  {
    RowPartIsMasked(p, d, |p|);
    ColPartIsMasked(p, d, |p|);
    ColumnsSumToLayer(InCols(d, FullCols(p)), |p|);
  }

  /** Masking to rows plus masking to columns counts the crossings twice. */
  lemma MaskedSumsSplit(d: Layer, rows: set<int>, cols: set<int>)
    ensures LayerSum(InRows(d, rows)) + LayerSum(InCols(d, cols)) ==
            LayerSum(InEither(d, rows, cols)) + LayerSum(InBoth(d, rows, cols))
  {
    LayerSumLinear(InRows(d, rows), InCols(d, cols), InEither(d, rows, cols), InBoth(d, rows, cols));
  }

  /** Clearing removes exactly the cells in a cleared row or column. */
  lemma ClearedPlusEither(d: Layer, rows: set<int>, cols: set<int>)
    ensures LayerSum(d) == LayerSum(ClearLayer(d, rows, cols)) + LayerSum(InEither(d, rows, cols))
  {
    var none := Select(d, (i, j) => false);
    LayerSumZeroIff(none);
    LayerSumLinear(d, none, ClearLayer(d, rows, cols), InEither(d, rows, cols));
  }

  lemma {:induction false} RowPartIsMasked(p: Layer, d: Layer, k: nat)
    requires IsSquare(p, |p|) && IsSquare(d, |p|) && k <= |p|
    ensures RowPartTo(p, d, k) == SumRowsTo(InRows(d, FullRows(p)), k)
  {
    var rows := FullRows(p);
    var sel := InRows(d, rows);
    if k > 0 {
      RowPartIsMasked(p, d, k - 1);
      var i := k - 1;
      if FullRow(p, i) {
        assert i in rows;
        RowsEqual(sel[i], d[i]);
      } else {
        assert i !in rows;
        SumToZeroIff(sel[i], |sel[i]|);
      }
    }
  }

  lemma RowsEqual(a: seq<int>, b: seq<int>)
    requires |a| == |b| && forall j :: 0 <= j < |a| ==> a[j] == b[j]
    ensures a == b
  {
  }

  lemma {:induction false} ColSumMaskedAll(g: Layer, cols: set<int>, j: nat, m: nat)
    requires m <= |g| && forall i :: 0 <= i < m ==> j < |g[i]|
    requires j in cols
    ensures ColSumTo(InCols(g, cols), j, m) == ColSumTo(g, j, m)
  {
    if m > 0 {
      ColSumMaskedAll(g, cols, j, m - 1);
    }
  }

  lemma {:induction false} ColSumMaskedNone(g: Layer, cols: set<int>, j: nat, m: nat)
    requires m <= |g| && forall i :: 0 <= i < m ==> j < |g[i]|
    requires j !in cols
    ensures ColSumTo(InCols(g, cols), j, m) == 0
  {
    if m > 0 {
      ColSumMaskedNone(g, cols, j, m - 1);
    }
  }

  lemma {:induction false} ColPartIsMasked(p: Layer, d: Layer, k: nat)
    requires IsSquare(p, |p|) && IsSquare(d, |p|) && k <= |p|
    ensures ColPartTo(p, d, k) == ColsTotal(InCols(d, FullCols(p)), k, |p|)
  {
    var cols := FullCols(p);
    if k > 0 {
      ColPartIsMasked(p, d, k - 1);
      var j := k - 1;
      if FullCol(p, j) {
        assert j in cols;
        ColSumMaskedAll(d, cols, j, |d|);
      } else {
        assert j !in cols;
        ColSumMaskedNone(d, cols, j, |d|);
      }
    }
  }

  // ---------------------------------------------------------------------------
  // Best move

  /**
   * The arg-max loop of `best_move`: starting from minus infinity (None
   * here), an entry replaces the best so far only when it is strictly
   * greater, so the first maximal entry wins.
   */
  method FirstMaxIndex(scores: seq<int>) returns (r: Option<nat>)
    ensures r.None? <==> |scores| == 0
    ensures r.Some? ==> r.value < |scores|
    ensures r.Some? ==> forall k :: 0 <= k < |scores| ==> scores[k] <= scores[r.value]
    ensures r.Some? ==> forall k :: 0 <= k < r.value ==> scores[k] < scores[r.value]
  {
    r := None;
    var k := 0;
    while k < |scores|
      invariant 0 <= k <= |scores|
      invariant r.None? <==> k == 0
      invariant r.Some? ==> r.value < k
      invariant r.Some? ==> forall l :: 0 <= l < k ==> scores[l] <= scores[r.value]
      invariant r.Some? ==> forall l :: 0 <= l < r.value ==> scores[l] < scores[r.value]
    {
      if r.None? || scores[k] > scores[r.value] {
        r := Some(k);
      }
      k := k + 1;
    }
  }

  /**
   * `best_move(blocks)`: None exactly when no block of the list has a legal
   * anchor; otherwise a legal move whose score no legal move beats, and the
   * first such move in block-then-row-major order.
   */
  method BestMove(s: State, cat: seq<Shape>) returns (r: Option<Move>)
    requires s.Square() && CatalogueOk(cat)
    ensures r.None? <==> forall m: Move :: !IsLegalMove(s.board, cat, m)
    ensures r.Some? ==> IsLegalMove(s.board, cat, r.value)
    ensures r.Some? ==> forall m: Move :: IsLegalMove(s.board, cat, m) ==> Evaluate(s, m) <= Evaluate(s, r.value)
    ensures r.Some? ==> var ms := AllMoves(s.board, cat);
                        exists k :: 0 <= k < |ms| && ms[k] == r.value &&
                          forall l :: 0 <= l < k ==> Evaluate(s, ms[l]) < Evaluate(s, r.value)
  {
    var ms := AllMoves(s.board, cat);
    var scores := ScoresOf(s, ms);
    var best := FirstMaxIndex(scores);
    if best.None? {
      r := None;
      NoMoveWhenNoneListed(s, cat);
    } else {
      var k := best.value;
      ListedMaxIsMax(s, cat, ms, scores, k);
      EarlierScoreLess(s, ms, scores, k);
      r := Some(ms[k]);
      assert 0 <= k < |ms| && ms[k] == r.value;
    }
  }

  /** A listed move whose score is at least every listed score beats every legal move's score. */
  lemma ListedMaxIsMax(s: State, cat: seq<Shape>, ms: seq<Move>, scores: seq<int>, k: nat)
    requires s.Square() && CatalogueOk(cat) && ms == AllMoves(s.board, cat)
    requires |scores| == |ms| && forall l :: 0 <= l < |ms| ==> scores[l] == Evaluate(s, ms[l])
    requires k < |ms| && forall l :: 0 <= l < |ms| ==> scores[l] <= scores[k]
    ensures forall m: Move :: IsLegalMove(s.board, cat, m) ==> Evaluate(s, m) <= Evaluate(s, ms[k])
  {
    forall m: Move | IsLegalMove(s.board, cat, m)
      ensures Evaluate(s, m) <= Evaluate(s, ms[k])
    {
      var l :| 0 <= l < |ms| && ms[l] == m;
      assert scores[l] <= scores[k];
    }
  }

  /** Scores strictly below entry k before it mean moves scoring strictly less before it. */
  lemma EarlierScoreLess(s: State, ms: seq<Move>, scores: seq<int>, k: nat)
    requires s.Square()
    requires forall l :: 0 <= l < |ms| ==> ms[l].shape.WellFormed() && InRange(s.Size(), ms[l].shape, ms[l].At())
    requires |scores| == |ms| && forall l :: 0 <= l < |ms| ==> scores[l] == Evaluate(s, ms[l])
    requires k < |ms| && forall l :: 0 <= l < k ==> scores[l] < scores[k]
    ensures forall l :: 0 <= l < k ==> Evaluate(s, ms[l]) < Evaluate(s, ms[k])
  {
    forall l | 0 <= l < k
      ensures Evaluate(s, ms[l]) < Evaluate(s, ms[k])
    {
      assert scores[l] < scores[k];
    }
  }

  /** The score of each listed move. */
  function ScoresOf(s: State, ms: seq<Move>): (r: seq<int>)
    requires s.Square()
    requires forall k :: 0 <= k < |ms| ==> ms[k].shape.WellFormed() && InRange(s.Size(), ms[k].shape, ms[k].At())
    ensures |r| == |ms| && forall k :: 0 <= k < |ms| ==> r[k] == Evaluate(s, ms[k])
  {
    seq(|ms|, k requires 0 <= k < |ms| => Evaluate(s, ms[k]))
  }

  /** With nothing listed there is no legal move: the list holds every legal move. */
  lemma NoMoveWhenNoneListed(s: State, cat: seq<Shape>)
    requires s.Square() && CatalogueOk(cat) && |AllMoves(s.board, cat)| == 0
    ensures forall m: Move :: !IsLegalMove(s.board, cat, m)
  {
  }

  // ---------------------------------------------------------------------------
  // End of game

  datatype Status = Won | Lost | Ongoing

  /**
   * `check_game_over`: won when no diamond is left (checked first), lost when
   * diamonds remain and no block of the list has a possible move.
   */
  function CheckGameOver(s: State, cat: seq<Shape>): (r: Status)
    requires s.Square() && CatalogueOk(cat)
    ensures r == Won <==> DiamondCount(s) == 0
    ensures r == Lost <==> DiamondCount(s) != 0 && forall m: Move :: !IsLegalMove(s.board, cat, m)
  {
    if DiamondCount(s) == 0 then Won
    else if |AllMoves(s.board, cat)| == 0 then Lost
    else
      assert AllMoves(s.board, cat)[0] in AllMoves(s.board, cat);
      Ongoing
  }

  /** A board with every cell occupied and some diamond left is a lost game. */
  lemma FullBoardIsLost(s: State, cat: seq<Shape>)
    requires s.Square() && CatalogueOk(cat)
    requires forall i, j :: 0 <= i < s.Size() && 0 <= j < s.Size() ==> s.board[i][j] == 1
    requires DiamondCount(s) != 0
    ensures CheckGameOver(s, cat) == Lost
  {
    forall m: Move
      ensures !IsLegalMove(s.board, cat, m)
    {
      var b := m.shape;
      if b in cat && InRange(s.Size(), b, m.At()) {
        var i, j :| 0 <= i < b.Height() && 0 <= j < b.Width() && b.Solid(i, j);
        assert s.board[m.row + i][m.col + j] == 1;
      }
    }
  }
}
