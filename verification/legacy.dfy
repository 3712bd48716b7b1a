/**
 * The searches of informed.py: a one-step greedy player that scores each
 * legal move by the diamonds it removes minus the occupied cells it leaves,
 * and A* and weighted A* planners.  The planners never point the move
 * generator at the board being expanded: every expansion lists the moves
 * that are legal on the start board.  The heap entries carry no counter, so
 * ties on (f, g) fall to the state and then to the path.
 */
module Legacy {
  import opened Wrappers
  import opened Grid
  import opened Blocks
  import opened Moves
  import opened Board
  import opened Plans
  import opened Space
  import opened Search
  import opened Invariant
  import opened Engine
  import opened Game
  import opened Blind
  import opened Informed

  // ---------------------------------------------------------------------------
  // One-step greedy player

  /** The number of cells of the 5-by-5 board the score assumes. */
  const AssumedCells := 25

  /**
   * `GreedySearch.evaluate_move`: diamonds removed by the move minus the
   * cells left occupied afterwards, counted as 25 minus the empty cells.
   * The move removes none or some of the diamonds and leaves between none
   * and all n * n cells empty, so the score is never below -25 and, for a
   * move that fits, never above the diamonds present plus n * n - 25: on a
   * 5-by-5 board, never above the diamonds present.
   */
  function GreedyScore(s: State, m: Move): (r: int)
    requires s.Square()
    ensures s.Valid() ==> -AssumedCells <= r
    ensures s.Valid() && Fits(s.Size(), m) ==> r <= DiamondCount(s) + s.Size() * s.Size() - AssumedCells
  {
    var t := Step(s, m);
    StepCounts(s, m);
    (DiamondCount(s) - DiamondCount(t)) - (AssumedCells - ZeroCount(t.board))
  }

  /**
   * A move never adds diamonds; one that fits leaves a count that is not
   * negative and at most n * n empty cells.
   */
  lemma StepCounts(s: State, m: Move)
    requires s.Square()
    ensures s.Valid() ==> DiamondCount(Step(s, m)) <= DiamondCount(s)
    ensures s.Valid() && Fits(s.Size(), m) ==> 0 <= DiamondCount(Step(s, m))
    ensures s.Valid() && Fits(s.Size(), m) ==> ZeroCount(Step(s, m).board) <= s.Size() * s.Size()
  {
    if s.Valid() && Fits(s.Size(), m) {
      var t := Step(s, m);
      DiamondsNeverIncrease(s, m);
      ApplyKeepsValid(s, m);
      ZeroRowsBound(t.board, s.Size(), s.Size());
    }
  }

  /**
   * On a 5-by-5 board, 25 minus the empty cells is the number of occupied
   * cells: the score is the diamonds the move removes minus the cells that
   * stay filled once full lines are cleared.
   */
  lemma GreedyScoreCountsOccupied(s: State, m: Move)
    requires s.Valid() && s.Size() == 5
    ensures var t := Step(s, m);
            GreedyScore(s, m) == (DiamondCount(s) - DiamondCount(t)) - LayerSum(t.board)
  {
    var t := Step(s, m);
    if Fits(s.Size(), m) {
      ApplyKeepsValid(s, m);
    }
    ZerosPlusSum(t.board, 5);
  }

  /**
   * The arg-max loop of `GreedySearch.get_best_move` for any score: None
   * exactly when no listed block has a legal anchor on the board; otherwise
   * a legal move with the highest score, the first such in
   * block-then-row-major order, as the strict `>` against a best score
   * starting at minus infinity gives.
   */
  method BestByScore(board: Layer, cat: seq<Shape>, score: Move -> int) returns (r: Option<Move>)
    requires IsSquare(board, |board|) && CatalogueOk(cat)
    ensures r.None? <==> forall m: Move :: !IsLegalMove(board, cat, m)
    ensures r.Some? ==> IsLegalMove(board, cat, r.value)
    ensures r.Some? ==> forall m: Move :: IsLegalMove(board, cat, m) ==> score(m) <= score(r.value)
    ensures r.Some? ==> var ms := AllMoves(board, cat);
                        exists k :: 0 <= k < |ms| && ms[k] == r.value &&
                          forall l :: 0 <= l < k ==> score(ms[l]) < score(r.value)
  {
    var ms := AllMoves(board, cat);
    var scores := seq(|ms|, k requires 0 <= k < |ms| => score(ms[k]));
    var best := FirstMaxIndex(scores);
    if best.None? {
      r := None;
      assert forall m: Move :: IsLegalMove(board, cat, m) ==> m in ms;
    } else {
      var k := best.value;
      r := Some(ms[k]);
      ListedMaxBeatsLegal(board, cat, score, ms, scores, k);
      assert 0 <= k < |ms| && ms[k] == r.value &&
             forall l :: 0 <= l < k ==> score(ms[l]) < score(r.value);
    }
  }

  /** A listed move whose score is at least every listed score is at least every legal move's score. */
  lemma ListedMaxBeatsLegal(board: Layer, cat: seq<Shape>, score: Move -> int, ms: seq<Move>, scores: seq<int>, k: nat)
    requires IsSquare(board, |board|) && CatalogueOk(cat) && ms == AllMoves(board, cat)
    requires |scores| == |ms| && forall l :: 0 <= l < |ms| ==> scores[l] == score(ms[l])
    requires k < |ms| && forall l :: 0 <= l < |ms| ==> scores[l] <= scores[k]
    ensures forall m: Move :: IsLegalMove(board, cat, m) ==> score(m) <= score(ms[k])
  {
    forall m: Move | IsLegalMove(board, cat, m)
      ensures score(m) <= score(ms[k])
    {
      var l :| 0 <= l < |ms| && ms[l] == m;
      assert scores[l] <= scores[k];
    }
  }

  /** `GreedySearch.get_best_move`: the first legal move on the current board with the highest greedy score. */
  method OneStepGreedy(s: State, cat: seq<Shape>) returns (r: Option<Move>)
    requires s.Square() && CatalogueOk(cat)
    ensures r.None? <==> forall m: Move :: !IsLegalMove(s.board, cat, m)
    ensures r.Some? ==> IsLegalMove(s.board, cat, r.value)
    ensures r.Some? ==> forall m: Move :: IsLegalMove(s.board, cat, m) ==> GreedyScore(s, m) <= GreedyScore(s, r.value)
    ensures r.Some? ==> var ms := AllMoves(s.board, cat);
                        exists k :: 0 <= k < |ms| && ms[k] == r.value &&
                          forall l :: 0 <= l < k ==> GreedyScore(s, ms[l]) < GreedyScore(s, r.value)
  {
    r := BestByScore(s.board, cat, m => GreedyScore(s, m));
  }

  // ---------------------------------------------------------------------------
  // A* and weighted A* over the start board's moves

  /**
   * `WeightedAStarSearch.get_best_move` as written: f = g + w * h, moves
   * generated from the start board at every expansion.  A found move starts
   * a plan that removes every diamond in the stale move space; the plan's
   * later moves need not be legal on the boards they are played on.
   */
  method WeightedAStar(init: State, w: real, fuel: nat) returns (r: Outcome, plan: seq<Move>, trace: seq<Entry>)
    requires init.Square()
    ensures r.Found? ==> |plan| > 0 && plan[0] == r.move && Solves(StaleSetting(init), init, plan)
    ensures r.NoMove? ==> IsGoal(init) || Unsolvable(StaleSetting(init), init)
    ensures IsGoal(init) && fuel > 0 ==> r == NoMove
    ensures r.OutOfFuel? ==> |trace| == fuel
    ensures !IsGoal(init) && |trace| < fuel ==> (r.Found? <==> !Unsolvable(StaleSetting(init), init))
    ensures |trace| <= fuel && NoGoal(trace) && DistinctStates(trace)
    ensures forall k :: 0 <= k < |trace| ==> trace[k].prio == WeightedF(w, |trace[k].path|, trace[k].state)
  {
    r, plan, trace := Explore(Step, Expand, Search.WeightedAStar(w), StaleSetting(init), init, fuel);
    EntriesReach(Step, Expand, Search.WeightedAStar(w), StaleSetting(init), init, trace);
  }

  /** `AStarSearch.get_best_move` as written: weighted A* with weight 1, since its heap tuples have the same shape. */
  method AStar(init: State, fuel: nat) returns (r: Outcome, plan: seq<Move>, trace: seq<Entry>)
    requires init.Square()
    ensures r.Found? ==> |plan| > 0 && plan[0] == r.move && Solves(StaleSetting(init), init, plan)
    ensures r.NoMove? ==> IsGoal(init) || Unsolvable(StaleSetting(init), init)
    ensures IsGoal(init) && fuel > 0 ==> r == NoMove
    ensures r.OutOfFuel? ==> |trace| == fuel
    ensures !IsGoal(init) && |trace| < fuel ==> (r.Found? <==> !Unsolvable(StaleSetting(init), init))
    ensures |trace| <= fuel && NoGoal(trace) && DistinctStates(trace)
    ensures forall k :: 0 <= k < |trace| ==> trace[k].prio == |trace[k].path| as real + H(trace[k].state)
  {
    r, plan, trace := WeightedAStar(init, 1.0, fuel);
  }

  /**
   * Weighted A* with the heap of informed.py but moves generated from the
   * board being expanded: a found move starts a plan of legal moves that
   * removes every diamond.
   */
  method WeightedAStarLive(init: State, w: real, fuel: nat) returns (r: Outcome, plan: seq<Move>, trace: seq<Entry>)
    requires init.Square()
    ensures r.Found? ==> |plan| > 0 && plan[0] == r.move && Solves(LiveSetting(init), init, plan)
    ensures r.Found? ==> PlaysLegally(Catalogue, init, plan)
    ensures r.NoMove? ==> IsGoal(init) || Unsolvable(LiveSetting(init), init)
    ensures IsGoal(init) && fuel > 0 ==> r == NoMove
    ensures r.OutOfFuel? ==> |trace| == fuel
    ensures !IsGoal(init) && |trace| < fuel ==> (r.Found? <==> !Unsolvable(LiveSetting(init), init))
    ensures |trace| <= fuel && NoGoal(trace) && DistinctStates(trace)
    ensures forall k :: 0 <= k < |trace| ==> trace[k].prio == WeightedF(w, |trace[k].path|, trace[k].state)
  {
    r, plan, trace := Explore(Step, Expand, Search.WeightedAStar(w), LiveSetting(init), init, fuel);
    if r.Found? {
      LivePlansAreLegal(init, plan);
    }
    EntriesReach(Step, Expand, Search.WeightedAStar(w), LiveSetting(init), init, trace);
  }

  /** A* with the heap of informed.py and moves generated from the board being expanded. */
  method AStarLive(init: State, fuel: nat) returns (r: Outcome, plan: seq<Move>, trace: seq<Entry>)
    requires init.Square()
    ensures r.Found? ==> |plan| > 0 && plan[0] == r.move && Solves(LiveSetting(init), init, plan)
    ensures r.Found? ==> PlaysLegally(Catalogue, init, plan)
    ensures r.NoMove? ==> IsGoal(init) || Unsolvable(LiveSetting(init), init)
    ensures IsGoal(init) && fuel > 0 ==> r == NoMove
    ensures r.OutOfFuel? ==> |trace| == fuel
    ensures !IsGoal(init) && |trace| < fuel ==> (r.Found? <==> !Unsolvable(LiveSetting(init), init))
    ensures |trace| <= fuel && NoGoal(trace) && DistinctStates(trace)
    ensures forall k :: 0 <= k < |trace| ==> trace[k].prio == |trace[k].path| as real + H(trace[k].state)
  {
    r, plan, trace := WeightedAStarLive(init, 1.0, fuel);
  }
}
