/**
 * The state space every search of the program walks: states are
 * (board, diamonds) pairs, a step is `apply_move` (placement and clearing,
 * main.py semantics, with no legality test of its own), and the moves
 * generated when a state is expanded are `possible_moves` of every listed
 * block, read from the board the search points `self.board` at.
 */
module Space {
  import opened Grid
  import opened Blocks
  import opened Moves
  import opened Board
  import opened Plans

  /** The board `possible_moves` reads: the expanded state's own, or one fixed when the search starts. */
  datatype MoveSource = Current | Fixed(board: Layer)

  /** What expanding a state depends on: where anchors come from, the block list, and the board size. */
  datatype Setting = Setting(src: MoveSource, cat: seq<Shape>, n: nat)

  /** The block list is usable and a fixed anchor board has the setting's size. */
  predicate SettingOk(c: Setting) {
    CatalogueOk(c.cat) && (c.src.Fixed? ==> IsSquare(c.src.board, c.n))
  }

  /** s is an n-by-n state of the setting. */
  predicate InSpace(c: Setting, s: State) {
    s.Square() && s.Size() == c.n
  }

  /** The board the move generator reads when it expands s. */
  function MoveBoard(src: MoveSource, s: State): Layer {
    match src
    case Current => s.board
    case Fixed(b) => b
  }

  /** m can be applied to an n-by-n state: its shape is a rectangle that fits at its anchor. */
  predicate Fits(n: nat, m: Move) {
    m.shape.WellFormed() && InRange(n, m.shape, m.At())
  }

  /**
   * `apply_move`: the move's placement followed by line clearing.  Moves
   * that do not fit the board are never generated; for them the state is
   * returned as it is.
   */
  function Step(s: State, m: Move): State {
    if s.Square() && Fits(s.Size(), m) then ApplyMove(s, m) else s
  }

  /** The moves generated when s is expanded, block by block, anchors in row-major order. */
  function Expand(c: Setting, s: State): seq<Move> {
    if SettingOk(c) && InSpace(c, s) then AllMoves(MoveBoard(c.src, s), c.cat) else []
  }

  /** The win test as a value usable by the generic plan facts. */
  predicate NotGoal(s: State) {
    !IsGoal(s)
  }

  /** A valid plan from s whose last state has no diamond. */
  ghost predicate Solves(c: Setting, s: State, plan: seq<Move>) {
    ValidPlan(Step, Expand, c, s, plan) && IsGoal(Run(Step, s, plan))
  }

  /** No valid plan from s reaches a state without diamonds. */
  ghost predicate Unsolvable(c: Setting, s: State) {
    AlwaysHolds(Step, Expand, c, NotGoal, s)
  }

  /** x is where the valid plan leads from s. */
  ghost predicate Reaches(c: Setting, s: State, plan: seq<Move>, x: State) {
    ValidPlan(Step, Expand, c, s, plan) && Run(Step, s, plan) == x
  }

  /** Every move of the plan is legal on the (square) board it is played on. */
  predicate PlaysLegally(cat: seq<Shape>, s: State, plan: seq<Move>) {
    forall k :: 0 <= k < |plan| ==>
      var b := Run(Step, s, plan[..k]).board;
      IsSquare(b, |b|) && IsLegalMove(b, cat, plan[k])
  }

  // ---------------------------------------------------------------------------
  // Facts about expansion

  /** The generated moves are exactly the legal moves on the source's board. */
  lemma ExpandIsLegalMoves(c: Setting, s: State)
    requires SettingOk(c) && InSpace(c, s)
    ensures forall m :: m in Expand(c, s) <==> IsLegalMove(MoveBoard(c.src, s), c.cat, m)
  {
  }

  /** A generated move fits, and stepping by it keeps the state in the space. */
  lemma ExpandStaysInSpace(c: Setting, s: State, m: Move)
    requires SettingOk(c) && InSpace(c, s) && m in Expand(c, s)
    ensures Fits(c.n, m) && Step(s, m) == ApplyMove(s, m) && InSpace(c, Step(s, m))
  {
    assert IsLegalMove(MoveBoard(c.src, s), c.cat, m);
  }

  /** Stepping by a generated move keeps the state in the space. */
  lemma StepStaysInSpace(c: Setting, s: State, m: Move)
    requires SettingOk(c) && InSpace(c, s) && m in Expand(c, s)
    ensures InSpace(c, Step(s, m))
  {
    ExpandStaysInSpace(c, s, m);
  }

  /** Every state a valid plan reaches is in the space. */
  lemma RunStaysInSpace(c: Setting, s: State, plan: seq<Move>)
    requires SettingOk(c) && InSpace(c, s) && ValidPlan(Step, Expand, c, s, plan)
    ensures InSpace(c, Run(Step, s, plan))
  {
    forall x, m | InSpace(c, x) && m in Expand(c, x)
      ensures InSpace(c, Step(x, m))
    {
      StepStaysInSpace(c, x, m);
    }
    PreservedAlongPlan(Step, Expand, c, InSpace, s, plan);
  }

  /** Extending a plan that reaches x by a move generated at x reaches the stepped state. */
  lemma ReachesAppend(c: Setting, s: State, plan: seq<Move>, x: State, m: Move)
    requires Reaches(c, s, plan, x) && m in Expand(c, x)
    ensures Reaches(c, s, plan + [m], Step(x, m))
  {
    ValidAppend(Step, Expand, c, s, plan, m);
    RunAppend(Step, s, plan, m);
  }

  /** Under the current-board source, every move of a valid plan is legal on the board it is played on. */
  lemma CurrentPlansAreLegal(c: Setting, s: State, plan: seq<Move>)
    requires SettingOk(c) && c.src.Current? && InSpace(c, s) && ValidPlan(Step, Expand, c, s, plan)
    ensures PlaysLegally(c.cat, s, plan)
  {
    forall k | 0 <= k < |plan|
      ensures IsLegalMove(Run(Step, s, plan[..k]).board, c.cat, plan[k])
    {
      ValidPrefix(Step, Expand, c, s, plan, k);
      RunStaysInSpace(c, s, plan[..k]);
      ExpandIsLegalMoves(c, Run(Step, s, plan[..k]));
    }
  }
}
