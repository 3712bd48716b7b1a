/**
 * Concrete start states on which the searches as written go wrong.
 *
 * A search whose move generator keeps reading the start board accepts a
 * plan that the game would refuse: its second block lands on a cell the
 * first block has just filled.  Iterative deepening (blind_search.py) and
 * the A* planners of informed.py search this stale space; the live setting
 * rules such plans out.
 *
 * A* of informed_search.py closes heap keys rather than states.  On
 * LoopStart no plan removes every diamond, and the state its left column
 * leads to is mapped to itself by the top bar: A* as written pushes that
 * state again at every expansion and never reports that no move exists,
 * while the state-closing A* does once it has expanded both states.
 */
module Findings {
  import opened Grid
  import opened Blocks
  import opened Moves
  import opened Board
  import opened Plans
  import opened Space
  import opened Wrappers
  import opened Blind
  import Informed
  import KeyClosed
  import Order
  import Search

  /** An empty 3-by-3 board. */
  const EmptyBoard: Layer := [[0, 0, 0], [0, 0, 0], [0, 0, 0]]

  /** One diamond, in the bottom-left corner. */
  const CornerDiamond: Layer := [[0, 0, 0], [0, 0, 0], [1, 0, 0]]

  /** The start state of the example. */
  const Start := State(EmptyBoard, CornerDiamond)

  /** The square block in the top-left corner. */
  const First := Move(Square2, 0, 0)

  /** The vertical bar in the left column, over the square's cells. */
  const Second := Move(Vertical3, 0, 0)

  /** The plan that plays First, then Second. */
  const Overlapping: seq<Move> := [First, Second]

  /** A 3-by-3 state with an empty board and no diamond outside the bottom-left corner. */
  predicate Fresh(s: State) {
    CornerOnly(s) && forall i, j :: 0 <= i < 3 && 0 <= j < 3 ==> s.board[i][j] == 0
  }

  /** Both moves are legal on a fresh start board, so the stale generator lists both in every state of size 3. */
  lemma BothListedOnStartBoard(init: State, s: State)
    requires Fresh(init) && s.Square() && s.Size() == 3
    ensures First in Expand(StaleSetting(init), s)
    ensures Second in Expand(StaleSetting(init), s)
  {
    CataloguesOk();
    assert IsLegalMove(init.board, Catalogue, First);
    assert IsLegalMove(init.board, Catalogue, Second);
  }

  /** A placed board cell is 1 under the block and keeps its value elsewhere. */
  lemma PlacedCell(b: Layer, sh: Shape, a: Anchor, i: nat, j: nat)
    requires sh.WellFormed() && IsSquare(b, |b|) && InRange(|b|, sh, a) && i < |b| && j < |b|
    ensures Place(b, sh, a)[i][j] == if Covers(sh, a, i, j) then 1 else b[i][j]
  {
  }

  /** A 3-by-3 state with no diamond outside the bottom-left corner. */
  predicate CornerOnly(s: State) {
    s.Square() && s.Size() == 3 &&
    forall i, j :: 0 <= i < 3 && 0 <= j < 3 && !(i == 2 && j == 0) ==> s.diamonds[i][j] == 0
  }

  /**
   * First on an empty 3-by-3 board fills the top-left cell and completes no
   * line through it; clearing only ever zeroes diamonds.
   */
  lemma FirstFillsCorner(s: State)
    requires Fresh(s)
    ensures CornerOnly(Step(s, First)) && Step(s, First).board[0][0] == 1
  {
    assert Fits(3, First);
    var p := Place(s.board, Square2, First.At());
    PlacedCell(s.board, Square2, First.At(), 0, 0);
    PlacedCell(s.board, Square2, First.At(), 0, 2);
    PlacedCell(s.board, Square2, First.At(), 2, 0);
    assert !FullRow(p, 0) by { assert p[0][2] == 0; }
    assert !FullCol(p, 0) by { assert p[2][0] == 0; }
    assert Step(s, First) == ClearLines(State(p, s.diamonds));
  }

  /** Second on a board whose left column is empty below the top completes that column, clearing the corner diamond. */
  lemma SecondClearsDiamond(t: State)
    requires CornerOnly(t)
    ensures IsGoal(Step(t, Second))
  {
    assert Fits(3, Second);
    var p := Place(t.board, Vertical3, Second.At());
    forall i | 0 <= i < 3
      ensures p[i][0] != 0
    {
      PlacedCell(t.board, Vertical3, Second.At(), i, 0);
    }
    assert FullCol(p, 0);
    var u := Step(t, Second);
    assert u == ClearLines(State(p, t.diamonds));
    assert IsZero(u.diamonds);
    LayerSumZeroIff(u.diamonds);
  }

  /** The states Overlapping passes through. */
  lemma OverlapRuns(s: State)
    ensures Run(Step, s, Overlapping[..0]) == s
    ensures Run(Step, s, Overlapping[..1]) == Step(s, First)
    ensures Run(Step, s, Overlapping) == Step(Step(s, First), Second)
  {
    assert Overlapping[..1] == [First];
    assert Overlapping[..|Overlapping| - 1] == [First];
  }

  /** From a fresh state the stale space accepts Overlapping as a solution. */
  lemma StaleSolvesWithOverlap(s: State)
    requires Fresh(s)
    ensures Solves(StaleSetting(s), s, Overlapping)
  {
    FirstFillsCorner(s);
    var t := Step(s, First);
    SecondClearsDiamond(t);
    OverlapRuns(s);
    BothListedOnStartBoard(s, s);
    BothListedOnStartBoard(s, t);
  }

  /** Once the top-left cell holds a block, Second is not legal. */
  lemma SecondBlocked(t: State)
    requires t.Square() && t.Size() == 3 && t.board[0][0] == 1
    ensures !IsLegalMove(t.board, Catalogue, Second)
  {
    assert Vertical3.Solid(0, 0);
  }

  /** From a fresh state the second move of Overlapping lands on the cell its first move filled. */
  lemma OverlapPlaysIllegally(s: State)
    requires Fresh(s)
    ensures !PlaysLegally(Catalogue, s, Overlapping)
  {
    FirstFillsCorner(s);
    var t := Step(s, First);
    SecondBlocked(t);
    OverlapRuns(s);
    var b := Run(Step, s, Overlapping[..1]).board;
    assert b == t.board && Overlapping[1] == Second;
    assert !(IsSquare(b, |b|) && IsLegalMove(b, Catalogue, Overlapping[1]));
  }

  /**
   * The stale space accepts Overlapping as a solution of Start, yet its
   * second move is not legal on the board it is played on.
   */
  lemma StaleAcceptsOverlap()
    ensures Solves(StaleSetting(Start), Start, Overlapping)
    ensures !PlaysLegally(Catalogue, Start, Overlapping)
  {
    assert Fresh(Start);
    StaleSolvesWithOverlap(Start);
    OverlapPlaysIllegally(Start);
  }

  /** Under the live setting Overlapping is not even a valid plan from Start. */
  lemma LiveRejectsOverlap()
    ensures !ValidPlan(Step, Expand, LiveSetting(Start), Start, Overlapping)
  {
    if ValidPlan(Step, Expand, LiveSetting(Start), Start, Overlapping) {
      StaleAcceptsOverlap();
      LivePlansAreLegal(Start, Overlapping);
    }
  }

  // ---------------------------------------------------------------------------
  // Cells after one step

  /**
   * A cell whose row and column each keep an empty cell that the block does
   * not cover is not cleared: its board cell is what the placement leaves and
   * its diamond stays.
   */
  lemma KeptCell(x: State, m: Move, i: nat, j: nat, i': nat, j': nat)
    requires x.Square() && Fits(x.Size(), m) && i < x.Size() && j < x.Size() && i' < x.Size() && j' < x.Size()
    requires x.board[i][j'] == 0 && !Covers(m.shape, m.At(), i, j')
    requires x.board[i'][j] == 0 && !Covers(m.shape, m.At(), i', j)
    ensures Step(x, m).board[i][j] == (if Covers(m.shape, m.At(), i, j) then 1 else x.board[i][j])
    ensures Step(x, m).diamonds[i][j] == x.diamonds[i][j]
  {
    var p := Place(x.board, m.shape, m.At());
    PlacedCell(x.board, m.shape, m.At(), i, j);
    PlacedCell(x.board, m.shape, m.At(), i, j');
    PlacedCell(x.board, m.shape, m.At(), i', j);
    assert !FullRow(p, i) && !FullCol(p, j);
    assert Step(x, m) == ClearLines(State(p, x.diamonds));
  }

  /** A row of a 3-by-3 state that the placement completes is emptied on both layers. */
  lemma ClearedRow(x: State, m: Move, i: nat)
    requires x.Square() && x.Size() == 3 && Fits(3, m) && i < 3
    requires Covers(m.shape, m.At(), i, 0) || x.board[i][0] != 0
    requires Covers(m.shape, m.At(), i, 1) || x.board[i][1] != 0
    requires Covers(m.shape, m.At(), i, 2) || x.board[i][2] != 0
    ensures forall j :: 0 <= j < 3 ==> Step(x, m).board[i][j] == 0 && Step(x, m).diamonds[i][j] == 0
  {
    var p := Place(x.board, m.shape, m.At());
    PlacedCell(x.board, m.shape, m.At(), i, 0);
    PlacedCell(x.board, m.shape, m.At(), i, 1);
    PlacedCell(x.board, m.shape, m.At(), i, 2);
    assert FullRow(p, i);
    assert Step(x, m) == ClearLines(State(p, x.diamonds));
  }

  /** A column of a 3-by-3 state that the placement completes is emptied on both layers. */
  lemma ClearedCol(x: State, m: Move, j: nat)
    requires x.Square() && x.Size() == 3 && Fits(3, m) && j < 3
    requires Covers(m.shape, m.At(), 0, j) || x.board[0][j] != 0
    requires Covers(m.shape, m.At(), 1, j) || x.board[1][j] != 0
    requires Covers(m.shape, m.At(), 2, j) || x.board[2][j] != 0
    ensures forall i :: 0 <= i < 3 ==> Step(x, m).board[i][j] == 0 && Step(x, m).diamonds[i][j] == 0
  {
    var p := Place(x.board, m.shape, m.At());
    PlacedCell(x.board, m.shape, m.At(), 0, j);
    PlacedCell(x.board, m.shape, m.At(), 1, j);
    PlacedCell(x.board, m.shape, m.At(), 2, j);
    assert FullCol(p, j);
    assert Step(x, m) == ClearLines(State(p, x.diamonds));
  }

  /** An empty diamond cell stays empty, and so does an empty board cell the block does not cover. */
  lemma ZerosStay(x: State, m: Move)
    requires x.Square() && Fits(x.Size(), m)
    ensures forall i, j :: 0 <= i < x.Size() && 0 <= j < x.Size() && x.diamonds[i][j] == 0 ==>
              Step(x, m).diamonds[i][j] == 0
    ensures forall i, j :: 0 <= i < x.Size() && 0 <= j < x.Size() && x.board[i][j] == 0 && !Covers(m.shape, m.At(), i, j) ==>
              Step(x, m).board[i][j] == 0
  {
    var p := Place(x.board, m.shape, m.At());
    forall i, j | 0 <= i < x.Size() && 0 <= j < x.Size()
      ensures p[i][j] == if Covers(m.shape, m.At(), i, j) then 1 else x.board[i][j]
    {
      PlacedCell(x.board, m.shape, m.At(), i, j);
    }
    assert Step(x, m) == ClearLines(State(p, x.diamonds));
  }

  /** A valid state with a diamond somewhere is no goal. */
  lemma DiamondLeft(s: State, i: nat, j: nat)
    requires s.Valid() && i < s.Size() && j < s.Size() && s.diamonds[i][j] == 1
    ensures !IsGoal(s)
  {
    LayerSumZeroIff(s.diamonds);
  }

  /** A 3-by-3 state without any diamond is a goal. */
  lemma NoDiamondLeft(s: State)
    requires s.Square() && s.Size() == 3
    requires forall j :: 0 <= j < 3 ==> s.diamonds[0][j] == 0 && s.diamonds[1][j] == 0 && s.diamonds[2][j] == 0
    ensures IsGoal(s)
  {
    forall i, j | 0 <= i < 3 && 0 <= j < 3
      ensures s.diamonds[i][j] == 0
    {
      if i == 0 {
      } else if i == 1 {
      } else {
        assert i == 2;
      }
    }
    assert IsZero(s.diamonds);
    LayerSumZeroIff(s.diamonds);
  }

  /** A move keeps a valid state valid. */
  lemma StepKeepsValid(x: State, m: Move)
    requires x.Valid() && Fits(x.Size(), m)
    ensures Step(x, m).Valid() && Step(x, m).Size() == x.Size()
  {
    ApplyKeepsValid(x, m);
  }

  /** A diamond that KeptCell keeps leaves the state after the move no goal. */
  lemma DiamondKept(x: State, m: Move, i: nat, j: nat, i': nat, j': nat)
    requires x.Valid() && Fits(x.Size(), m) && i < x.Size() && j < x.Size() && i' < x.Size() && j' < x.Size()
    requires x.board[i][j'] == 0 && !Covers(m.shape, m.At(), i, j')
    requires x.board[i'][j] == 0 && !Covers(m.shape, m.At(), i', j)
    requires x.diamonds[i][j] == 1
    ensures !IsGoal(Step(x, m))
  {
    KeptCell(x, m, i, j, i', j');
    StepKeepsValid(x, m);
    DiamondLeft(Step(x, m), i, j);
  }

  // ---------------------------------------------------------------------------
  // Iterative deepening returns a plan the game refuses

  /** The start board of the second example: cells (0, 2), (2, 0) and (2, 2) hold blocks. */
  const DeepBoard: Layer := [[0, 0, 1], [0, 0, 0], [1, 0, 1]]

  /** Diamonds at (0, 0), (0, 1) and (1, 2). */
  const DeepDiamonds: Layer := [[1, 1, 0], [0, 0, 1], [0, 0, 0]]

  /** The start state of the second example. */
  const DeepStart := State(DeepBoard, DeepDiamonds)

  /** The horizontal bar across the middle row. */
  const MiddleBar := Move(Horizontal3, 1, 0)

  /** The horizontal bar across the top row. */
  const TopBar := Move(Horizontal3, 0, 0)

  /** The vertical bar down the middle column. */
  const MiddleColumn := Move(Vertical3, 0, 1)

  /** The square in the top-left corner. */
  const CornerSquare := Move(Square2, 0, 0)

  /** The legal moves on DeepBoard, in the order they are generated. */
  const DeepMoves: seq<Move> := [MiddleBar, MiddleColumn, CornerSquare]

  /** The plan depth-limited search returns from DeepStart. */
  const Returned: seq<Move> := [CornerSquare, MiddleBar]

  /** A layer of three rows of three cells is square. */
  lemma ThreeByThree(g: Layer)
    requires |g| == 3 && |g[0]| == 3 && |g[1]| == 3 && |g[2]| == 3
    ensures IsSquare(g, 3)
  {
  }

  /** The horizontal bar fits DeepBoard only across the middle row. */
  lemma HorizontalAnchors()
    ensures PossibleMoves(DeepBoard, Horizontal3) == [Anchor(1, 0)]
  {
    var h := Horizontal3;
    assert h.Solid(0, 0) && h.Solid(0, 2);
    assert !Legal(DeepBoard, h, Anchor(0, 0)) by { assert DeepBoard[0][2] == 1; }
    assert RowAnchors(DeepBoard, h, 0, 0) == [];
    assert RowAnchors(DeepBoard, h, 1, 0) == [Anchor(1, 0)];
    assert RowAnchors(DeepBoard, h, 2, 0) == [];
    assert AnchorsFrom(DeepBoard, h, 1) == [Anchor(1, 0)];
  }

  /** The vertical bar fits DeepBoard only down the middle column. */
  lemma VerticalAnchors()
    ensures PossibleMoves(DeepBoard, Vertical3) == [Anchor(0, 1)]
  {
    var v := Vertical3;
    assert v.Solid(0, 0) && v.Solid(2, 0);
    assert !Legal(DeepBoard, v, Anchor(0, 0)) by { assert DeepBoard[2][0] == 1; }
    assert !Legal(DeepBoard, v, Anchor(0, 2)) by { assert DeepBoard[0][2] == 1; }
    assert RowAnchors(DeepBoard, v, 0, 2) == [];
    assert RowAnchors(DeepBoard, v, 0, 1) == [Anchor(0, 1)];
    assert RowAnchors(DeepBoard, v, 0, 0) == [Anchor(0, 1)];
  }

  /** The square fits DeepBoard only in the top-left corner. */
  lemma SquareAnchors()
    ensures PossibleMoves(DeepBoard, Square2) == [Anchor(0, 0)]
  {
    var q := Square2;
    assert q.Solid(0, 1) && q.Solid(1, 0) && q.Solid(1, 1);
    assert !Legal(DeepBoard, q, Anchor(0, 1)) by { assert DeepBoard[0][2] == 1; }
    assert !Legal(DeepBoard, q, Anchor(1, 0)) by { assert DeepBoard[2][0] == 1; }
    assert !Legal(DeepBoard, q, Anchor(1, 1)) by { assert DeepBoard[2][2] == 1; }
    assert RowAnchors(DeepBoard, q, 0, 0) == [Anchor(0, 0)];
    assert RowAnchors(DeepBoard, q, 1, 0) == [];
    assert AnchorsFrom(DeepBoard, q, 1) == [];
  }

  /** A block with a single legal anchor gives a single move. */
  lemma SingleAnchor(board: Layer, s: Shape, a: Anchor)
    requires s.WellFormed() && IsSquare(board, |board|) && PossibleMoves(board, s) == [a]
    ensures MovesOfShape(board, s) == [Move(s, a.row, a.col)]
  {
  }

  /** The moves of a list of blocks are the first block's moves followed by the rest's. */
  lemma MovesUnfold(board: Layer, cat: seq<Shape>)
    requires IsSquare(board, |board|) && CatalogueOk(cat) && |cat| > 0
    ensures AllMoves(board, cat) == MovesOfShape(board, cat[0]) + AllMoves(board, cat[1..])
  {
  }

  /** Three blocks with one move each list those moves in block order. */
  lemma ThreeBlocks(board: Layer, cat: seq<Shape>, m0: Move, m1: Move, m2: Move)
    requires IsSquare(board, |board|) && CatalogueOk(cat) && |cat| == 3
    requires MovesOfShape(board, cat[0]) == [m0]
    requires MovesOfShape(board, cat[1]) == [m1]
    requires MovesOfShape(board, cat[2]) == [m2]
    ensures AllMoves(board, cat) == [m0, m1, m2]
  {
    assert cat[1..][0] == cat[1] && cat[1..][1..][0] == cat[2] && cat[1..][1..][1..] == [];
    MovesUnfold(board, cat[1..][1..]);
    MovesUnfold(board, cat[1..]);
    MovesUnfold(board, cat);
  }

  /**
   * On a board where each block has the anchor it has on DeepBoard, the
   * moves are listed as the middle bar, the middle column, then the corner
   * square.
   */
  lemma DeepMovesListed(board: Layer)
    requires IsSquare(board, |board|)
    requires PossibleMoves(board, Horizontal3) == [Anchor(1, 0)]
    requires PossibleMoves(board, Vertical3) == [Anchor(0, 1)]
    requires PossibleMoves(board, Square2) == [Anchor(0, 0)]
    ensures CatalogueOk(Catalogue) && AllMoves(board, Catalogue) == DeepMoves
  {
    CataloguesOk();
    SingleAnchor(board, Horizontal3, Anchor(1, 0));
    SingleAnchor(board, Vertical3, Anchor(0, 1));
    SingleAnchor(board, Square2, Anchor(0, 0));
    ThreeBlocks(board, Catalogue, MiddleBar, MiddleColumn, CornerSquare);
  }

  /** The stale generator lists DeepMoves in every 3-by-3 state. */
  lemma StaleDeepMoves(x: State)
    requires x.Square() && x.Size() == 3
    ensures Expand(StaleSetting(DeepStart), x) == DeepMoves
  {
    var c := StaleSetting(DeepStart);
    ThreeByThree(DeepBoard);
    HorizontalAnchors();
    VerticalAnchors();
    SquareAnchors();
    DeepMovesListed(DeepBoard);
    assert SettingOk(c) && InSpace(c, x);
    assert MoveBoard(c.src, x) == DeepBoard;
  }

  /** DeepStart is a valid 3-by-3 state with a diamond left. */
  lemma DeepStartValid()
    ensures DeepStart.Valid() && DeepStart.Size() == 3 && !IsGoal(DeepStart)
  {
    ThreeByThree(DeepBoard);
    ThreeByThree(DeepDiamonds);
    DiamondLeft(DeepStart, 0, 0);
  }

  /**
   * The middle bar completes the middle row and the right column: what is
   * left is the two diamonds of the top row, on an empty top row.
   */
  lemma AfterMiddleBar(x: State)
    requires x.Valid() && x.Size() == 3
    requires x.board[0][0] == 0 && x.board[0][1] == 0 && x.board[0][2] == 1 && x.board[2][1] == 0 && x.board[2][2] == 1
    requires x.diamonds[0][0] == 1 && x.diamonds[0][1] == 1
    requires forall j :: 0 <= j < 3 ==> x.diamonds[2][j] == 0
    ensures Step(x, MiddleBar).Valid() && Step(x, MiddleBar).Size() == 3 && !IsGoal(Step(x, MiddleBar))
    ensures Step(x, MiddleBar).diamonds[0][0] == 1 && Step(x, MiddleBar).diamonds[0][1] == 1
    ensures Step(x, MiddleBar).board[0][0] == 0 && Step(x, MiddleBar).board[0][1] == 0
    ensures Step(x, MiddleBar).board[0][2] == 0 && Step(x, MiddleBar).board[2][1] == 0
    ensures forall j :: 0 <= j < 3 ==> Step(x, MiddleBar).diamonds[1][j] == 0 && Step(x, MiddleBar).diamonds[2][j] == 0
  {
    MiddleBarKeepsTop(x);
    MiddleBarClears(x);
  }

  /** The part of AfterMiddleBar about the top row's two diamonds and their empty cells. */
  lemma MiddleBarKeepsTop(x: State)
    requires x.Valid() && x.Size() == 3
    requires x.board[0][0] == 0 && x.board[0][1] == 0
    requires x.diamonds[0][0] == 1 && x.diamonds[0][1] == 1
    ensures Step(x, MiddleBar).Valid() && Step(x, MiddleBar).Size() == 3 && !IsGoal(Step(x, MiddleBar))
    ensures Step(x, MiddleBar).diamonds[0][0] == 1 && Step(x, MiddleBar).diamonds[0][1] == 1
    ensures Step(x, MiddleBar).board[0][0] == 0 && Step(x, MiddleBar).board[0][1] == 0
  {
    var m := MiddleBar;
    assert Fits(3, m);
    StepKeepsValid(x, m);
    KeptCell(x, m, 0, 0, 0, 0);
    KeptCell(x, m, 0, 1, 0, 1);
    DiamondLeft(Step(x, m), 0, 0);
  }

  /** The part of AfterMiddleBar about the cleared middle row and right column, and the empty bottom row of diamonds. */
  lemma MiddleBarClears(x: State)
    requires x.Valid() && x.Size() == 3
    requires x.board[0][2] == 1 && x.board[2][1] == 0 && x.board[2][2] == 1
    requires forall j :: 0 <= j < 3 ==> x.diamonds[2][j] == 0
    ensures Step(x, MiddleBar).board[0][2] == 0 && Step(x, MiddleBar).board[2][1] == 0
    ensures forall j :: 0 <= j < 3 ==> Step(x, MiddleBar).diamonds[1][j] == 0 && Step(x, MiddleBar).diamonds[2][j] == 0
  {
    var m := MiddleBar;
    assert Fits(3, m) && m.shape.Solid(0, 0) && m.shape.Solid(0, 1) && m.shape.Solid(0, 2);
    var a := Step(x, m);
    ClearedCol(x, m, 2);
    assert a.board[2][1] == 0 by { ZerosStay(x, m); }
    ClearedRow(x, m, 1);
    forall j | 0 <= j < 3
      ensures a.diamonds[2][j] == 0
    {
      assert x.diamonds[2][j] == 0;
      ZerosStay(x, m);
    }
  }

  /** The middle column leaves the top-left and the middle-right diamonds where they are, on empty cells. */
  lemma AfterMiddleColumn(x: State)
    requires x.Valid() && x.Size() == 3
    requires x.board[0][0] == 0 && x.board[1][0] == 0 && x.board[1][2] == 0
    requires x.diamonds[0][0] == 1 && x.diamonds[1][2] == 1
    ensures var b := Step(x, MiddleColumn);
            && b.Valid() && b.Size() == 3 && !IsGoal(b)
            && b.diamonds[0][0] == 1 && b.diamonds[1][2] == 1 && b.board[0][0] == 0 && b.board[1][2] == 0
  {
    var m := MiddleColumn;
    assert Fits(3, m);
    KeptCell(x, m, 0, 0, 0, 0);
    KeptCell(x, m, 1, 2, 1, 0);
    StepKeepsValid(x, m);
    DiamondLeft(Step(x, m), 0, 0);
  }

  /**
   * The corner square completes the top row: only the middle-right diamond
   * is left, and the centre cell holds a block.
   */
  lemma AfterCornerSquare(x: State)
    requires x.Valid() && x.Size() == 3
    requires x.board[0][2] == 1 && x.board[1][2] == 0 && x.board[2][1] == 0 && x.diamonds[1][2] == 1
    requires forall j :: 0 <= j < 3 ==> x.diamonds[2][j] == 0
    ensures Step(x, CornerSquare).Valid() && Step(x, CornerSquare).Size() == 3 && !IsGoal(Step(x, CornerSquare))
    ensures Step(x, CornerSquare).board[1][1] == 1 && Step(x, CornerSquare).diamonds[1][2] == 1
    ensures forall j :: 0 <= j < 3 ==> Step(x, CornerSquare).diamonds[0][j] == 0 && Step(x, CornerSquare).diamonds[2][j] == 0
  {
    var m := CornerSquare;
    assert Fits(3, m) && m.shape.Solid(1, 1) && m.shape.Solid(0, 0) && m.shape.Solid(0, 1);
    StepKeepsValid(x, m);
    var c := Step(x, m);
    KeptCell(x, m, 1, 2, 1, 2);
    KeptCell(x, m, 1, 1, 2, 2);
    DiamondLeft(c, 1, 2);
    ClearedRow(x, m, 0);
    forall j | 0 <= j < 3
      ensures c.diamonds[2][j] == 0
    {
      assert x.diamonds[2][j] == 0;
      ZerosStay(x, m);
    }
  }

  /** No stale move from the state after the middle bar removes every diamond. */
  lemma BarDeadEnds(a: State)
    requires a.Valid() && a.Size() == 3
    requires a.diamonds[0][0] == 1 && a.diamonds[0][1] == 1
    requires a.board[0][0] == 0 && a.board[0][2] == 0 && a.board[2][1] == 0
    ensures !IsGoal(Step(a, MiddleBar)) && !IsGoal(Step(a, MiddleColumn)) && !IsGoal(Step(a, CornerSquare))
  {
    assert Fits(3, MiddleBar) && Fits(3, MiddleColumn) && Fits(3, CornerSquare);
    DiamondKept(a, MiddleBar, 0, 0, 0, 0);
    DiamondKept(a, MiddleColumn, 0, 0, 0, 0);
    DiamondKept(a, CornerSquare, 0, 1, 2, 2);
  }

  /** No stale move from the state after the middle column removes every diamond. */
  lemma ColumnDeadEnds(b: State)
    requires b.Valid() && b.Size() == 3
    requires b.diamonds[0][0] == 1 && b.diamonds[1][2] == 1 && b.board[0][0] == 0 && b.board[1][2] == 0
    ensures !IsGoal(Step(b, MiddleBar)) && !IsGoal(Step(b, MiddleColumn)) && !IsGoal(Step(b, CornerSquare))
  {
    assert Fits(3, MiddleBar) && Fits(3, MiddleColumn) && Fits(3, CornerSquare);
    DiamondKept(b, MiddleBar, 0, 0, 0, 0);
    DiamondKept(b, MiddleColumn, 0, 0, 0, 0);
    DiamondKept(b, CornerSquare, 1, 2, 1, 2);
  }

  /** The top bar removes every diamond when the top row holds the only ones. */
  lemma TopBarFinishes(x: State)
    requires x.Square() && x.Size() == 3
    requires forall j :: 0 <= j < 3 ==> x.diamonds[1][j] == 0 && x.diamonds[2][j] == 0
    ensures IsGoal(Step(x, TopBar))
  {
    var m := TopBar;
    assert Fits(3, m) && m.shape.Solid(0, 0) && m.shape.Solid(0, 1) && m.shape.Solid(0, 2);
    var y := Step(x, m);
    ClearedRow(x, m, 0);
    forall j | 0 <= j < 3
      ensures y.diamonds[1][j] == 0 && y.diamonds[2][j] == 0
    {
      assert x.diamonds[1][j] == 0 && x.diamonds[2][j] == 0;
      ZerosStay(x, m);
    }
    NoDiamondLeft(y);
  }

  /** The middle bar removes every diamond when the middle row holds the only ones. */
  lemma MiddleBarFinishes(x: State)
    requires x.Square() && x.Size() == 3
    requires forall j :: 0 <= j < 3 ==> x.diamonds[0][j] == 0 && x.diamonds[2][j] == 0
    ensures IsGoal(Step(x, MiddleBar))
  {
    var m := MiddleBar;
    assert Fits(3, m) && m.shape.Solid(0, 0) && m.shape.Solid(0, 1) && m.shape.Solid(0, 2);
    var y := Step(x, m);
    ClearedRow(x, m, 1);
    forall j | 0 <= j < 3
      ensures y.diamonds[0][j] == 0 && y.diamonds[2][j] == 0
    {
      assert x.diamonds[0][j] == 0 && x.diamonds[2][j] == 0;
      ZerosStay(x, m);
    }
    NoDiamondLeft(y);
  }

  /** Depth 1 finds nothing from a 3-by-3 non-goal state whose three stale successors are non-goals. */
  lemma DeadEnd(x: State, path: seq<Move>)
    requires x.Square() && x.Size() == 3 && !IsGoal(x)
    requires !IsGoal(Step(x, MiddleBar)) && !IsGoal(Step(x, MiddleColumn)) && !IsGoal(Step(x, CornerSquare))
    ensures Dls(Step, Expand, StaleSetting(DeepStart), x, 1, path) == None
  {
    var c := StaleSetting(DeepStart);
    StaleDeepMoves(x);
    assert TryMoves(Step, Expand, c, x, 1, path, 3) == None;
    assert TryMoves(Step, Expand, c, x, 1, path, 2) == None;
    assert TryMoves(Step, Expand, c, x, 1, path, 1) == None;
    assert TryMoves(Step, Expand, c, x, 1, path, 0) == None;
  }

  /** One illegal move anywhere in a plan makes the whole plan illegal. */
  lemma IllegalAt(cat: seq<Shape>, s: State, plan: seq<Move>, k: nat, b: Layer)
    requires k < |plan| && b == Run(Step, s, plan[..k]).board
    requires IsSquare(b, |b|) && !IsLegalMove(b, cat, plan[k])
    ensures !PlaysLegally(cat, s, plan)
  {
  }

  /** A horizontal bar at the left edge of row r is legal exactly when row r is empty. */
  lemma BarLegal(b: Layer, r: nat)
    requires |b| == 3 && IsSquare(b, |b|) && r < 3
    ensures IsLegalMove(b, Catalogue, Move(Horizontal3, r, 0)) <==> b[r][0] != 1 && b[r][1] != 1 && b[r][2] != 1
  {
    assert Horizontal3.Solid(0, 0) && Horizontal3.Solid(0, 1) && Horizontal3.Solid(0, 2);
    if b[r][0] != 1 && b[r][1] != 1 && b[r][2] != 1 {
      assert IsLegalMove(b, Catalogue, Move(Horizontal3, r, 0));
    }
  }

  /** The states a two-move plan passes through. */
  lemma RunTwo(x: State, m0: Move, m1: Move)
    ensures [m0, m1][..0] == [] && [m0, m1][..1] == [m0] && [m0, m1][1] == m1
    ensures Run(Step, x, [m0, m1][..1]) == Step(x, m0)
    ensures Run(Step, x, [m0, m1]) == Step(Step(x, m0), m1)
  {
    assert [m0, m1][..1] == [m0] && [m0][..0] == [];
  }

  /** Two moves legal on the boards they meet form a valid plan of the live search. */
  lemma LiveTwo(x: State, m0: Move, m1: Move)
    requires x.Square()
    requires IsLegalMove(x.board, Catalogue, m0)
    requires Step(x, m0).Square() && IsLegalMove(Step(x, m0).board, Catalogue, m1)
    ensures ValidPlan(Step, Expand, LiveSetting(x), x, [m0, m1])
  {
    var c := LiveSetting(x);
    CataloguesOk();
    RunTwo(x, m0, m1);
    ExpandIsLegalMoves(c, x);
    assert m0 in Expand(c, x);
    StepStaysInSpace(c, x, m0);
    ExpandIsLegalMoves(c, Step(x, m0));
    assert m1 in Expand(c, Step(x, m0));
  }

  /** Returned split into its two moves. */
  lemma ReturnedParts()
    ensures [CornerSquare] + [MiddleBar] == Returned
    ensures Returned[..1] == [CornerSquare] && Returned[1] == MiddleBar && [CornerSquare][..0] == []
  {
  }

  /** Single-move paths extended from the empty path. */
  lemma FirstSteps()
    ensures [] + [MiddleBar] == [MiddleBar] && [] + [MiddleColumn] == [MiddleColumn] && [] + [CornerSquare] == [CornerSquare]
  {
  }

  /** The cells of DeepStart that the search below depends on. */
  predicate DeepShaped(x: State)
  {
    && x.Valid() && x.Size() == 3 && !IsGoal(x)
    && x.board[0][0] == 0 && x.board[0][1] == 0 && x.board[0][2] == 1
    && x.board[1][0] == 0 && x.board[1][1] == 0 && x.board[1][2] == 0
    && x.board[2][1] == 0 && x.board[2][2] == 1
    && x.diamonds[0][0] == 1 && x.diamonds[0][1] == 1 && x.diamonds[1][2] == 1
    && (forall j :: 0 <= j < 3 ==> x.diamonds[2][j] == 0)
  }

  lemma DeepStartShaped()
    ensures DeepShaped(DeepStart)
  {
    DeepStartValid();
  }

  /** Stale depth-limited search with limit 1 finds nothing from a state shaped like DeepStart. */
  lemma DepthOneFails(x: State)
    requires DeepShaped(x)
    ensures Dls(Step, Expand, StaleSetting(DeepStart), x, 1, []) == None
  {
    AfterMiddleBar(x);
    AfterMiddleColumn(x);
    AfterCornerSquare(x);
    DeadEnd(x, []);
  }

  /** The first two branches of depth 2, under the middle bar and the middle column, fail. */
  lemma FirstBranchesFail(x: State)
    requires DeepShaped(x)
    ensures Dls(Step, Expand, StaleSetting(DeepStart), Step(x, MiddleBar), 1, [MiddleBar]) == None
    ensures Dls(Step, Expand, StaleSetting(DeepStart), Step(x, MiddleColumn), 1, [MiddleColumn]) == None
  {
    AfterMiddleBar(x);
    AfterMiddleColumn(x);
    BarDeadEnds(Step(x, MiddleBar));
    ColumnDeadEnds(Step(x, MiddleColumn));
    DeadEnd(Step(x, MiddleBar), [MiddleBar]);
    DeadEnd(Step(x, MiddleColumn), [MiddleColumn]);
  }

  /** The third branch, under the corner square, ends at once with the middle bar. */
  lemma ThirdBranchSucceeds(x: State)
    requires DeepShaped(x)
    ensures Dls(Step, Expand, StaleSetting(DeepStart), Step(x, CornerSquare), 1, [CornerSquare]) == Some(Returned)
  {
    var c := StaleSetting(DeepStart);
    AfterCornerSquare(x);
    var q := Step(x, CornerSquare);
    MiddleBarFinishes(q);
    StaleDeepMoves(q);
    ReturnedParts();
    assert TryMoves(Step, Expand, c, q, 1, [CornerSquare], 0) == Some(Returned);
  }

  /**
   * Stale depth-limited search with limit 2 returns the corner square
   * followed by the middle bar.
   */
  lemma DepthTwoReturns(x: State)
    requires DeepShaped(x)
    ensures Dls(Step, Expand, StaleSetting(DeepStart), x, 2, []) == Some(Returned)
  {
    var c := StaleSetting(DeepStart);
    StaleDeepMoves(x);
    FirstBranchesFail(x);
    ThirdBranchSucceeds(x);
    FirstSteps();
    assert TryMoves(Step, Expand, c, x, 2, [], 2) == Some(Returned);
    assert TryMoves(Step, Expand, c, x, 2, [], 1) == Some(Returned);
    assert TryMoves(Step, Expand, c, x, 2, [], 0) == Some(Returned);
  }

  /** The middle bar of Returned lands on the centre cell that the corner square has just filled. */
  lemma ReturnedPlaysIllegally(x: State)
    requires DeepShaped(x)
    ensures !PlaysLegally(Catalogue, x, Returned)
  {
    AfterCornerSquare(x);
    var q := Step(x, CornerSquare);
    RunTwo(x, CornerSquare, MiddleBar);
    BarLegal(q.board, 1);
    IllegalAt(Catalogue, x, Returned, 1, q.board);
  }

  /**
   * Iterative deepening over the start board's anchors returns Returned
   * from DeepStart for every depth bound of at least 2, and Returned is not
   * a legal sequence of moves.
   */
  lemma StaleDeepeningReturnsIllegal(maxDepth: nat)
    requires maxDepth >= 2
    ensures FirstSuccess(Step, Expand, StaleSetting(DeepStart), DeepStart, 1, maxDepth) == Some(Returned)
    ensures !PlaysLegally(Catalogue, DeepStart, Returned)
  {
    DeepStartShaped();
    DepthOneFails(DeepStart);
    DepthTwoReturns(DeepStart);
    ReturnedPlaysIllegally(DeepStart);
  }

  /** With anchors read from the board being expanded, the middle bar then the top bar is a legal two-move solution. */
  lemma LiveSolves(x: State)
    requires DeepShaped(x)
    ensures Solves(LiveSetting(x), x, [MiddleBar, TopBar])
    ensures PlaysLegally(Catalogue, x, [MiddleBar, TopBar])
  {
    var plan := [MiddleBar, TopBar];
    AfterMiddleBar(x);
    var a := Step(x, MiddleBar);
    TopBarFinishes(a);
    CataloguesOk();
    BarLegal(a.board, 0);
    BarLegal(x.board, 1);
    RunTwo(x, MiddleBar, TopBar);
    LiveTwo(x, MiddleBar, TopBar);
    LivePlansAreLegal(x, plan);
  }

  /** The same plan from DeepStart itself. */
  lemma LiveSolvesDeepStart()
    ensures Solves(LiveSetting(DeepStart), DeepStart, [MiddleBar, TopBar])
    ensures PlaysLegally(Catalogue, DeepStart, [MiddleBar, TopBar])
  {
    DeepStartShaped();
    LiveSolves(DeepStart);
  }

  // ---------------------------------------------------------------------------
  // Weighted A* with weight 1 breaks ties unlike A*

  /** The horizontal bar along the bottom row. */
  const BottomBar := Move(Horizontal3, 2, 0)

  /** The vertical bar down the left column. */
  const LeftColumn := Move(Vertical3, 0, 0)

  /** A 3-by-3 layer of zeros. */
  const ZeroLayer: Layer := [[0, 0, 0], [0, 0, 0], [0, 0, 0]]

  /** A 3-by-3 state whose cells are all 0 on both layers is the empty state. */
  lemma AllZero(y: State)
    requires y.Square() && y.Size() == 3
    requires forall i, j :: 0 <= i < 3 && 0 <= j < 3 ==> y.board[i][j] == 0 && y.diamonds[i][j] == 0
    ensures y == State(ZeroLayer, ZeroLayer)
  {
    forall i | 0 <= i < 3
      ensures y.board[i] == [0, 0, 0] && y.diamonds[i] == [0, 0, 0]
    {
      assert y.board[i][0] == 0 && y.board[i][1] == 0 && y.board[i][2] == 0;
      assert y.diamonds[i][0] == 0 && y.diamonds[i][1] == 0 && y.diamonds[i][2] == 0;
    }
    assert y.board == [y.board[0], y.board[1], y.board[2]];
    assert y.diamonds == [y.diamonds[0], y.diamonds[1], y.diamonds[2]];
  }

  /** The cells of Start that the two bars depend on. */
  predicate CornerShaped(x: State)
  {
    && x.Valid() && x.Size() == 3
    && (forall i, j :: 0 <= i < 3 && 0 <= j < 3 ==> x.board[i][j] == 0)
    && (forall i, j :: 0 <= i < 3 && 0 <= j < 3 && (i, j) != (2, 0) ==> x.diamonds[i][j] == 0)
  }

  /** The bottom bar fills and clears the bottom row, leaving the empty state. */
  lemma BottomBarEmpties(x: State)
    requires CornerShaped(x)
    ensures Step(x, BottomBar) == State(ZeroLayer, ZeroLayer)
  {
    var m := BottomBar;
    assert Fits(3, m) && m.shape.Solid(0, 0) && m.shape.Solid(0, 1) && m.shape.Solid(0, 2);
    var y := Step(x, m);
    StepKeepsValid(x, m);
    ClearedRow(x, m, 2);
    forall i, j | 0 <= i < 2 && 0 <= j < 3
      ensures y.board[i][j] == 0 && y.diamonds[i][j] == 0
    {
      KeptCell(x, m, i, j, i, j);
    }
    AllZero(y);
  }

  /** The left column fills and clears the left column, leaving the empty state. */
  lemma LeftColumnEmpties(x: State)
    requires CornerShaped(x)
    ensures Step(x, LeftColumn) == State(ZeroLayer, ZeroLayer)
  {
    var m := LeftColumn;
    assert Fits(3, m) && m.shape.Solid(0, 0) && m.shape.Solid(1, 0) && m.shape.Solid(2, 0);
    var y := Step(x, m);
    StepKeepsValid(x, m);
    ClearedCol(x, m, 0);
    forall i, j | 0 <= i < 3 && 0 <= j < 3
      ensures y.board[i][j] == 0 && y.diamonds[i][j] == 0
    {
      if j > 0 {
        KeptCell(x, m, i, j, i, j);
      }
    }
    AllZero(y);
  }

  lemma StartCornerShaped()
    ensures CornerShaped(Start)
  {
  }

  /**
   * From Start the bottom bar and the left column reach the same state
   * without diamonds, so their heap entries tie on f and on g.  A* breaks
   * the tie by push counter, and the bottom bar is pushed first because
   * horizontal bars are generated before vertical ones; weighted A* with
   * weight 1 compares the states, which are equal, and then the paths, and
   * the vertical bar's block `[[1],[1],[1]]` is smaller than `[[1,1,1]]`.
   */
  lemma WeightOneTiesDiffer(earlier: int, later: int)
    requires earlier < later
    ensures var s := Step(Start, BottomBar);
            && s == Step(Start, LeftColumn) && IsGoal(s)
            && Search.KeyLess(Search.AStar, Search.Entry(1.0, earlier, s, [BottomBar]), Search.Entry(1.0, later, s, [LeftColumn]))
            && Search.KeyLess(Search.WeightedAStar(1.0), Search.Entry(1.0, later, s, [LeftColumn]), Search.Entry(1.0, earlier, s, [BottomBar]))
  {
    StartCornerShaped();
    BottomBarEmpties(Start);
    LeftColumnEmpties(Start);
    var s := State(ZeroLayer, ZeroLayer);
    assert s.diamonds[0][0] == 0;
    NoDiamondLeft(s);
    assert Order.RowLess([1], [1, 1, 1]);
    assert Order.LayerLess(LeftColumn.shape.cells, BottomBar.shape.cells);
    assert Order.MoveLess(LeftColumn, BottomBar);
    assert Order.PathLess([LeftColumn], [BottomBar]);
  }

  // ---------------------------------------------------------------------------
  // A* as written never gives up where a reachable state loops

  /** The start board of the fourth example: cells (1, 1) and (2, 2) hold blocks. */
  const LoopBoard: Layer := [[0, 0, 0], [0, 1, 0], [0, 0, 1]]

  /** Diamonds at (2, 0) and (2, 1). */
  const LoopStart := State(LoopBoard, [[0, 0, 0], [0, 0, 0], [1, 1, 0]])

  /** What the left column leaves of LoopStart: the diamond at (2, 1) alone. */
  const LoopEnd := State(LoopBoard, [[0, 0, 0], [0, 0, 0], [0, 1, 0]])

  /** The moves LoopBoard allows: the top bar, then the left column. */
  const LoopMoves: seq<Move> := [TopBar, LeftColumn]

  /** The horizontal bar fits LoopBoard only across the top row. */
  lemma LoopHorizontal()
    ensures PossibleMoves(LoopBoard, Horizontal3) == [Anchor(0, 0)]
  {
    var h := Horizontal3;
    assert h.Solid(0, 1) && h.Solid(0, 2);
    assert !Legal(LoopBoard, h, Anchor(1, 0)) by { assert LoopBoard[1][1] == 1; }
    assert !Legal(LoopBoard, h, Anchor(2, 0)) by { assert LoopBoard[2][2] == 1; }
    assert RowAnchors(LoopBoard, h, 0, 0) == [Anchor(0, 0)];
    assert RowAnchors(LoopBoard, h, 1, 0) == [];
    assert RowAnchors(LoopBoard, h, 2, 0) == [];
    assert AnchorsFrom(LoopBoard, h, 1) == [];
  }

  /** The vertical bar fits LoopBoard only down the left column. */
  lemma LoopVertical()
    ensures PossibleMoves(LoopBoard, Vertical3) == [Anchor(0, 0)]
  {
    var v := Vertical3;
    assert v.Solid(1, 0) && v.Solid(2, 0);
    assert !Legal(LoopBoard, v, Anchor(0, 1)) by { assert LoopBoard[1][1] == 1; }
    assert !Legal(LoopBoard, v, Anchor(0, 2)) by { assert LoopBoard[2][2] == 1; }
    assert RowAnchors(LoopBoard, v, 0, 2) == [];
    assert RowAnchors(LoopBoard, v, 0, 1) == [];
    assert RowAnchors(LoopBoard, v, 0, 0) == [Anchor(0, 0)];
  }

  /** The square fits nowhere on LoopBoard: every anchor covers the centre. */
  lemma LoopSquare()
    ensures PossibleMoves(LoopBoard, Square2) == []
  {
    var q := Square2;
    assert q.Solid(0, 0) && q.Solid(0, 1) && q.Solid(1, 0) && q.Solid(1, 1);
    assert !Legal(LoopBoard, q, Anchor(0, 0)) by { assert LoopBoard[1][1] == 1; }
    assert !Legal(LoopBoard, q, Anchor(0, 1)) by { assert LoopBoard[1][1] == 1; }
    assert !Legal(LoopBoard, q, Anchor(1, 0)) by { assert LoopBoard[1][1] == 1; }
    assert !Legal(LoopBoard, q, Anchor(1, 1)) by { assert LoopBoard[1][1] == 1; }
    assert RowAnchors(LoopBoard, q, 0, 0) == [];
    assert RowAnchors(LoopBoard, q, 1, 0) == [];
    assert AnchorsFrom(LoopBoard, q, 1) == [];
  }

  /** Two blocks with one move each and a third with none list the two moves in block order. */
  lemma TwoOfThree(board: Layer, cat: seq<Shape>, m0: Move, m1: Move)
    requires IsSquare(board, |board|) && CatalogueOk(cat) && |cat| == 3
    requires MovesOfShape(board, cat[0]) == [m0]
    requires MovesOfShape(board, cat[1]) == [m1]
    requires MovesOfShape(board, cat[2]) == []
    ensures AllMoves(board, cat) == [m0, m1]
  {
    assert cat[1..][0] == cat[1] && cat[1..][1..][0] == cat[2] && cat[1..][1..][1..] == [];
    MovesUnfold(board, cat[1..][1..]);
    MovesUnfold(board, cat[1..]);
    MovesUnfold(board, cat);
  }

  /** The live generator lists LoopMoves in every 3-by-3 state on LoopBoard. */
  lemma LoopMovesListed(x: State)
    requires x.Square() && x.Size() == 3 && x.board == LoopBoard
    ensures Expand(Setting(Current, Catalogue, 3), x) == LoopMoves
  {
    ThreeByThree(LoopBoard);
    CataloguesOk();
    LoopHorizontal();
    LoopVertical();
    LoopSquare();
    SingleAnchor(LoopBoard, Horizontal3, Anchor(0, 0));
    SingleAnchor(LoopBoard, Vertical3, Anchor(0, 0));
    assert MovesOfShape(LoopBoard, Square2) == [];
    TwoOfThree(LoopBoard, Catalogue, TopBar, LeftColumn);
  }

  /** Two 3-by-3 states agree on every cell of both layers. */
  predicate CellsAgree(x: State, y: State)
    requires x.Square() && y.Square() && x.Size() == 3 && y.Size() == 3
  {
    && x.board[0][0] == y.board[0][0] && x.diamonds[0][0] == y.diamonds[0][0]
    && x.board[0][1] == y.board[0][1] && x.diamonds[0][1] == y.diamonds[0][1]
    && x.board[0][2] == y.board[0][2] && x.diamonds[0][2] == y.diamonds[0][2]
    && x.board[1][0] == y.board[1][0] && x.diamonds[1][0] == y.diamonds[1][0]
    && x.board[1][1] == y.board[1][1] && x.diamonds[1][1] == y.diamonds[1][1]
    && x.board[1][2] == y.board[1][2] && x.diamonds[1][2] == y.diamonds[1][2]
    && x.board[2][0] == y.board[2][0] && x.diamonds[2][0] == y.diamonds[2][0]
    && x.board[2][1] == y.board[2][1] && x.diamonds[2][1] == y.diamonds[2][1]
    && x.board[2][2] == y.board[2][2] && x.diamonds[2][2] == y.diamonds[2][2]
  }

  /** Two 3-by-3 states that agree on every cell are equal. */
  lemma SameCells(x: State, y: State)
    requires x.Square() && y.Square() && x.Size() == 3 && y.Size() == 3
    requires CellsAgree(x, y)
    ensures x == y
  {
    assert x.board[0] == y.board[0] && x.board[1] == y.board[1] && x.board[2] == y.board[2];
    assert x.diamonds[0] == y.diamonds[0] && x.diamonds[1] == y.diamonds[1] && x.diamonds[2] == y.diamonds[2];
    assert x.board == [x.board[0], x.board[1], x.board[2]] == y.board;
    assert x.diamonds == [x.diamonds[0], x.diamonds[1], x.diamonds[2]] == y.diamonds;
  }

  /** The cells of LoopStart that the two bars depend on: all of them but the diamond at (2, 0). */
  predicate LoopShaped(x: State)
  {
    && x.Valid() && x.Size() == 3
    && x.board[0][0] == 0 && x.board[0][1] == 0 && x.board[0][2] == 0
    && x.board[1][0] == 0 && x.board[1][1] == 1 && x.board[1][2] == 0
    && x.board[2][0] == 0 && x.board[2][1] == 0 && x.board[2][2] == 1
    && x.diamonds[0][0] == 0 && x.diamonds[0][1] == 0 && x.diamonds[0][2] == 0
    && x.diamonds[1][0] == 0 && x.diamonds[1][1] == 0 && x.diamonds[1][2] == 0
    && x.diamonds[2][1] == 1 && x.diamonds[2][2] == 0
  }

  /** The top bar fills and clears the empty top row and changes nothing. */
  lemma TopBarStays(x: State)
    requires LoopShaped(x)
    ensures Step(x, TopBar) == x
  {
    var m := TopBar;
    assert Fits(3, m) && m.shape.Solid(0, 0) && m.shape.Solid(0, 1) && m.shape.Solid(0, 2);
    var y := Step(x, m);
    StepKeepsValid(x, m);
    ClearedRow(x, m, 0);
    KeptCell(x, m, 1, 0, 1, 0);
    KeptCell(x, m, 1, 1, 2, 0);
    KeptCell(x, m, 1, 2, 1, 0);
    KeptCell(x, m, 2, 0, 1, 0);
    KeptCell(x, m, 2, 1, 2, 0);
    KeptCell(x, m, 2, 2, 1, 0);
    assert y.board[0][0] == x.board[0][0] && y.diamonds[0][0] == x.diamonds[0][0];
    assert y.board[0][1] == x.board[0][1] && y.diamonds[0][1] == x.diamonds[0][1];
    assert y.board[0][2] == x.board[0][2] && y.diamonds[0][2] == x.diamonds[0][2];
    assert y.board[1][0] == x.board[1][0] && y.diamonds[1][0] == x.diamonds[1][0];
    assert y.board[1][1] == x.board[1][1] && y.diamonds[1][1] == x.diamonds[1][1];
    assert y.board[1][2] == x.board[1][2] && y.diamonds[1][2] == x.diamonds[1][2];
    assert y.board[2][0] == x.board[2][0] && y.diamonds[2][0] == x.diamonds[2][0];
    assert y.board[2][1] == x.board[2][1] && y.diamonds[2][1] == x.diamonds[2][1];
    assert y.board[2][2] == x.board[2][2] && y.diamonds[2][2] == x.diamonds[2][2];
    SameCells(y, x);
  }

  /** The left column fills and clears the left column: only the diamond at (2, 0) can go. */
  lemma LeftColumnClears(x: State)
    requires LoopShaped(x)
    ensures LoopShaped(Step(x, LeftColumn)) && Step(x, LeftColumn).diamonds[2][0] == 0
  {
    var m := LeftColumn;
    assert Fits(3, m) && m.shape.Solid(0, 0) && m.shape.Solid(1, 0) && m.shape.Solid(2, 0);
    var y := Step(x, m);
    StepKeepsValid(x, m);
    ClearedCol(x, m, 0);
    KeptCell(x, m, 0, 1, 0, 1);
    KeptCell(x, m, 0, 2, 0, 1);
    KeptCell(x, m, 1, 1, 0, 2);
    KeptCell(x, m, 1, 2, 0, 2);
    KeptCell(x, m, 2, 1, 0, 1);
    KeptCell(x, m, 2, 2, 0, 1);
  }

  /** LoopShaped pins a state down up to its diamond at (2, 0). */
  lemma LoopShapedSame(x: State, y: State)
    requires LoopShaped(x) && LoopShaped(y) && x.diamonds[2][0] == y.diamonds[2][0]
    ensures x == y
  {
    SameCells(x, y);
  }

  /** LoopStart and LoopEnd are LoopShaped, with and without the diamond at (2, 0). */
  lemma LoopStatesShaped()
    ensures LoopShaped(LoopStart) && LoopStart.diamonds[2][0] == 1
    ensures LoopShaped(LoopEnd) && LoopEnd.diamonds[2][0] == 0
  {
    ThreeByThree(LoopBoard);
  }

  /** The left column takes LoopStart to LoopEnd. */
  lemma LoopStartLeadsToEnd()
    ensures Step(LoopStart, LeftColumn) == LoopEnd
  {
    LoopStatesShaped();
    LeftColumnClears(LoopStart);
    LoopShapedSame(Step(LoopStart, LeftColumn), LoopEnd);
  }

  /** A LoopShaped state lies on LoopBoard. */
  lemma OnLoopBoard(x: State)
    requires LoopShaped(x)
    ensures x.board == LoopBoard
  {
    assert x.board[0] == [0, 0, 0] by {
      assert x.board[0][0] == 0 && x.board[0][1] == 0 && x.board[0][2] == 0;
    }
    assert x.board[1] == [0, 1, 0] by {
      assert x.board[1][0] == 0 && x.board[1][1] == 1 && x.board[1][2] == 0;
    }
    assert x.board[2] == [0, 0, 1] by {
      assert x.board[2][0] == 0 && x.board[2][1] == 0 && x.board[2][2] == 1;
    }
    assert x.board == [x.board[0], x.board[1], x.board[2]];
  }

  /** A LoopShaped state is no goal, and its two moves keep it LoopShaped; the left column removes the diamond at (2, 0). */
  lemma LoopSuccessors(z: State)
    requires LoopShaped(z)
    ensures Expand(Setting(Current, Catalogue, 3), z) == LoopMoves && !IsGoal(z)
    ensures Step(z, TopBar) == z
    ensures LoopShaped(Step(z, LeftColumn)) && Step(z, LeftColumn).diamonds[2][0] == 0
  {
    DiamondLeft(z, 2, 1);
    OnLoopBoard(z);
    LoopMovesListed(z);
    TopBarStays(z);
    LeftColumnClears(z);
  }

  /** The live generator offers exactly the top bar and the left column on a LoopShaped state. */
  lemma LoopMovesOnly(z: State)
    requires LoopShaped(z)
    ensures TopBar in Expand(Setting(Current, Catalogue, 3), z) && LeftColumn in Expand(Setting(Current, Catalogue, 3), z)
    ensures forall m :: m in Expand(Setting(Current, Catalogue, 3), z) ==> m == TopBar || m == LeftColumn
  {
    OnLoopBoard(z);
    LoopMovesListed(z);
  }

  /** Both moves lead from a LoopShaped state z to z itself or to the LoopShaped y without the diamond at (2, 0). */
  lemma LoopStep(z: State, y: State)
    requires LoopShaped(z) && LoopShaped(y) && y.diamonds[2][0] == 0
    ensures NotGoal(z)
    ensures forall m :: m in Expand(Setting(Current, Catalogue, 3), z) ==> Step(z, m) == z || Step(z, m) == y
  {
    DiamondLeft(z, 2, 1);
    TopBarStays(z);
    LeftColumnClears(z);
    LoopShapedSame(Step(z, LeftColumn), y);
    LoopMovesOnly(z);
  }

  /** A set of two elements has at most two members. */
  lemma PairAtMostTwo<T>(a: T, b: T)
    ensures |{a, b}| <= 2
  {
  }

  /**
   * Two states that satisfy ok, with every move from either leading to one
   * of the two, form a closed set: every valid plan from x ends in one of
   * them, so ok always holds.
   */
  lemma PairClosed<C, S(!new), M(!new)>(next: (S, M) -> S, succ: (C, S) -> seq<M>, c: C, ok: S -> bool, x: S, y: S)
    requires ok(x) && ok(y)
    requires forall m :: m in succ(c, x) ==> next(x, m) == x || next(x, m) == y
    requires forall m :: m in succ(c, y) ==> next(y, m) == x || next(y, m) == y
    ensures Closed(next, succ, c, ok, {x, y})
    ensures forall p :: ValidPlan(next, succ, c, x, p) ==> Run(next, x, p) in {x, y}
    ensures AlwaysHolds(next, succ, c, ok, x)
  {
    forall p | ValidPlan(next, succ, c, x, p)
      ensures Run(next, x, p) in {x, y}
    {
      ClosedSetHoldsReachable(next, succ, c, ok, {x, y}, x, p);
    }
    ClosedSetShowsAlwaysHolds(next, succ, c, ok, {x, y}, x);
  }

  /** From a LoopShaped x, every valid plan ends in x or in the LoopShaped y without the diamond at (2, 0), and no goal is reached. */
  lemma LoopPlans(c: Setting, x: State, y: State)
    requires c == Setting(Current, Catalogue, 3)
    requires LoopShaped(x) && LoopShaped(y) && y.diamonds[2][0] == 0
    ensures forall p :: ValidPlan(Step, Expand, c, x, p) ==> Run(Step, x, p) in {x, y}
    ensures !IsGoal(x) && Unsolvable(c, x)
  {
    LoopStep(x, y);
    LoopStep(y, y);
    PairClosed(Step, Expand, c, NotGoal, x, y);
  }

  /** The facts LoopReach needs about x and the state y its left column leads to, stated for any LoopShaped pair. */
  lemma LoopPair(c: Setting, x: State, y: State)
    requires c == Setting(Current, Catalogue, 3)
    requires LoopShaped(x) && x.diamonds[2][0] == 1
    requires LoopShaped(y) && y.diamonds[2][0] == 0
    ensures !IsGoal(x) && y != x
    ensures forall p :: ValidPlan(Step, Expand, c, x, p) ==> Run(Step, x, p) in {x, y}
    ensures Unsolvable(c, x)
    ensures LeftColumn in Expand(c, x)
    ensures TopBar in Expand(c, y) && Step(y, TopBar) == y
  {
    LoopPlans(c, x, y);
    LoopMovesOnly(x);
    LoopMovesOnly(y);
    TopBarStays(y);
  }

  /**
   * From a LoopShaped state x with a diamond at (2, 0), such as LoopStart,
   * every valid plan ends in x or in the state y the left column leads to,
   * and neither is a goal; the top bar is generated at y and leads back to
   * y.
   */
  lemma LoopReach(x: State)
    requires LoopShaped(x) && x.diamonds[2][0] == 1
    ensures var y := Step(x, LeftColumn);
            && !IsGoal(x) && y != x
            && (forall p :: ValidPlan(Step, Expand, LiveSetting(x), x, p) ==> Run(Step, x, p) in {x, y})
            && Unsolvable(LiveSetting(x), x)
            && Reaches(LiveSetting(x), x, [LeftColumn], y)
            && TopBar in Expand(LiveSetting(x), y) && Step(y, TopBar) == y
  {
    var c := LiveSetting(x);
    var y := Step(x, LeftColumn);
    LeftColumnClears(x);
    LoopPair(c, x, y);
    ReachesAppend(c, x, [], x, LeftColumn);
    assert [] + [LeftColumn] == [LeftColumn];
  }

  /**
   * On a LoopShaped start with a diamond at (2, 0), LoopStart for one, no
   * plan removes every diamond.  A* as written expands the start, pushes the
   * state y the left column leads to (the top bar is left out, since it
   * leads back to the start), and from then on every expansion of y pushes y
   * again through the top bar: it never answers no move, whatever the fuel.
   * StateClosingGivesUp gives the corrected A*'s answer.
   */
  method CounterClosingNeverGivesUp(x: State, fuel: nat) returns (written: Search.Outcome)
    requires LoopShaped(x) && x.diamonds[2][0] == 1
    ensures written == Search.OutOfFuel
  {
    var c := LiveSetting(x);
    var y := Step(x, LeftColumn);
    LoopReach(x);
    assert ValidPlan(Step, Expand, c, x, [LeftColumn]) && Run(Step, x, [LeftColumn]) == y;
    assert KeyClosed.Loops(Step, Expand, c, y);
    var plan, trace;
    written, plan, trace := Informed.AStarAsWritten(x, fuel);
  }

  /** From the same start, the state-closing A* answers no move once the fuel exceeds the two reachable states. */
  method StateClosingGivesUp(x: State, fuel: nat) returns (corrected: Search.Outcome)
    requires LoopShaped(x) && x.diamonds[2][0] == 1
    ensures fuel > 2 ==> corrected == Search.NoMove
  {
    var plan, trace;
    corrected, plan, trace := Informed.AStar(x, fuel);
    if fuel > 2 {
      LoopGivesUp(x, corrected, trace, fuel);
    }
  }

  /** The verdict of StateClosingGivesUp, from what the state-closing A* promises about its trace. */
  lemma LoopGivesUp(x: State, r: Search.Outcome, trace: seq<Search.Entry>, fuel: nat)
    requires LoopShaped(x) && x.diamonds[2][0] == 1 && fuel > 2
    requires TraceReaches(LiveSetting(x), x, trace) && Invariant.DistinctStates(trace)
    requires r.OutOfFuel? ==> |trace| == fuel
    requires !IsGoal(x) && |trace| < fuel ==> (r.Found? <==> !Unsolvable(LiveSetting(x), x))
    ensures r == Search.NoMove
  {
    var S := LoopFewStates(x);
    FewStatesGiveUp(LiveSetting(x), x, S, r, trace, fuel);
  }

  /** From a LoopShaped start with a diamond at (2, 0), no plan solves, and valid plans reach at most two states. */
  lemma LoopFewStates(x: State) returns (S: set<State>)
    requires LoopShaped(x) && x.diamonds[2][0] == 1
    ensures !IsGoal(x) && Unsolvable(LiveSetting(x), x)
    ensures |S| <= 2 && forall p :: ValidPlan(Step, Expand, LiveSetting(x), x, p) ==> Run(Step, x, p) in S
  {
    var c := LiveSetting(x);
    var y := Step(x, LeftColumn);
    LeftColumnClears(x);
    LoopPlans(c, x, y);
    S := {x, y};
    PairAtMostTwo(x, y);
  }

  /**
   * A search that expands each state once, from an unsolvable start whose
   * valid plans reach fewer states than the fuel, stops with no move.
   */
  lemma FewStatesGiveUp(c: Setting, x: State, S: set<State>, r: Search.Outcome, trace: seq<Search.Entry>, fuel: nat)
    requires TraceReaches(c, x, trace) && Invariant.DistinctStates(trace)
    requires forall p :: ValidPlan(Step, Expand, c, x, p) ==> Run(Step, x, p) in S
    requires |S| < fuel && Unsolvable(c, x)
    requires r.OutOfFuel? ==> |trace| == fuel
    requires |trace| < fuel ==> (r.Found? <==> !Unsolvable(c, x))
    ensures r == Search.NoMove
  {
    TraceWithin(c, x, trace, S);
  }
}
