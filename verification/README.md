# Woodblock puzzle engine and its searches, in Dafny

The game is played on an n-by-n board with two 0/1 layers: the blocks that
occupy cells and the diamonds to be removed. A move puts a block of the
block list at an anchor (x, y). It is legal when none of the block's 1-cells
lands on an occupied cell. Once the block is placed, every row and every
column that is now full is cleared in both layers. The game is won when no
diamond is left. It is lost when diamonds remain and no block has a legal
anchor.

On top of this engine sit several move choosers:

- a one-step scorer (`best_move`);
- the blind searches: breadth-first, depth-first, uniform-cost and iterative
  deepening;
- the informed searches: greedy best-first, A* and weighted A*;
- an older variant of the informed searches;
- two stand-alone A* toys, one that drops diamonds onto a 5-by-5 board and
  one that collects the 1-cells of a matrix.

## The modules

| module | file | contents |
|---|---|---|
| `Wrappers` | wrappers.dfy | `Option` |
| `Grid` | grid.dfy | layers as `seq<seq<int>>`, cell sums, zero counts, single-cell update |
| `Blocks` | blocks.dfy | shapes, anchors, moves, the two block lists |
| `Moves` | moves.dfy | `can_place_block`, `possible_moves`, the block-by-block move list |
| `Board` | board.dfy | the state, placement, line clearing, the transition, the win test |
| `Game` | game.dfy | `evaluate_move`, `best_move`, `check_game_over` |
| `Plans` | plans.dfy | generic plans: running them, validity, closed sets |
| `Space` | space.dfy | the game as a search space (current-board or fixed-board move source) |
| `Order` | order.dfy | Python's tuple and list comparison, used for heap ties |
| `Search` | search.dfy | frontier entries, heap keys, pop index, pushed successors |
| `Invariant` | invariant.dfy | the frontier loop's invariants and one iteration of the loop |
| `Engine` | engine.dfy | one search loop for all six frontier disciplines |
| `Keyed` | keyed.dfy | closed-set bookkeeping shared by the two A* toys |
| `Blind` | blind.dfy | BFS, DFS, uniform-cost and iterative deepening |
| `Informed` | informed.dfy | greedy best-first, A*, weighted A* (informed_search.py) |
| `Legacy` | legacy.dfy | the one-step greedy and the A* planners of informed.py |
| `KeyClosed` | key_closed.dfy | the A* loop of informed_search.py as written, whose closed set holds heap keys |
| `Findings` | findings.dfy | start states on which a fixed-board move source, and A* as written, go wrong |
| `Cells` | cells.dfy | the cells of a box that pass a test, in row-major order |
| `Mateo` | mateo.dfy | the diamond-dropping A* toy |
| `Heuristics` | heuristics.dfy | the diamond-collecting A* toy |

The searches call helpers that the abstract base class does not define:
`apply_move`, `possible_moves`, `hash_state`, `is_goal` and `blocks`. The
model builds them once, from the game's own code:

- legality follows main.py:21-38;
- placement follows main.py:451-455;
- clearing follows main.py:368-369 and main.py:378-385;
- the goal test is main.py:472;
- the block list is main.py:621-625;
- `hash_state` is the identity on the state.

All searches share one generic loop, `Engine.Explore`. It is parametrised by
the transition and the move generator. It keeps a frontier of entries
(priority, tie counter, state, path), a closed set and a trace of the
entries it expanded.

The discipline decides which entry is popped (`Search.PopIndex`):

- breadth-first pops the head;
- depth-first pops the tail;
- the heap searches pop the first entry with no strictly smaller key.

The key is Python's tuple order on the heap tuples, as far as it is ever
decided.

The older game in initial.py has the same `WoodBlockAI` methods and the
same clearing, on a 10-by-10 board with the L-shaped block list
`Blocks.InitialCatalogue`. Every member above takes the board size and the
block list as parameters, so the same members model both games:

- `Moves.CanPlaceBlock` models initial.py:26-33;
- `Moves.PossibleMoves` models initial.py:16-24;
- `Game.Evaluate` models initial.py:35-56, and `Game.DestroyedCountsCrossingsTwice` states its double count;
- `Game.BestMove` models initial.py:58-69;
- `Board.ClearLines` models initial.py:160-169;
- `Board.CommitPlace` and `Board.ApplyMove` model initial.py:206-213.

The score counts a diamond that lies where a full row crosses a full column
twice, once for the row and once for the column, as both versions of
`evaluate_move` do.

## Model

| member | source | states |
|---|---|---|
| Blocks.CataloguesOk | main.py:621-625 | the game's block list (horizontal bar, vertical bar, square) and the older L/bar/square list are non-empty rectangles, each covering at least one cell |
| Moves.CanPlaceBlock | main.py:31-38 | the nested loop answers true exactly when no 1-cell of the block lands on an occupied board cell at (x, y) |
| Moves.PossibleMoves | main.py:21-29 | an anchor is listed exactly when the block's box fits the board there and the placement is legal; the list is strictly increasing in row-major order, so it has no repeats |
| Moves.AllMoves | main.py:71-72 | the `for block in blocks: for (x, y) in possible_moves(block)` loop lists exactly the legal moves of the listed blocks; when no block is listed twice they come block by block in list order, and row-major within a block |
| Moves.LegalIgnoresUncoveredCells | main.py:36 | legality depends only on the board cells under the block's 1-cells; the diamond layer, the cells under 0-cells and all other cells play no part |
| Moves.LShapeZeroCellsNotChecked | initial.py:29-32 | the L block `[[1,1,1,1],[1,0,0,0]]` is listed at (0, 0) on a board whose cell (1, 1) is occupied, because that cell lies under a 0-cell |
| Board.CommitPlace | main.py:451-455 | after the write loop, exactly the cells under the block's 1-cells are 1 and every other cell keeps its value |
| Board.PlacedAnchorNoLongerLegal | main.py:451-455 | once a block has been written at an anchor, that block is no longer legal at the same anchor |
| Board.ClearLines | main.py:368-369 | the full rows and the full columns are both found on the board before anything is cleared; afterwards every cell of a cleared line is 0 in both layers, every other cell is unchanged, and no row or column is full |
| Board.NoFullLineAfterClear | main.py:378-385 | any result that zeroes the full lines and keeps the other cells has no full row and no full column |
| Board.ClearIdempotent | main.py:378-385 | clearing a board that has just been cleared changes nothing |
| Board.ApplyKeepsValid | main.py:451-456 | placing and clearing keep both layers square and 0/1 |
| Board.DiamondsNeverIncrease | initial.py:206-213 | a move never raises the number of diamonds, and the count stays non-negative |
| Board.GoalIffNoDiamonds | main.py:472 | with 0/1 layers, the diamond sum is 0 exactly when every diamond cell is 0 |
| Board.GoalIsStable | main.py:472 | once no diamond is left, any move keeps it that way |
| Board.WinningMove | main.py:378-385 | a move wins exactly when every diamond lies in a row or a column that the placement fills |
| Game.Evaluate | main.py:40-65 | on a valid state the score is the number of diamonds the move really removes, plus the diamonds where a full row crosses a full column once more, minus the cells still empty once the block is written in |
| Game.DestroyedCountsCrossingsTwice | main.py:51-58 | the destroyed-diamond part of the score is the number of diamonds the move really removes plus the diamonds at crossings of a full row and a full column, which are counted twice |
| Game.DestroyedIsMaskedSums | main.py:55-58 | the row part and the column part of the score are the diamond totals over the full rows and over the full columns |
| Game.FirstMaxIndex | main.py:69-76 | the strict `>` against a running best finds nothing for an empty list; otherwise it finds an entry no entry exceeds, with every earlier entry strictly smaller |
| Game.BestMove | main.py:67-78 | None exactly when no block has a legal anchor; otherwise a legal move whose score no legal move beats, and the first such in block-then-row-major order |
| Game.CheckGameOver | main.py:470-482 | won exactly when the diamond sum is 0, which is checked first; lost exactly when diamonds remain and no block has a possible move |
| Game.FullBoardIsLost | main.py:476-481 | a board with every cell occupied and a diamond left is a lost game |
| Plans.ValidAppend | blind_search.py:52-53 | a plan extended by one move is valid exactly when the plan is valid and the move is generated where the plan ends |
| Plans.ValidPrepend | blind_search.py:186-189 | a plan that starts with m is valid exactly when m is generated first and the rest is valid from the state after m |
| Plans.ClosedSetHoldsReachable | blind_search.py:41-44 | a set of states that holds the start and is closed under generated moves holds every state that a valid plan reaches |
| Space.ExpandIsLegalMoves | blind_search.py:46-50 | the moves generated at a state are exactly the legal moves on the board the generator reads |
| Space.RunStaysInSpace | blind_search.py:51 | every state that a valid plan reaches has the start's size |
| Space.CurrentPlansAreLegal | blind_search.py:46-50 | when moves are generated from the board being expanded, every move of a valid plan is legal on the board it is played on |
| Order.LexTransitive | informed.py:127 | Python's list comparison, used on tied heap tuples, is transitive when the element order is a strict order |
| Order.LexTotal | informed.py:127 | Python's list comparison tells any two different lists apart when the element order is total |
| Order.StateOrder | informed.py:127 | comparing (board, diamonds) pairs as Python does is a strict total order on states |
| Search.KeyLessIsStrict | informed_search.py:142 | the heap's tuple order is irreflexive and transitive for every algorithm |
| Search.PopIndex | blind_search.py:37 | the popped entry is the head for BFS and the tail for DFS; for every discipline no frontier entry has a strictly smaller key |
| Search.OffspringFacts | informed_search.py:131-143 | each pushed entry is the successor of a generated move, counted in push order; every generated move is pruned or its successor pushed; a pruning search pushes no state of the closed set it is given, which `Invariant.Turn` passes with the expanded state already added, as weighted A* does at informed_search.py:201 before line 209 |
| Search.ChildOk | informed_search.py:138-142 | the entry pushed for a generated move is one move deeper, its path reaches its state, and its priority is the one its algorithm computes (UCS: parent cost + 1) |
| Invariant.Turn | blind_search.py:36-53 | one iteration either drops an already-expanded entry from the frontier and leaves the trace alone, or appends the popped entry to the trace of expansions |
| Invariant.Advance | blind_search.py:41-53 | an iteration that pops a non-goal keeps the frontier invariant (every entry's path is valid and reaches its state, every successor of an expanded state is closed or on the frontier) and the depth invariant |
| Invariant.GoalPopped | blind_search.py:38-39 | a popped goal with a non-empty path is reached by a valid plan; with an empty path the start itself is the goal; for BFS and UCS no solving plan is shorter |
| Invariant.GoalPoppedIsShortest | blind_search.py:36-39 | when BFS or UCS pops a goal, no valid plan that removes every diamond is shorter than its path |
| Invariant.EmptyFrontierShowsUnsolvable | blind_search.py:55 | when the frontier empties, the closed set shows that no valid plan from the start reaches a state without diamonds |
| Engine.Next | blind_search.py:36-53 | one iteration past the goal test keeps both invariants and either shrinks the frontier or expands one more state |
| Engine.Drive | blind_search.py:36-53 | the loop stops at a popped goal, at an empty frontier, or once fuel states have been expanded, with both invariants holding; a goal start expands nothing |
| Engine.Explore | blind_search.py:36-55 | a returned move is the first move of a valid plan that reaches a goal, a shortest one for BFS and UCS; no move means the start is a goal or no plan reaches one; running out of fuel means fuel distinct states were expanded, so below that bound a move is found exactly when a solving plan exists |
| Blind.BreadthFirst | blind_search.py:17-55 | the first move of a shortest plan of legal moves that removes every diamond, or no move only when the start is a goal or no plan exists; below the fuel bound a move is found exactly when a plan exists; states are expanded once and in nondecreasing path length |
| Blind.DepthFirst | blind_search.py:66-102 | the same verdicts, without the shortest-plan guarantee; each expansion is at most one move deeper than the one before it, since the last-pushed successor is popped next |
| Blind.UniformCost | blind_search.py:112-152 | the same verdicts, again with a shortest plan; expanded costs never decrease, each cost is the path length, and tie counters are distinct |
| Blind.TraceWithin | blind_search.py:41-44 | a search expands each state at most once, so it expands no more states than there are states reachable from the start |
| Blind.Dls | blind_search.py:179-192 | a success extends the given path by at most limit moves, and its first new move is one the generator offers at s |
| Blind.TryMoves | blind_search.py:184-191 | the loop over the generated moves from the k-th on: a success extends the path by one to limit moves, the first of them a generated move at position k or later |
| Blind.FirstSuccess | blind_search.py:173-177 | the limit loop: nothing exactly when every depth-limited search from `from` to max_depth fails; otherwise the result of some depth d in that range, with every smaller depth failing |
| Blind.DlsSound | blind_search.py:179-192 | what depth-limited search returns extends the given path by at most limit moves that solve the state |
| Blind.DlsComplete | blind_search.py:179-192 | if some plan of at most limit moves solves the state, depth-limited search finds one |
| Blind.Deepening | blind_search.py:173-177 | trying limits 1 to max_depth returns a shortest solving plan, or nothing when every solving plan is longer than max_depth; the plan is the one the first successful depth-limited search returns |
| Blind.IterativeDeepening | blind_search.py:163-192 | as written: a shortest plan in the space whose moves are read from the start board at every depth, the one the first successful depth returns, or nothing when none has at most max_depth moves |
| Blind.IterativeDeepeningLive | blind_search.py:163-192 | with moves read from the board being expanded: a shortest plan of legal moves that removes every diamond, or nothing when none has at most max_depth moves |
| Blind.EntriesReach | informed_search.py:138-142 | every expanded entry's path is a valid plan leading to its state, and its priority is the one its algorithm computes |
| Informed.GreedyBestFirst | informed_search.py:25-70 | the same verdicts as DFS (a legal solving plan, no move only without one, and below the fuel bound a move exactly when a plan exists); every expanded non-start entry has priority equal to the diamonds left after its last move, and tie counters are distinct |
| Informed.AStar | informed_search.py:90-146 | corrected to close states, as weighted A* does (informed_search.py:199-209): the same verdicts; every expanded entry has f = g + h with g its path length and h the diamonds left, and no state is expanded twice |
| KeyClosed.PassKeeps | informed_search.py:120-143 | a pass of the loop as written that pops a non-goal appends it to the trace and keeps the invariant: every entry's path is valid and reaches its state; no heap key is closed, and the only state hash ever closed is the start's; every successor of an expanded state is the start, on the heap or expanded; an expanded state other than the start that some move maps to itself is back on the heap |
| KeyClosed.Exhausted | informed_search.py:146 | when the heap of the as-written loop empties, no valid plan from the start reaches a goal, and no reachable state other than the start has a move leading back to itself |
| KeyClosed.Explore | informed_search.py:112-146 | as written: a returned move is the first of a valid plan that reaches a goal; no move means the start is a goal, or no plan reaches one and no reachable state except the start loops back to itself; below the fuel bound a move is found exactly when a plan exists; expansions need not be of distinct states |
| Informed.AStarAsWritten | informed_search.py:90-146 | `AStarSearch.get_best_move` as written, with moves read from the board being expanded: a found move starts a legal plan that removes every diamond; no move means the start is a goal or no plan removes them all and no reachable state other than the start maps to itself; below the fuel bound a move is found exactly when a plan exists; f = g + h |
| Informed.WeightedAStar | informed_search.py:170-218 | the same verdicts; every expanded entry has f = g + w * h |
| Legacy.GreedyScore | informed.py:14-31 | on a valid state the one-step score is never below -25, and for a move that fits it is at most the diamonds present plus n * n - 25, so at most the diamonds present on a 5-by-5 board |
| Legacy.GreedyScoreCountsOccupied | informed.py:23-31 | on a valid 5-by-5 board, 25 minus the empty cells is the number of occupied cells: the score is the diamonds removed minus the cells still filled after the move |
| Legacy.BestByScore | informed.py:38-49 | for any score: None exactly when no legal move exists; otherwise a legal move with the highest score, the first such one |
| Legacy.OneStepGreedy | informed.py:33-49 | the one-step greedy returns None exactly when no move is legal on the current board, otherwise the first legal move of highest greedy score |
| Legacy.WeightedAStar | informed.py:152-197 | as written: a returned move starts a plan that removes every diamond in the space whose moves are read from the start board; no move means none exists there, and below the fuel bound a move is found exactly when one exists; priorities are g + w * h |
| Legacy.AStar | informed.py:75-130 | as written: weighted A* with w = 1, with the same stale move source |
| Legacy.WeightedAStarLive | informed.py:152-197 | with moves read from the board being expanded: a returned move starts a plan of legal moves that removes every diamond; no move means no valid plan removes them, and below the fuel bound a move is found exactly when one does |
| Legacy.AStarLive | informed.py:75-130 | A* with moves read from the board being expanded: the same verdicts as the weighted form, with priorities g + h |
| Findings.StaleAcceptsOverlap | informed.py:115-117 | a start-board move source accepts as solving a plan whose second move lands on a cell its first move filled |
| Findings.LiveRejectsOverlap | blind_search.py:46-49 | with moves read from the board being expanded, that plan is not valid |
| Findings.StaleDeepMoves | blind_search.py:184-185 | on the start board of the deepening example exactly three moves are legal, the bar at (1, 0), the vertical bar at (0, 1) and the square at (0, 0), in that order, and a start-board move source offers these three at every 3-by-3 state it expands |
| Findings.DepthOneFails | blind_search.py:179-192 | from a state shaped like that start, depth-limited search with limit 1 over the start board's moves finds nothing |
| Findings.DepthTwoReturns | blind_search.py:179-192 | with limit 2 it returns the square at (0, 0) followed by the middle bar, after the first two branches fail |
| Findings.ReturnedPlaysIllegally | main.py:31-38 | the returned middle bar lands on the centre cell the square has just filled, so the plan is not a legal sequence of moves |
| Findings.StaleDeepeningReturnsIllegal | blind_search.py:169-192 | as written, iterative deepening from that start with max_depth at least 2 returns that illegal plan |
| Findings.WeightOneTiesDiffer | informed_search.py:142 | from the empty 3-by-3 board with a diamond at (2, 0), the bottom bar and the left-column bar reach the same state without diamonds; on that (f, g) tie A*'s counter order prefers the bar pushed first, while weighted A* with w = 1 prefers the left-column bar through the state-then-path order of informed_search.py:216 |
| Findings.LoopMovesOnly | informed_search.py:131-133 | on the 3-by-3 board with blocks at (1, 1) and (2, 2), the only moves generated are the top bar and the left-column bar |
| Findings.LoopStep | informed_search.py:134-135 | from a state on that board with a diamond at (2, 1), the top bar leads back to the same state and the left-column bar to the state without the diamond at (2, 0); neither is a goal |
| Findings.LoopReach | informed_search.py:131-143 | from such a state with a diamond at (2, 0), every valid plan ends in it or in the state y its left column leads to, no plan removes every diamond, and the top bar is generated at y and leads back to y |
| Findings.LoopFewStates | informed_search.py:131-143 | from that start no plan removes every diamond, and the valid plans reach at most two states |
| Findings.CounterClosingNeverGivesUp | informed_search.py:120-146 | from that start, A* as written never answers no move, whatever the fuel: it runs out of fuel |
| Findings.StateClosingGivesUp | informed_search.py:199-218 | from the same start, A* corrected to close states, as weighted A* does, answers no move once the fuel exceeds 2 |
| Findings.LiveSolvesDeepStart | blind_search.py:46-49 | reading moves from the board being expanded, the middle bar then the top bar is a legal two-move solution from the same start |
| Cells.CellsWhere | mateo.py:92-94 | the nested loops visit exactly the cells of the box that pass the test, in strictly increasing row-major order |
| Cells.CellsBound | mateo.py:32-33 | a rows-by-cols box has at most rows * cols passing cells |
| Mateo.CountEmptySpaces | mateo.py:26-36 | the count is the number of cells free in both layers, and at most 25 |
| Mateo.HeuristicBounds | mateo.py:42-56 | the heuristic is 5 per diamond still to place plus between 0 and 25 |
| Mateo.CanPlaceDiamond | mateo.py:63-77 | false outside the 5-by-5 board; inside it, true exactly when both layers are 0 at the cell |
| Mateo.Successors | mateo.py:84-117 | none once no diamond is left to place; otherwise one successor per free cell in row-major order, each with a diamond at that cell only, the blocks layer unchanged, one diamond fewer, g + 1, the parent link and h recomputed |
| Mateo.SuccessorPlacesOnEmpty | mateo.py:94-100 | the k-th successor puts its diamond on a cell that was free in both layers |
| Mateo.Path | mateo.py:182-193 | the path runs root first: the root has no parent, the last node is the given one, and each node's parent is the node before it |
| Mateo.PathToGoal | mateo.py:182-193 | a goal reached by successor steps from the start gives a path from the start with g = k and one diamond fewer at step k |
| Mateo.AStarSearch | mateo.py:135-179 | a returned path starts at the start node, steps from successor to successor, ends with no diamond left to place, and has node k at g = k; None means no node descending from the start is a goal; below the fuel bound a path is returned exactly when such a goal exists |
| Mateo.NextRespectsKeys | mateo.py:166-175 | nodes with the same `board_to_tuple` key have successors with the same keys, so pruning by key loses no reachable state |
| Mateo.ExhaustedNoGoal | mateo.py:178-179 | once the open list is empty, no node that descends from the start is a goal |
| Mateo.ExpandedWithin | mateo.py:166-169 | each key is expanded once, so no more nodes are expanded than there are keys of descendants |
| Keyed.ExpandTracked | mateo.py:165-176 | closing the popped key and pushing its successors keeps the bookkeeping: the closed set is the set of expanded keys, each expanded once, and every successor of an expanded node is closed or open |
| Keyed.ReachClosed | mateo.py:178-179 | with the open list empty and successors that respect keys, every node reachable from the start has its key closed |
| Keyed.KeysWithin | mateo.py:166-169 | nodes with distinct keys drawn from a set are no more than the set's size |
| Heuristics.Successors | heuristics.py:17-33 | one successor per 1-cell in row-major order, each with that cell set to 0 and no other cell changed, one diamond fewer, and the cell appended to the path |
| Heuristics.ChildCost | heuristics.py:41-45 | collecting a diamond lowers the total cost by 8: one more path step, 10 less for the diamond, one more zero cell |
| Heuristics.DerivedChild | heuristics.py:23-29 | collecting a 1-cell of a state derived from the start gives a derived state: the collected cells stay distinct 1-cells of the start matrix |
| Heuristics.AStar | heuristics.py:47-67 | a returned path extends the start's path by distinct cells that were 1 in the start matrix, exactly as many as the start says are left; None means no reachable state is a goal; below the fuel bound a path is returned exactly when one is |
| Heuristics.SameMatrixSameRemaining | heuristics.py:54-59 | two states derived from the start with the same matrix have the same count left, so keying `visitados` on the matrix alone loses no goal |
| Heuristics.ExhaustedNoGoal | heuristics.py:67 | once the frontier is empty, no state reachable from the start is a goal |

## Left out

- The GUI is not modelled: widgets, drawing, click handling, the flashing animation and its timers. Only the grid logic inside `commit_move`, `clear_complete_lines`, `_clear_lines` and `check_game_over` is modelled.
- Random board generation (`generate_board`) is not modelled, because it depends on `random`.
- simultation.py is not modelled. It is a benchmarking driver with wall-clock timing, threads and plotting.
- The demo scripts at the ends of informed.py, mateo.py and heuristics.py are not modelled.
- algorithms.py is an abstract interface with no behaviour, and its constructor does not match the subclasses' calls. The helpers the searches inherit are built from main.py instead, as described above.
- `hash_state` is the identity on the (board, diamonds) state, so explored and closed sets are sets of states. A* is the exception: its closed set receives the third heap slot, which is a state hash only for the start entry and the integer push counter for every child (informed_search.py:114, 142). Since a state hash is a tuple, it never equals a counter. `KeyClosed.Key` keeps the two apart.
- `apply_move` is main.py's placement followed by clearing, and does not check legality. Moves that do not fit the board are never generated, and for them `Space.Step` returns the state unchanged.
- The printing in `best_move`, `clear_complete_lines` and `_clear_lines` is not modelled.
- Engine.Explore: every search loop stops after fuel expansions, and running out gives `OutOfFuel`. The source's loops are unbounded; below the bound the model's verdicts are the source's.
- Blind.DepthFirst: no claim is made about which goal is found first, only that its plan is valid. The same holds for the informed searches.
- Blind.IterativeDeepening: it requires a start with diamonds left. From a goal start the source indexes the empty path and fails.
- Legacy.AStar: the heap tuples of informed.py hold no counter, so ties on (f, g) fall to Python's comparison of states and then of paths. The model orders them with `Order`; heapq's ties among fully equal keys are resolved by the first least entry.
- Informed.WeightedAStar: with w = 1 it does not behave like Informed.AStar, because the source breaks (f, g) ties differently. A* compares its push counter (informed_search.py:142), while weighted A* has no counter and compares the state and then the path (informed_search.py:216). The model keeps both orders. `Findings.WeightOneTiesDiffer` shows the difference on the empty 3-by-3 board with one diamond at (2, 0). There the bottom bar and the left-column bar reach the same empty state, with f = 1 and g = 1. A* prefers the bottom bar, which is pushed first, while weighted A* with w = 1 prefers the left-column bar, whose block `[[1],[1],[1]]` compares smaller than `[[1,1,1]]`. The claim that the two searches then return these different first moves is not proved.
- Informed.WeightedAStar: the weight w is a real, not an IEEE float. Its default of 1.5 is `Informed.DefaultWeight`. f is compared as an exact real.
- Informed.AStar: it is the corrected search, and closes states rather than heap keys; `Informed.AStarAsWritten` models the loop as written. The start entry's third tuple slot holds the state hash, while the children hold the integer counter. For heap order the model gives the start counter -1, which keeps the counters distinct. No child ties with the start on g, so that slot is never compared against the start's.
- Informed.AStarAsWritten: its no-move verdict is weaker than the corrected search's. The heap can empty only when no reachable state other than the start loops back to itself, and the model proves that, not a bound on the number of expansions.
- Informed.GreedyBestFirst: the start entry is scored with the first block at (0, 0), legal or not, as the source does. That priority is not constrained by the model.
- Search.PopIndex: `heapq` is modelled as taking the first entry with no strictly smaller key. Ties among equal keys in a real heap depend on its layout.
- Mateo.AStarSearch: it is bounded by fuel. Ties on f are broken by the first least node rather than by heapq's layout.
- Mateo.AStarSearch: it requires both layers to be at least 5-by-5 (`Mateo.Readable`), because mateo.py's loops index cells 0 to 4 whatever the board size. Smaller boards make the source raise `IndexError`, which is not modelled. mateo.py's `main` passes only 5-by-5 boards.
- Heuristics.AStar: it is bounded by fuel, and ties on total cost are broken by the first cheapest state. The mutable default `camino=[]` is never mutated by the source, so a plain empty path models it.
- Legacy.GreedyScore: the score assumes 25 cells, as informed.py writes it, whatever the board size. Only on a 5-by-5 board is its upper bound the number of diamonds present, and only there is 25 minus the empty cells the number of occupied cells.
- A* optimality is not claimed. The remaining-diamond heuristic can overestimate, because one placement can clear a whole line holding several diamonds.
- The `float('-inf')` sentinels of the arg-max loops become `Option`.

## Findings

| source | as written | input that shows it | evidently intended | confidence | as-written member | corrected member |
|---|---|---|---|---|---|---|
| blind_search.py:184-185 | `depth_limited_search` calls `possible_moves`, which reads `self.board`; that board is set to the start board once (line 169) and never re-pointed, so every depth lists the start board's anchors | 3-by-3 board with cells (0, 2), (2, 0) and (2, 2) occupied and diamonds at (0, 0), (0, 1) and (1, 2); with max_depth at least 2 the search returns the square at (0, 0) then the horizontal bar at (1, 0), and the bar lands on the centre cell the square filled, while the middle bar then the top bar is a legal solution | moves generated from the board being expanded, as BFS, DFS and UCS do (blind_search.py:46) | not executed | Blind.IterativeDeepening, Findings.StaleDeepeningReturnsIllegal | Blind.IterativeDeepeningLive, Findings.LiveSolvesDeepStart |
| informed.py:115-117 | A* expands every state with `possible_moves` on the start board, since `self.board` is never set to `board_current` | 3-by-3 empty board, one diamond at (2, 0): the space of start-board moves counts the square at (0, 0) then the vertical bar at (0, 0) as a plan that removes every diamond, although the bar lands on a cell the square filled | moves generated from the board being expanded, as informed_search.py:129 does | not executed | Legacy.AStar, Findings.StaleAcceptsOverlap | Legacy.AStarLive, Findings.LiveRejectsOverlap |
| informed.py:183-185 | weighted A* has the same stale move source | the same board and plan | moves generated from the board being expanded | not executed | Legacy.WeightedAStar, Findings.StaleAcceptsOverlap | Legacy.WeightedAStarLive, Findings.LiveRejectsOverlap |
| informed_search.py:120-142 | A* pops the third heap slot as `state_hash` and closes it, but only the start entry holds a state hash there (line 114); every child holds `node_counter` (line 142). Children are never skipped, states are expanded again, and the successor test at line 136 leaves out only successors equal to the start | 3-by-3 board with blocks at (1, 1) and (2, 2) and diamonds at (2, 0) and (2, 1) (`Findings.LoopStart`): the left-column bar leads to a state that the top bar maps to itself, and no plan removes every diamond; as written that state is pushed again at every expansion, so the heap never empties and `None` is never returned | close the popped state's hash, as weighted A* does (informed_search.py:199-209) | not executed | Informed.AStarAsWritten, Findings.CounterClosingNeverGivesUp | Informed.AStar, Findings.StateClosingGivesUp |
