/**
 * The informed searches of informed_search.py: greedy best-first search
 * ordered by the number of diamonds left, A* with f = g + h, and weighted A*
 * with f = g + w * h, where g is the length of the path and h the number of
 * diamonds left.  All three re-point the move generator at the board of the
 * state they expand.  Greedy search and weighted A* close the states they
 * expand.  A* as written closes heap keys instead (see KeyClosed); the
 * state-closing A* here is its corrected form, which leaves out successors
 * whose state is already closed, as weighted A* does.
 */
module Informed {
  import opened Blocks
  import opened Moves
  import opened Board
  import opened Plans
  import opened Space
  import opened Search
  import opened Invariant
  import opened Engine
  import opened Blind
  import KeyClosed

  /** The default weight of weighted A*. */
  const DefaultWeight: real := 1.5

  /**
   * `GreedySearch.get_best_move`: the heap is ordered by the number of
   * diamonds left after the move that produced the entry, ties by push
   * order; every expanded state is expanded once.
   */
  method GreedyBestFirst(init: State, fuel: nat) returns (r: Outcome, plan: seq<Move>, trace: seq<Entry>)
    requires init.Square()
    ensures r.Found? ==> |plan| > 0 && plan[0] == r.move && Solves(LiveSetting(init), init, plan)
    ensures r.Found? ==> PlaysLegally(Catalogue, init, plan)
    ensures r.NoMove? ==> IsGoal(init) || Unsolvable(LiveSetting(init), init)
    ensures IsGoal(init) && fuel > 0 ==> r == NoMove
    ensures r.OutOfFuel? ==> |trace| == fuel
    ensures !IsGoal(init) && |trace| < fuel ==> (r.Found? <==> !Unsolvable(LiveSetting(init), init))
    ensures |trace| <= fuel && NoGoal(trace) && DistinctStates(trace) && CountersDistinct(trace)
    ensures TraceReaches(LiveSetting(init), init, trace)
    ensures forall k :: 0 <= k < |trace| && |trace[k].path| > 0 ==> trace[k].prio == H(trace[k].state)
  {
    r, plan, trace := Explore(Step, Expand, Greedy, LiveSetting(init), init, fuel);
    if r.Found? {
      LivePlansAreLegal(init, plan);
    }
    EntriesReach(Step, Expand, Greedy, LiveSetting(init), init, trace);
  }

  /**
   * `AStarSearch.get_best_move` corrected to close the popped state's hash,
   * as weighted A* does: each expanded entry stores f = g + h with g the
   * length of its path, each state is expanded once, and successors whose
   * state is closed are not pushed.
   */
  method AStar(init: State, fuel: nat) returns (r: Outcome, plan: seq<Move>, trace: seq<Entry>)
    requires init.Square()
    ensures r.Found? ==> |plan| > 0 && plan[0] == r.move && Solves(LiveSetting(init), init, plan)
    ensures r.Found? ==> PlaysLegally(Catalogue, init, plan)
    ensures r.NoMove? ==> IsGoal(init) || Unsolvable(LiveSetting(init), init)
    ensures IsGoal(init) && fuel > 0 ==> r == NoMove
    ensures r.OutOfFuel? ==> |trace| == fuel
    ensures !IsGoal(init) && |trace| < fuel ==> (r.Found? <==> !Unsolvable(LiveSetting(init), init))
    ensures |trace| <= fuel && NoGoal(trace) && DistinctStates(trace) && CountersDistinct(trace)
    ensures TraceReaches(LiveSetting(init), init, trace)
    ensures forall k :: 0 <= k < |trace| ==> trace[k].prio == |trace[k].path| as real + H(trace[k].state)
  {
    r, plan, trace := Explore(Step, Expand, Search.AStar, LiveSetting(init), init, fuel);
    if r.Found? {
      LivePlansAreLegal(init, plan);
    }
    EntriesReach(Step, Expand, Search.AStar, LiveSetting(init), init, trace);
  }

  /**
   * `AStarSearch.get_best_move` as written: the closed set holds the start's
   * hash and the push counters of expanded children, so states may be
   * expanded again and only successors equal to the start are left out.  A
   * found move is still the first of a legal plan that removes every
   * diamond, but no move is answered only when, besides no plan removing
   * them all, no reachable state other than the start has a move back to
   * itself.
   */
  method AStarAsWritten(init: State, fuel: nat) returns (r: Outcome, plan: seq<Move>, trace: seq<Entry>)
    requires init.Square()
    ensures r.Found? ==> |plan| > 0 && plan[0] == r.move && Solves(LiveSetting(init), init, plan)
    ensures r.Found? ==> PlaysLegally(Catalogue, init, plan)
    ensures r.NoMove? ==> IsGoal(init) || Unsolvable(LiveSetting(init), init)
    ensures r.NoMove? && !IsGoal(init) ==>
              forall p :: ValidPlan(Step, Expand, LiveSetting(init), init, p) ==>
                Run(Step, init, p) == init || !KeyClosed.Loops(Step, Expand, LiveSetting(init), Run(Step, init, p))
    ensures IsGoal(init) && fuel > 0 ==> r == NoMove
    ensures r.OutOfFuel? ==> |trace| == fuel
    ensures !IsGoal(init) && |trace| < fuel ==> (r.Found? <==> !Unsolvable(LiveSetting(init), init))
    ensures |trace| <= fuel && NoGoal(trace)
    ensures TraceReaches(LiveSetting(init), init, trace)
    ensures forall k :: 0 <= k < |trace| ==> trace[k].prio == |trace[k].path| as real + H(trace[k].state)
  {
    r, plan, trace := KeyClosed.Explore(Step, Expand, LiveSetting(init), init, fuel);
    if r.Found? {
      LivePlansAreLegal(init, plan);
    }
    AStarEntries(init, trace);
  }

  /** Every entry A* expands is reached by its path and has f = g + h. */
  lemma AStarEntries(init: State, trace: seq<Entry>)
    requires AllOk(Step, Expand, Search.AStar, LiveSetting(init), init, trace)
    ensures TraceReaches(LiveSetting(init), init, trace)
    ensures forall k :: 0 <= k < |trace| ==> trace[k].prio == |trace[k].path| as real + H(trace[k].state)
  {
    EntriesReach(Step, Expand, Search.AStar, LiveSetting(init), init, trace);
  }

  /**
   * `WeightedAStarSearch.get_best_move` with weight w: each expanded entry
   * stores f = g + w * h; ties fall to g, then to the state, then to the path.
   */
  method WeightedAStar(init: State, w: real, fuel: nat) returns (r: Outcome, plan: seq<Move>, trace: seq<Entry>)
    requires init.Square()
    ensures r.Found? ==> |plan| > 0 && plan[0] == r.move && Solves(LiveSetting(init), init, plan)
    ensures r.Found? ==> PlaysLegally(Catalogue, init, plan)
    ensures r.NoMove? ==> IsGoal(init) || Unsolvable(LiveSetting(init), init)
    ensures IsGoal(init) && fuel > 0 ==> r == NoMove
    ensures r.OutOfFuel? ==> |trace| == fuel
    ensures !IsGoal(init) && |trace| < fuel ==> (r.Found? <==> !Unsolvable(LiveSetting(init), init))
    ensures |trace| <= fuel && NoGoal(trace) && DistinctStates(trace)
    ensures TraceReaches(LiveSetting(init), init, trace)
    ensures forall k :: 0 <= k < |trace| ==> trace[k].prio == WeightedF(w, |trace[k].path|, trace[k].state)
  {
    r, plan, trace := Explore(Step, Expand, Search.WeightedAStar(w), LiveSetting(init), init, fuel);
    if r.Found? {
      LivePlansAreLegal(init, plan);
    }
    EntriesReach(Step, Expand, Search.WeightedAStar(w), LiveSetting(init), init, trace);
  }
}
