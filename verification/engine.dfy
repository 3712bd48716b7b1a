/**
 * The frontier loop itself.  One iteration pops the entry the algorithm
 * chooses; a popped state without diamonds ends the search with the first
 * move of its path (or with no move when the path is empty); a popped state
 * already expanded is skipped; any other state is closed, recorded in the
 * trace of expansions, and its successors are pushed.
 */
module Engine {
  import opened Board
  import opened Blocks
  import opened Plans
  import opened Space
  import opened Search
  import opened Invariant

  /** One iteration past the goal test, keeping both invariants. */
  method Next(next: (State, Move) -> State, succ: (Setting, State) -> seq<Move>,
              alg: Algorithm, c: Setting, init: State, L: Loop)
      returns (L': Loop)
    requires alg.Greedy? ==> |c.cat| > 0
    requires Holds(next, succ, alg, c, init, L)
    requires |L.frontier| > 0 && !IsGoal(L.frontier[PopIndex(alg, L.frontier)].state)
    ensures Holds(next, succ, alg, c, init, L')
    ensures |L.trace| == 0 ==> !IsGoal(init)
    ensures || (L'.trace == L.trace && |L'.frontier| == |L.frontier| - 1)
            || |L'.trace| == |L.trace| + 1
  {
    Advance(next, succ, alg, c, init, L);
    L' := Turn(next, succ, alg, c, L);
  }

  /**
   * The loop itself: it stops at a popped goal, at an empty frontier or once
   * fuel states have been expanded, keeping both invariants throughout.
   */
  method Drive(next: (State, Move) -> State, succ: (Setting, State) -> seq<Move>,
               alg: Algorithm, c: Setting, init: State, fuel: nat)
      returns (L: Loop, goal: bool)
    requires alg.Greedy? ==> |c.cat| > 0
    ensures Inv(next, succ, alg, c, init, L.frontier, L.closed, L.trace, L.counter)
    ensures ShortInv(next, succ, alg, c, init, L.frontier, L.closed, L.trace)
    ensures |L.trace| <= fuel
    ensures IsGoal(init) ==> |L.trace| == 0
    ensures goal ==> |L.frontier| > 0 && IsGoal(L.frontier[PopIndex(alg, L.frontier)].state)
    ensures !goal ==> |L.frontier| == 0 || |L.trace| == fuel
  {
    L := Loop([Start(next, alg, c, init)], {}, [], FirstCounter(alg));
    InitInv(next, succ, alg, c, init);
    InitShort(next, succ, alg, c, init);
    while |L.frontier| > 0 && |L.trace| < fuel && !IsGoal(L.frontier[PopIndex(alg, L.frontier)].state)
      invariant Holds(next, succ, alg, c, init, L)
      invariant |L.trace| <= fuel
      invariant IsGoal(init) ==> |L.trace| == 0
      decreases fuel - |L.trace|, |L.frontier|
    {
      L := Next(next, succ, alg, c, init, L);
    }
    goal := |L.frontier| > 0 && |L.trace| < fuel;
  }

  /**
   * The shared search loop, stopped once fuel states have been expanded
   * (skipping a closed entry costs nothing).  A found move is the first move
   * of a valid plan that ends without diamonds, and breadth-first and
   * uniform-cost search find a shortest one; no move means the start has no
   * diamond or no valid plan removes them all; running out of fuel means
   * fuel distinct states were expanded.  So while fuel is left, a move is
   * found exactly when some valid plan removes every diamond.  The trace
   * lists the expanded entries in order, each state once.
   */
  method Explore(next: (State, Move) -> State, succ: (Setting, State) -> seq<Move>,
                 alg: Algorithm, c: Setting, init: State, fuel: nat)
      returns (r: Outcome, plan: seq<Move>, trace: seq<Entry>)
    requires alg.Greedy? ==> |c.cat| > 0
    ensures r.Found? ==> |plan| > 0 && plan[0] == r.move
    ensures r.Found? ==> ValidPlan(next, succ, c, init, plan) && IsGoal(Run(next, init, plan))
    ensures Shallowest(alg) && r.Found? ==> forall q :: SolvedBy(next, succ, c, init, q) ==> |plan| <= |q|
    ensures r.NoMove? ==> IsGoal(init) || AlwaysHolds(next, succ, c, NotGoal, init)
    ensures IsGoal(init) && fuel > 0 ==> r == NoMove
    ensures r.OutOfFuel? ==> |trace| == fuel
    ensures !IsGoal(init) && |trace| < fuel ==> (r.Found? <==> !AlwaysHolds(next, succ, c, NotGoal, init))
    ensures |trace| <= fuel
    ensures Expansions(next, succ, alg, c, init, trace)
  {
    var L, goal := Drive(next, succ, alg, c, init, fuel);
    if goal {
      var e := L.frontier[PopIndex(alg, L.frontier)];
      GoalPopped(next, succ, alg, c, init, L);
      plan, trace := e.path, L.trace;
      r := if |e.path| == 0 then NoMove else Found(e.path[0]);
      return;
    }
    plan := [];
    Finished(next, succ, alg, c, init, L.frontier, L.closed, L.trace, L.counter);
    trace := L.trace;
    if |L.frontier| == 0 {
      r := NoMove;
    } else {
      r := OutOfFuel;
    }
  }
}
