/**
 * The uninformed searches of blind_search.py.  Breadth-first, depth-first
 * and uniform-cost search are the shared frontier loop with a queue, a
 * stack and a (cost, counter) heap; each re-points the move generator at the
 * board of the state it expands.  Iterative deepening runs a recursive
 * depth-limited search for limits 1, 2, ..., max_depth; it sets the move
 * generator's board once, to the start board, and never again.
 */
module Blind {
  import opened Wrappers
  import opened Blocks
  import opened Moves
  import opened Board
  import opened Plans
  import opened Space
  import opened Search
  import opened Invariant
  import opened Engine
  import opened Keyed

  /** The setting of a search that generates moves from the board of the state it expands. */
  function LiveSetting(init: State): Setting {
    Setting(Current, Catalogue, init.Size())
  }

  /** The setting of a search whose move generator keeps reading the start board. */
  function StaleSetting(init: State): Setting {
    Setting(Fixed(init.board), Catalogue, init.Size())
  }

  /** Under the live setting, every move of a valid plan is legal on the board it is played on. */
  lemma LivePlansAreLegal(init: State, plan: seq<Move>)
    requires init.Square() && ValidPlan(Step, Expand, LiveSetting(init), init, plan)
    ensures PlaysLegally(Catalogue, init, plan)
  {
    CataloguesOk();
    CurrentPlansAreLegal(LiveSetting(init), init, plan);
  }

  /** Every expanded entry's path is a valid plan from the start that leads to its state. */
  ghost predicate TraceReaches(c: Setting, init: State, trace: seq<Entry>) {
    forall k :: 0 <= k < |trace| ==> Reaches(c, init, trace[k].path, trace[k].state)
  }

  /**
   * Every well-formed entry's path is a valid plan from the start that leads
   * to its state, and its stored priority is the one its algorithm computes.
   */
  lemma EntriesReach(next: (State, Move) -> State, succ: (Setting, State) -> seq<Move>,
                     alg: Algorithm, c: Setting, init: State, trace: seq<Entry>)
    requires AllOk(next, succ, alg, c, init, trace)
    ensures forall k :: 0 <= k < |trace| ==>
              ValidPlan(next, succ, c, init, trace[k].path) && Run(next, init, trace[k].path) == trace[k].state
    ensures forall k :: 0 <= k < |trace| ==> PrioOk(alg, trace[k])
  {
    forall k | 0 <= k < |trace|
      ensures ValidPlan(next, succ, c, init, trace[k].path) && Run(next, init, trace[k].path) == trace[k].state
      ensures PrioOk(alg, trace[k])
    {
      assert EntryOk(next, succ, alg, c, init, trace[k]);
    }
  }

  /**
   * The trace cannot outgrow the reachable states: when every state a valid
   * plan reaches lies in S, at most |S| states are expanded, so a fuel above
   * |S| never runs out.
   */
  lemma TraceWithin(c: Setting, init: State, trace: seq<Entry>, S: set<State>)
    requires TraceReaches(c, init, trace) && DistinctStates(trace)
    requires forall p :: ValidPlan(Step, Expand, c, init, p) ==> Run(Step, init, p) in S
    ensures |trace| <= |S|
  {
    forall k | 0 <= k < |trace|
      ensures trace[k].state in S
    {
      assert Reaches(c, init, trace[k].path, trace[k].state);
    }
    KeysWithin((e: Entry) => e.state, trace, S);
  }

  // ---------------------------------------------------------------------------
  // Breadth-first, depth-first and uniform-cost search

  /**
   * `BFS.get_best_move`: states leave the queue in nondecreasing path length,
   * each is expanded at most once, and the move returned starts a plan of
   * legal moves that removes every diamond.
   */
  method BreadthFirst(init: State, fuel: nat) returns (r: Outcome, plan: seq<Move>, trace: seq<Entry>)
    requires init.Square()
    ensures r.Found? ==> |plan| > 0 && plan[0] == r.move && Solves(LiveSetting(init), init, plan)
    ensures r.Found? ==> PlaysLegally(Catalogue, init, plan)
    ensures r.NoMove? ==> IsGoal(init) || Unsolvable(LiveSetting(init), init)
    ensures IsGoal(init) && fuel > 0 ==> r == NoMove
    ensures r.OutOfFuel? ==> |trace| == fuel
    ensures !IsGoal(init) && |trace| < fuel ==> (r.Found? <==> !Unsolvable(LiveSetting(init), init))
    ensures r.Found? ==> forall q :: Solves(LiveSetting(init), init, q) ==> |plan| <= |q|
    ensures |trace| <= fuel && NoGoal(trace) && DistinctStates(trace) && DepthSorted(trace)
    ensures TraceReaches(LiveSetting(init), init, trace)
  {
    r, plan, trace := Explore(Step, Expand, Bfs, LiveSetting(init), init, fuel);
    if r.Found? {
      LivePlansAreLegal(init, plan);
    }
    EntriesReach(Step, Expand, Bfs, LiveSetting(init), init, trace);
  }

  /**
   * `DFS.get_best_move`: the last pushed successor is popped first, so a
   * path is at most one move longer than the one expanded before it.
   */
  method DepthFirst(init: State, fuel: nat) returns (r: Outcome, plan: seq<Move>, trace: seq<Entry>)
    requires init.Square()
    ensures r.Found? ==> |plan| > 0 && plan[0] == r.move && Solves(LiveSetting(init), init, plan)
    ensures r.Found? ==> PlaysLegally(Catalogue, init, plan)
    ensures r.NoMove? ==> IsGoal(init) || Unsolvable(LiveSetting(init), init)
    ensures IsGoal(init) && fuel > 0 ==> r == NoMove
    ensures r.OutOfFuel? ==> |trace| == fuel
    ensures !IsGoal(init) && |trace| < fuel ==> (r.Found? <==> !Unsolvable(LiveSetting(init), init))
    ensures |trace| <= fuel && NoGoal(trace) && DistinctStates(trace) && DepthStepsUp(trace)
    ensures TraceReaches(LiveSetting(init), init, trace)
  {
    r, plan, trace := Explore(Step, Expand, Dfs, LiveSetting(init), init, fuel);
    if r.Found? {
      LivePlansAreLegal(init, plan);
    }
    EntriesReach(Step, Expand, Dfs, LiveSetting(init), init, trace);
  }

  /**
   * `UniformCostSearch.get_best_move`: every move costs one, the cost stored
   * with an expanded state is the length of its path, expanded costs never
   * decrease, and no two expanded entries share a tie counter.
   */
  method UniformCost(init: State, fuel: nat) returns (r: Outcome, plan: seq<Move>, trace: seq<Entry>)
    requires init.Square()
    ensures r.Found? ==> |plan| > 0 && plan[0] == r.move && Solves(LiveSetting(init), init, plan)
    ensures r.Found? ==> PlaysLegally(Catalogue, init, plan)
    ensures r.NoMove? ==> IsGoal(init) || Unsolvable(LiveSetting(init), init)
    ensures IsGoal(init) && fuel > 0 ==> r == NoMove
    ensures r.OutOfFuel? ==> |trace| == fuel
    ensures !IsGoal(init) && |trace| < fuel ==> (r.Found? <==> !Unsolvable(LiveSetting(init), init))
    ensures r.Found? ==> forall q :: Solves(LiveSetting(init), init, q) ==> |plan| <= |q|
    ensures |trace| <= fuel && NoGoal(trace) && DistinctStates(trace)
    ensures PrioSorted(trace) && CountersDistinct(trace)
    ensures forall k :: 0 <= k < |trace| ==> trace[k].prio == |trace[k].path| as real
    ensures TraceReaches(LiveSetting(init), init, trace)
  {
    r, plan, trace := Explore(Step, Expand, Ucs, LiveSetting(init), init, fuel);
    if r.Found? {
      LivePlansAreLegal(init, plan);
    }
    EntriesReach(Step, Expand, Ucs, LiveSetting(init), init, trace);
  }

  // ---------------------------------------------------------------------------
  // Depth-limited search

  /**
   * `depth_limited_search`: path extended by the moves found from s, when
   * some plan of at most limit moves from s ends without diamonds.  Moves are
   * tried in the generator's order, and the first success is returned.
   */
  function Dls(next: (State, Move) -> State, succ: (Setting, State) -> seq<Move>, c: Setting, s: State, limit: nat, path: seq<Move>): (r: Option<seq<Move>>)
    ensures r.Some? ==> |path| <= |r.value| <= |path| + limit && r.value[..|path|] == path
    ensures r.Some? && |r.value| > |path| ==> r.value[|path|] in succ(c, s)
    decreases limit, 1, 0
  {
    if IsGoal(s) then Some(path)
    else if limit == 0 then None
    else TryMoves(next, succ, c, s, limit, path, 0)
  }

  /**
   * The loop over the generated moves from the k-th on: a success extends
   * path by at least one and at most limit moves, the first of them one of
   * the moves from the k-th on.
   */
  function TryMoves(next: (State, Move) -> State, succ: (Setting, State) -> seq<Move>, c: Setting, s: State, limit: nat, path: seq<Move>, k: nat): (r: Option<seq<Move>>)
    requires limit > 0
    ensures r.Some? ==> |path| < |r.value| <= |path| + limit && r.value[..|path|] == path
    ensures r.Some? ==> exists j :: k <= j < |succ(c, s)| && r.value[|path|] == succ(c, s)[j]
    decreases limit, 0, |succ(c, s)| - k
  {
    var ms := succ(c, s);
    if k >= |ms| then None
    else
      match Dls(next, succ, c, next(s, ms[k]), limit - 1, path + [ms[k]])
      case Some(p) =>
        assert p[..|path| + 1] == path + [ms[k]];
        assert p[..|path|] == (path + [ms[k]])[..|path|];
        assert p[|path|] == (path + [ms[k]])[|path|];
        Some(p)
      case None => TryMoves(next, succ, c, s, limit, path, k + 1)
  }

  /** A plan q solves next(s, m) exactly when [m] + q solves s, for a move generated at s. */
  lemma SolvedPrepend(next: (State, Move) -> State, succ: (Setting, State) -> seq<Move>, c: Setting, s: State, m: Move, q: seq<Move>)
    requires m in succ(c, s)
    ensures SolvedBy(next, succ, c, s, [m] + q) <==> SolvedBy(next, succ, c, next(s, m), q)
  {
    ValidPrepend(next, succ, c, s, m, q);
    RunPrepend(next, s, m, q);
  }

  /** What depth-limited search returns is the given path followed by a plan of at most limit moves that solves s. */
  lemma {:induction false} DlsSound(next: (State, Move) -> State, succ: (Setting, State) -> seq<Move>, c: Setting, s: State, limit: nat, path: seq<Move>)
    ensures var r := Dls(next, succ, c, s, limit, path);
            r.Some? ==> |path| <= |r.value| <= |path| + limit && r.value[..|path|] == path &&
                        SolvedBy(next, succ, c, s, r.value[|path|..])
    decreases limit, 1, 0
  {
    var r := Dls(next, succ, c, s, limit, path);
    if IsGoal(s) {
      assert r.value[|path|..] == [];
    } else if limit > 0 {
      TryMovesSound(next, succ, c, s, limit, path, 0);
    }
  }

  /** A sequence that starts with path + [m] is path followed by m and the rest. */
  lemma SplitAfterPath<M>(path: seq<M>, m: M, p: seq<M>)
    requires |path| < |p| && p[..|path| + 1] == path + [m]
    ensures p[..|path|] == path && p[|path|..] == [m] + p[|path| + 1..]
  {
    assert p[..|path|] == (path + [m])[..|path|] == path;
    assert p[|path|] == (path + [m])[|path|] == m;
  }

  /** A result that extends path + [m] by a plan solving the state after m extends path by a plan solving s. */
  lemma FoundAfterMove(next: (State, Move) -> State, succ: (Setting, State) -> seq<Move>, c: Setting, s: State, path: seq<Move>, m: Move, p: seq<Move>)
    requires m in succ(c, s)
    requires |path| < |p| && p[..|path| + 1] == path + [m]
    requires SolvedBy(next, succ, c, next(s, m), p[|path| + 1..])
    ensures p[..|path|] == path && SolvedBy(next, succ, c, s, p[|path|..])
  {
    SplitAfterPath(path, m, p);
    SolvedPrepend(next, succ, c, s, m, p[|path| + 1..]);
  }

  lemma {:induction false} TryMovesSound(next: (State, Move) -> State, succ: (Setting, State) -> seq<Move>, c: Setting, s: State, limit: nat, path: seq<Move>, k: nat)
    requires limit > 0
    ensures var r := TryMoves(next, succ, c, s, limit, path, k);
            r.Some? ==> |path| < |r.value| <= |path| + limit && r.value[..|path|] == path &&
                        SolvedBy(next, succ, c, s, r.value[|path|..])
    decreases limit, 0, |succ(c, s)| - k
  {
    var ms := succ(c, s);
    if k < |ms| {
      var m := ms[k];
      var d := Dls(next, succ, c, next(s, m), limit - 1, path + [m]);
      if d.Some? {
        assert TryMoves(next, succ, c, s, limit, path, k) == d;
        DlsSound(next, succ, c, next(s, m), limit - 1, path + [m]);
        FoundAfterMove(next, succ, c, s, path, m, d.value);
      } else {
        assert TryMoves(next, succ, c, s, limit, path, k) == TryMoves(next, succ, c, s, limit, path, k + 1);
        TryMovesSound(next, succ, c, s, limit, path, k + 1);
      }
    }
  }

  /** Depth-limited search succeeds whenever some plan of at most limit moves solves s. */
  lemma {:induction false} DlsComplete(next: (State, Move) -> State, succ: (Setting, State) -> seq<Move>, c: Setting, s: State, limit: nat, path: seq<Move>, q: seq<Move>)
    ensures |q| <= limit && SolvedBy(next, succ, c, s, q) ==> Dls(next, succ, c, s, limit, path).Some?
    decreases limit, 1, 0
  {
    if |q| <= limit && SolvedBy(next, succ, c, s, q) && !IsGoal(s) {
      var ms := succ(c, s);
      assert |q| > 0;
      assert q[0] in ms by {
        assert q[..0] == [];
      }
      var j :| 0 <= j < |ms| && ms[j] == q[0];
      TryMovesComplete(next, succ, c, s, limit, path, 0, j, q);
    }
  }

  lemma {:induction false} TryMovesComplete(next: (State, Move) -> State, succ: (Setting, State) -> seq<Move>, c: Setting, s: State, limit: nat, path: seq<Move>,
                                            k: nat, j: nat, q: seq<Move>)
    requires limit > 0 && k <= j < |succ(c, s)|
    requires 0 < |q| <= limit && q[0] == succ(c, s)[j] && SolvedBy(next, succ, c, s, q)
    ensures TryMoves(next, succ, c, s, limit, path, k).Some?
    decreases limit, 0, |succ(c, s)| - k
  {
    var ms := succ(c, s);
    var m := ms[k];
    if k == j {
      assert q == [m] + q[1..];
      SolvedPrepend(next, succ, c, s, m, q[1..]);
      DlsComplete(next, succ, c, next(s, m), limit - 1, path + [m], q[1..]);
    } else if Dls(next, succ, c, next(s, m), limit - 1, path + [m]).None? {
      TryMovesComplete(next, succ, c, s, limit, path, k + 1, j, q);
    }
  }

  // ---------------------------------------------------------------------------
  // Iterative deepening

  /** The default of `max_depth`. */
  const DefaultMaxDepth: nat := 50

  /**
   * The first success of depth-limited search from init over the limits
   * from, from + 1, ..., maxDepth, tried in that order.
   */
  function FirstSuccess(next: (State, Move) -> State, succ: (Setting, State) -> seq<Move>, c: Setting, init: State, from: nat, maxDepth: nat): (r: Option<seq<Move>>)
    ensures r.None? ==> forall d :: from <= d <= maxDepth ==> Dls(next, succ, c, init, d, []).None?
    ensures (forall d :: from <= d <= maxDepth ==> Dls(next, succ, c, init, d, []).None?) ==> r.None?
    ensures r.Some? ==> exists d :: from <= d <= maxDepth && Dls(next, succ, c, init, d, []) == r &&
                                    forall e :: from <= e < d ==> Dls(next, succ, c, init, e, []).None?
    decreases maxDepth + 1 - from
  {
    if from > maxDepth then None
    else
      match Dls(next, succ, c, init, from, [])
      case Some(p) => Some(p)
      case None =>
        var r := FirstSuccess(next, succ, c, init, from + 1, maxDepth);
        assert Dls(next, succ, c, init, from, []).None?;
        assert (forall d :: from <= d <= maxDepth ==> Dls(next, succ, c, init, d, []).None?) ==> r.None? by {
          if forall d :: from <= d <= maxDepth ==> Dls(next, succ, c, init, d, []).None? {
            assert forall d :: from + 1 <= d <= maxDepth ==> Dls(next, succ, c, init, d, []).None?;
          }
        }
        assert r.None? ==> forall d :: from <= d <= maxDepth ==> Dls(next, succ, c, init, d, []).None? by {
          if r.None? {
            forall d | from <= d <= maxDepth
              ensures Dls(next, succ, c, init, d, []).None?
            {
              if d > from {
                assert from + 1 <= d <= maxDepth;
              }
            }
          }
        }
        r
  }

  /**
   * `IterativeDeepeningSearch.get_best_move` over a given transition and
   * generator: the limits 1..maxDepth in turn; the first success gives a
   * shortest plan that solves the start, and failure means none has at most
   * maxDepth moves.  The start must have a diamond: with none, the first
   * depth-limited search returns the empty path and `result[0]` fails.
   */
  method Deepening(next: (State, Move) -> State, succ: (Setting, State) -> seq<Move>, c: Setting, init: State, maxDepth: nat) returns (r: Option<Move>, plan: seq<Move>)
    requires !IsGoal(init)
    ensures r.Some? ==> 0 < |plan| <= maxDepth && plan[0] == r.value && SolvedBy(next, succ, c, init, plan)
    ensures r.Some? ==> forall q :: SolvedBy(next, succ, c, init, q) ==> |plan| <= |q|
    ensures r.None? ==> forall q :: SolvedBy(next, succ, c, init, q) ==> |q| > maxDepth
    ensures r.Some? <==> FirstSuccess(next, succ, c, init, 1, maxDepth).Some?
    ensures r.Some? ==> plan == FirstSuccess(next, succ, c, init, 1, maxDepth).value
  {
    var limit := 1;
    plan := [];
    while limit <= maxDepth
      invariant 1 <= limit <= maxDepth + 1 || (maxDepth == 0 && limit == 1)
      invariant forall q :: SolvedBy(next, succ, c, init, q) ==> |q| >= limit
      invariant FirstSuccess(next, succ, c, init, 1, maxDepth) == FirstSuccess(next, succ, c, init, limit, maxDepth)
    {
      var res := Dls(next, succ, c, init, limit, []);
      if res.Some? {
        DlsSound(next, succ, c, init, limit, []);
        plan := res.value;
        assert plan[0..] == plan;
        r := Some(plan[0]);
        return;
      }
      forall q | SolvedBy(next, succ, c, init, q)
        ensures |q| > limit
      {
        DlsComplete(next, succ, c, init, limit, [], q);
      }
      limit := limit + 1;
    }
    r := None;
  }

  /** Iterative deepening as written: every depth-limited search reads the start board for anchors. */
  method IterativeDeepening(init: State, maxDepth: nat) returns (r: Option<Move>, plan: seq<Move>)
    requires !IsGoal(init)
    ensures r.Some? ==> 0 < |plan| <= maxDepth && plan[0] == r.value && Solves(StaleSetting(init), init, plan)
    ensures r.Some? ==> forall q :: Solves(StaleSetting(init), init, q) ==> |plan| <= |q|
    ensures r.None? ==> forall q :: Solves(StaleSetting(init), init, q) ==> |q| > maxDepth
    ensures r.Some? <==> FirstSuccess(Step, Expand, StaleSetting(init), init, 1, maxDepth).Some?
    ensures r.Some? ==> plan == FirstSuccess(Step, Expand, StaleSetting(init), init, 1, maxDepth).value
  {
    r, plan := Deepening(Step, Expand, StaleSetting(init), init, maxDepth);
  }

  /**
   * Iterative deepening with anchors read from the board being expanded,
   * as the other searches do: a returned plan is a shortest one of legal
   * moves that removes every diamond.
   */
  method IterativeDeepeningLive(init: State, maxDepth: nat) returns (r: Option<Move>, plan: seq<Move>)
    requires init.Square() && !IsGoal(init)
    ensures r.Some? ==> 0 < |plan| <= maxDepth && plan[0] == r.value && Solves(LiveSetting(init), init, plan)
    ensures r.Some? ==> PlaysLegally(Catalogue, init, plan)
    ensures r.Some? ==> forall q :: Solves(LiveSetting(init), init, q) ==> |plan| <= |q|
    ensures r.None? ==> forall q :: Solves(LiveSetting(init), init, q) ==> |q| > maxDepth
    ensures r.Some? <==> FirstSuccess(Step, Expand, LiveSetting(init), init, 1, maxDepth).Some?
    ensures r.Some? ==> plan == FirstSuccess(Step, Expand, LiveSetting(init), init, 1, maxDepth).value
  {
    r, plan := Deepening(Step, Expand, LiveSetting(init), init, maxDepth);
    if r.Some? {
      LivePlansAreLegal(init, plan);
    }
  }
}
