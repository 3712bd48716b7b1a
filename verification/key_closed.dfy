/**
 * The A* loop of informed_search.py as it is written.  Its heap tuples carry
 * a third slot that the loop pops as `state_hash` and adds to the closed
 * set: the start entry holds the start state's hash there, but every child
 * holds the push counter instead.  So the closed set gathers the start's
 * hash and the counters of expanded children.  A popped child is never
 * skipped, a state reached twice is expanded twice, and the successor test
 * leaves out only successors equal to the start state.
 *
 * The loop is written over any transition `next` and move generator `succ`,
 * and pops, orders and pushes entries exactly as the shared frontier loop
 * does for A*; only what is closed and what is pruned differ.
 */
module KeyClosed {
  import opened Board
  import opened Blocks
  import opened Plans
  import opened Space
  import opened Search
  import opened Invariant

  /** The third slot of an A* heap tuple: the start's state hash, or a child's push counter. */
  datatype Key = StateKey(state: State) | CounterKey(n: int)

  /** The third slot of an entry: only the start entry has an empty path. */
  function KeyOf(e: Entry): Key {
    if |e.path| == 0 then StateKey(e.state) else CounterKey(e.counter)
  }

  /** The states whose hash lies in the closed set, which is all the successor test can match. */
  function HashedStates(closed: set<Key>): set<State> {
    set k | k in closed && k.StateKey? :: k.state
  }

  /** The loop's variables: heap, closed set of keys, trace of expansions and `node_counter`. */
  datatype Round = Round(frontier: seq<Entry>, closed: set<Key>, trace: seq<Entry>, counter: int)

  /**
   * One iteration past the goal test: the popped entry is skipped if its key
   * is closed; otherwise its key is closed, it is expanded, and every
   * successor whose state hash is not closed is pushed with the next counter.
   */
  function Pass(next: (State, Move) -> State, succ: (Setting, State) -> seq<Move>, c: Setting, R: Round): (r: Round)
    requires |R.frontier| > 0
  {
    var F := R.frontier;
    var i := PopIndex(AStar, F);
    var e := F[i];
    if KeyOf(e) in R.closed then Round(Remove(F, i), R.closed, R.trace, R.counter)
    else
      var closed := R.closed + {KeyOf(e)};
      var ms := succ(c, e.state);
      var kids := Offspring(next, AStar, e, ms, |ms|, HashedStates(closed), R.counter);
      Round(Remove(F, i) + kids, closed, R.trace + [e], R.counter + |kids|)
  }

  // ---------------------------------------------------------------------------
  // The loop invariant

  /**
   * No heap entry's key is closed and no two heap entries share a key; every
   * counter key on the heap or in the closed set is below the next counter,
   * and the only state hash ever closed is the start's.
   */
  predicate KeysFresh(init: State, R: Round) {
    && R.counter >= 0
    && (forall k :: 0 <= k < |R.frontier| ==> KeyOf(R.frontier[k]) !in R.closed)
    && (forall j, k :: 0 <= j < k < |R.frontier| ==> KeyOf(R.frontier[j]) != KeyOf(R.frontier[k]))
    && (forall k :: 0 <= k < |R.frontier| && KeyOf(R.frontier[k]).CounterKey? ==> KeyOf(R.frontier[k]).n < R.counter)
    && (forall key :: key in R.closed ==> (key.CounterKey? ==> key.n < R.counter) && (key.StateKey? ==> key.state == init))
  }

  /** Every move generated at an expanded state leads back to the start, or to a state on the heap or in the trace. */
  ghost predicate Spread(next: (State, Move) -> State, succ: (Setting, State) -> seq<Move>, c: Setting, init: State, R: Round) {
    forall k, m :: 0 <= k < |R.trace| && m in succ(c, R.trace[k].state) ==>
      var y := next(R.trace[k].state, m);
      y == init || y in StatesOf(R.frontier) || y in StatesOf(R.trace)
  }

  /** Some generated move leads from s back to s. */
  ghost predicate Loops(next: (State, Move) -> State, succ: (Setting, State) -> seq<Move>, c: Setting, s: State) {
    exists m :: m in succ(c, s) && next(s, m) == s
  }

  /** An expanded state other than the start that loops back to itself is on the heap again. */
  ghost predicate LoopsKept(next: (State, Move) -> State, succ: (Setting, State) -> seq<Move>, c: Setting, init: State, R: Round) {
    forall k :: 0 <= k < |R.trace| && R.trace[k].state != init && Loops(next, succ, c, R.trace[k].state) ==>
      R.trace[k].state in StatesOf(R.frontier)
  }

  /** The whole loop invariant. */
  ghost predicate Keeps(next: (State, Move) -> State, succ: (Setting, State) -> seq<Move>, c: Setting, init: State, R: Round) {
    && AllOk(next, succ, AStar, c, init, R.frontier)
    && AllOk(next, succ, AStar, c, init, R.trace)
    && NoGoal(R.trace)
    && KeysFresh(init, R)
    && Spread(next, succ, c, init, R)
    && LoopsKept(next, succ, c, init, R)
    && (init in StatesOf(R.frontier) || init in StatesOf(R.trace))
    && (|R.trace| == 0 ==> R.frontier == [Search.Start(next, AStar, c, init)])
  }

  /** The round the loop starts from: the start entry alone on the heap. */
  function Initial(next: (State, Move) -> State, c: Setting, init: State): Round {
    Round([Search.Start(next, AStar, c, init)], {}, [], FirstCounter(AStar))
  }

  lemma InitKeeps(next: (State, Move) -> State, succ: (Setting, State) -> seq<Move>, c: Setting, init: State)
    ensures Keeps(next, succ, c, init, Initial(next, c, init))
  {
    var R := Initial(next, c, init);
    StartOk(next, succ, AStar, c, init);
    assert R.frontier[0].state == init;
    assert StatesOf([]) == {};
  }

  // ---------------------------------------------------------------------------
  // One expansion

  /** Only the start entry carries a state key, and the popped entry's key is not closed. */
  lemma PoppedFresh(next: (State, Move) -> State, succ: (Setting, State) -> seq<Move>, c: Setting, init: State, R: Round)
    requires Keeps(next, succ, c, init, R) && |R.frontier| > 0
    ensures var e := R.frontier[PopIndex(AStar, R.frontier)];
            KeyOf(e) !in R.closed && (KeyOf(e).StateKey? ==> e.state == init)
            && HashedStates(R.closed + {KeyOf(e)}) <= {init}
  {
    var e := R.frontier[PopIndex(AStar, R.frontier)];
    assert EntryOk(next, succ, AStar, c, init, e);
  }

  /** The keys of the children: consecutive fresh counters. */
  lemma KidKeys(next: (State, Move) -> State, succ: (Setting, State) -> seq<Move>, c: Setting, init: State,
                e: Entry, closed: set<State>, cnt: int, kids: seq<Entry>)
    requires EntryOk(next, succ, AStar, c, init, e)
    requires kids == Offspring(next, AStar, e, succ(c, e.state), |succ(c, e.state)|, closed, cnt)
    ensures forall k :: 0 <= k < |kids| ==> KeyOf(kids[k]) == CounterKey(cnt + k)
  {
    KidsFacts(next, succ, AStar, c, init, e, closed, cnt, kids);
  }

  /** Expanding the popped entry keeps the keys fresh. */
  lemma ExpandKeys(init: State, R: Round, i: nat, kids: seq<Entry>)
    requires KeysFresh(init, R) && i < |R.frontier|
    requires KeyOf(R.frontier[i]).StateKey? ==> R.frontier[i].state == init
    requires forall k :: 0 <= k < |kids| ==> KeyOf(kids[k]) == CounterKey(R.counter + k)
    ensures KeysFresh(init, Expanded(R, i, kids))
  {
    var F := R.frontier;
    var G := Remove(F, i);
    var F' := G + kids;
    var e := F[i];
    var closed := R.closed + {KeyOf(e)};
    forall k | 0 <= k < |G|
      ensures exists j :: 0 <= j < |F| && j != i && G[k] == F[j]
    {
      if k < i {
        assert G[k] == F[k];
      } else {
        assert G[k] == F[k + 1];
      }
    }
    forall k | 0 <= k < |F'|
      ensures KeyOf(F'[k]) !in closed
      ensures KeyOf(F'[k]).CounterKey? ==> KeyOf(F'[k]).n < R.counter + |kids|
    {
      if k < |G| {
        assert F'[k] == G[k];
        var j :| 0 <= j < |F| && j != i && G[k] == F[j];
        if j < i {
          assert KeyOf(F[j]) != KeyOf(F[i]);
        } else {
          assert KeyOf(F[i]) != KeyOf(F[j]);
        }
      } else {
        assert F'[k] == kids[k - |G|];
      }
    }
    forall a, b | 0 <= a < b < |F'|
      ensures KeyOf(F'[a]) != KeyOf(F'[b])
    {
      if b < |G| {
        assert F'[a] == G[a] && F'[b] == G[b];
        var ja :| 0 <= ja < |F| && ja != i && G[a] == F[ja];
        var jb :| 0 <= jb < |F| && jb != i && G[b] == F[jb];
        if a < i && b < i {
          assert ja == a && jb == b;
        } else if a < i {
          assert G[a] == F[a] && G[b] == F[b + 1];
        } else {
          assert G[a] == F[a + 1] && G[b] == F[b + 1];
        }
      } else if a < |G| {
        assert F'[a] == G[a] && F'[b] == kids[b - |G|];
        var ja :| 0 <= ja < |F| && ja != i && G[a] == F[ja];
      } else {
        assert F'[a] == kids[a - |G|] && F'[b] == kids[b - |G|];
      }
    }
  }

  /** Expanding e: coverage, the looping states and the start's presence carry over, and e's moves are covered. */
  lemma ExpandSpread(next: (State, Move) -> State, succ: (Setting, State) -> seq<Move>, c: Setting, init: State,
                     R: Round, i: nat, closed: set<State>, kids: seq<Entry>)
    requires Keeps(next, succ, c, init, R) && i < |R.frontier|
    requires closed <= {init}
    requires forall m :: m in succ(c, R.frontier[i].state) ==>
               next(R.frontier[i].state, m) in closed || next(R.frontier[i].state, m) in StatesOf(kids)
    ensures var R' := Expanded(R, i, kids);
            && Spread(next, succ, c, init, R')
            && LoopsKept(next, succ, c, init, R')
            && (init in StatesOf(R'.frontier) || init in StatesOf(R'.trace))
  {
    var F := R.frontier;
    var e := F[i];
    var G := Remove(F, i);
    var T' := R.trace + [e];
    StatesOfRemove(F, i);
    StatesOfAppend(G, kids);
    StatesOfAppend(R.trace, [e]);
    StatesOfOne(e);
    assert StatesOf(F) <= StatesOf(G + kids) + StatesOf(T');
    forall k, m | 0 <= k < |T'| && m in succ(c, T'[k].state)
      ensures var y := next(T'[k].state, m); y == init || y in StatesOf(G + kids) || y in StatesOf(T')
    {
      if k < |R.trace| {
        assert T'[k] == R.trace[k];
      } else {
        assert T'[k] == e;
      }
    }
    forall k | 0 <= k < |T'| && T'[k].state != init && Loops(next, succ, c, T'[k].state)
      ensures T'[k].state in StatesOf(G + kids)
    {
      var y := T'[k].state;
      if y == e.state {
        var m :| m in succ(c, y) && next(y, m) == y;
      } else {
        assert T'[k] == R.trace[k];
      }
    }
  }

  /** The round after expanding the entry at i with the given children. */
  function Expanded(R: Round, i: nat, kids: seq<Entry>): Round
    requires i < |R.frontier|
  {
    Round(Remove(R.frontier, i) + kids, R.closed + {KeyOf(R.frontier[i])}, R.trace + [R.frontier[i]], R.counter + |kids|)
  }

  /** A pass whose popped key is not closed expands the popped entry. */
  lemma PassExpands(next: (State, Move) -> State, succ: (Setting, State) -> seq<Move>, c: Setting, R: Round)
    requires |R.frontier| > 0 && KeyOf(R.frontier[PopIndex(AStar, R.frontier)]) !in R.closed
    ensures var i := PopIndex(AStar, R.frontier);
            var e := R.frontier[i];
            var ms := succ(c, e.state);
            Pass(next, succ, c, R) == Expanded(R, i, Offspring(next, AStar, e, ms, |ms|, HashedStates(R.closed + {KeyOf(e)}), R.counter))
  {
  }

  /** The sound parts of the invariant after an expansion. */
  lemma ExpandSound(next: (State, Move) -> State, succ: (Setting, State) -> seq<Move>, c: Setting, init: State,
                    R: Round, i: nat, kids: seq<Entry>)
    requires i < |R.frontier| && AllOk(next, succ, AStar, c, init, R.frontier) && AllOk(next, succ, AStar, c, init, R.trace)
    requires NoGoal(R.trace) && !IsGoal(R.frontier[i].state) && AllOk(next, succ, AStar, c, init, kids)
    ensures var R' := Expanded(R, i, kids);
            AllOk(next, succ, AStar, c, init, R'.frontier) && AllOk(next, succ, AStar, c, init, R'.trace) && NoGoal(R'.trace)
  {
    var e := R.frontier[i];
    AllOkRemove(next, succ, AStar, c, init, R.frontier, i);
    AllOkJoin(next, succ, AStar, c, init, Remove(R.frontier, i), kids);
    AllOkJoin(next, succ, AStar, c, init, R.trace, [e]);
    var T' := R.trace + [e];
    assert forall k :: 0 <= k < |R.trace| ==> T'[k] == R.trace[k];
    assert T'[|R.trace|] == e;
  }

  /** A pass that pops a non-goal expands it: the invariant holds again and the trace grows by one. */
  lemma PassKeeps(next: (State, Move) -> State, succ: (Setting, State) -> seq<Move>, c: Setting, init: State, R: Round)
    requires Keeps(next, succ, c, init, R) && |R.frontier| > 0
    requires !IsGoal(R.frontier[PopIndex(AStar, R.frontier)].state)
    ensures Keeps(next, succ, c, init, Pass(next, succ, c, R))
    ensures Pass(next, succ, c, R).trace == R.trace + [R.frontier[PopIndex(AStar, R.frontier)]]
  {
    var F := R.frontier;
    var i := PopIndex(AStar, F);
    var e := F[i];
    PoppedFresh(next, succ, c, init, R);
    var closed := HashedStates(R.closed + {KeyOf(e)});
    var ms := succ(c, e.state);
    var kids := Offspring(next, AStar, e, ms, |ms|, closed, R.counter);
    PassExpands(next, succ, c, R);
    assert EntryOk(next, succ, AStar, c, init, e);
    KidsFacts(next, succ, AStar, c, init, e, closed, R.counter, kids);
    KidKeys(next, succ, c, init, e, closed, R.counter, kids);
    ExpandKeys(init, R, i, kids);
    ExpandSpread(next, succ, c, init, R, i, closed, kids);
    ExpandSound(next, succ, c, init, R, i, kids);
  }

  // ---------------------------------------------------------------------------
  // What an empty heap shows

  /**
   * When the heap is empty, the expanded states hold every state a valid
   * plan reaches: none of them is a goal, and none other than the start
   * loops back to itself.
   */
  lemma Exhausted(next: (State, Move) -> State, succ: (Setting, State) -> seq<Move>, c: Setting, init: State, R: Round)
    requires Keeps(next, succ, c, init, R) && |R.frontier| == 0
    ensures AlwaysHolds(next, succ, c, NotGoal, init)
    ensures forall p :: ValidPlan(next, succ, c, init, p) ==>
              Run(next, init, p) == init || !Loops(next, succ, c, Run(next, init, p))
  {
    var T := StatesOf(R.trace);
    assert StatesOf(R.frontier) == {};
    forall x | x in T
      ensures NotGoal(x) && forall m :: m in succ(c, x) ==> next(x, m) in T
    {
      var k :| 0 <= k < |R.trace| && R.trace[k].state == x;
    }
    assert Closed(next, succ, c, NotGoal, T);
    ClosedSetShowsAlwaysHolds(next, succ, c, NotGoal, T, init);
    forall p | ValidPlan(next, succ, c, init, p)
      ensures Run(next, init, p) == init || !Loops(next, succ, c, Run(next, init, p))
    {
      ClosedSetHoldsReachable(next, succ, c, NotGoal, T, init, p);
      var y := Run(next, init, p);
      var k :| 0 <= k < |R.trace| && R.trace[k].state == y;
    }
  }

  // ---------------------------------------------------------------------------
  // The loop

  /**
   * `AStarSearch.get_best_move` as written, stopped after fuel expansions.
   * A found move starts a valid plan that removes every diamond.  No move
   * means the start has no diamond, or no valid plan removes them all and,
   * beyond that, no reachable state other than the start has a move leading
   * back to itself: the heap empties only then, since such a state is pushed
   * again each time it is expanded.  Running out of fuel means fuel
   * expansions, which need not be of distinct states.
   */
  method Explore(next: (State, Move) -> State, succ: (Setting, State) -> seq<Move>,
                 c: Setting, init: State, fuel: nat)
      returns (r: Outcome, plan: seq<Move>, trace: seq<Entry>)
    ensures r.Found? ==> |plan| > 0 && plan[0] == r.move
    ensures r.Found? ==> ValidPlan(next, succ, c, init, plan) && IsGoal(Run(next, init, plan))
    ensures r.NoMove? ==> IsGoal(init) || AlwaysHolds(next, succ, c, NotGoal, init)
    ensures r.NoMove? && !IsGoal(init) ==>
              forall p :: ValidPlan(next, succ, c, init, p) ==>
                Run(next, init, p) == init || !Loops(next, succ, c, Run(next, init, p))
    ensures IsGoal(init) && fuel > 0 ==> r == NoMove
    ensures r.OutOfFuel? ==> |trace| == fuel
    ensures !IsGoal(init) && |trace| < fuel ==> (r.Found? <==> !AlwaysHolds(next, succ, c, NotGoal, init))
    ensures |trace| <= fuel && NoGoal(trace) && AllOk(next, succ, AStar, c, init, trace)
  {
    var R := Initial(next, c, init);
    InitKeeps(next, succ, c, init);
    while |R.frontier| > 0 && |R.trace| < fuel && !IsGoal(R.frontier[PopIndex(AStar, R.frontier)].state)
      invariant Keeps(next, succ, c, init, R)
      invariant |R.trace| <= fuel
      invariant IsGoal(init) ==> |R.trace| == 0
      decreases fuel - |R.trace|
    {
      PassKeeps(next, succ, c, init, R);
      R := Pass(next, succ, c, R);
    }
    trace := R.trace;
    if |R.frontier| > 0 && |R.trace| < fuel {
      var e := R.frontier[PopIndex(AStar, R.frontier)];
      assert EntryOk(next, succ, AStar, c, init, e);
      plan := e.path;
      r := if |e.path| == 0 then NoMove else Found(e.path[0]);
      if |e.path| > 0 {
        assert !AlwaysHolds(next, succ, c, NotGoal, init) by {
          assert ValidPlan(next, succ, c, init, plan) && !NotGoal(Run(next, init, plan));
        }
      }
      return;
    }
    plan := [];
    if |R.frontier| == 0 {
      Exhausted(next, succ, c, init, R);
      r := NoMove;
    } else {
      r := OutOfFuel;
    }
  }
}
