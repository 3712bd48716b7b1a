/**
 * What the frontier loop keeps true, and what it lets the loop conclude.
 *
 * The invariant is split into four parts, each with its own preservation
 * lemmas: every entry is sound (its path is a valid plan to its state, its
 * priority is the algorithm's), the closed set is covered (every move
 * generated at a closed state leads to a closed state or to a state on the
 * frontier), the order the algorithm's frontier promises, and the tie
 * counters.  A fifth part, about path lengths, is what breadth-first and
 * uniform-cost search add.
 */
module Invariant {
  import opened Board
  import opened Blocks
  import opened Plans
  import opened Space
  import opened Search

  // ---------------------------------------------------------------------------
  // Parts of the loop invariant

  /** Every entry of F is sound. */
  ghost predicate AllOk(next: (State, Move) -> State, succ: (Setting, State) -> seq<Move>,
                        alg: Algorithm, c: Setting, init: State, F: seq<Entry>) {
    forall k :: 0 <= k < |F| ==> EntryOk(next, succ, alg, c, init, F[k])
  }

  /** No state of T has zero diamonds. */
  predicate NoGoal(T: seq<Entry>) {
    forall k :: 0 <= k < |T| ==> !IsGoal(T[k].state)
  }

  /** No state occurs twice in T. */
  predicate DistinctStates(T: seq<Entry>) {
    forall i, j :: 0 <= i < j < |T| ==> T[i].state != T[j].state
  }

  /** Every move generated at a closed state leads to a closed state or to one on the frontier F. */
  ghost predicate Covered(next: (State, Move) -> State, succ: (Setting, State) -> seq<Move>,
                          c: Setting, closed: set<State>, F: seq<Entry>) {
    forall x, m :: x in closed && m in succ(c, x) ==> next(x, m) in closed || next(x, m) in StatesOf(F)
  }

  /** Path lengths never decrease along T. */
  predicate DepthSorted(T: seq<Entry>) {
    forall i, j :: 0 <= i < j < |T| ==> |T[i].path| <= |T[j].path|
  }

  /** Stored priorities never decrease along T. */
  predicate PrioSorted(T: seq<Entry>) {
    forall i, j :: 0 <= i < j < |T| ==> T[i].prio <= T[j].prio
  }

  /** Along T a path is at most one move longer than the one before it. */
  predicate DepthStepsUp(T: seq<Entry>) {
    forall t :: 0 < t < |T| ==> |T[t].path| <= |T[t - 1].path| + 1
  }

  /** No tie counter occurs twice in T. */
  predicate CountersDistinct(T: seq<Entry>) {
    forall i, j :: 0 <= i < j < |T| ==> T[i].counter != T[j].counter
  }

  /**
   * The order each frontier keeps: a queue holds path lengths d..d+1 in
   * order, all at least the expanded ones; a stack holds lengths in order,
   * its top at most one deeper than the last expansion; a uniform-cost heap
   * holds costs at least every expanded cost.
   */
  predicate OrderOk(alg: Algorithm, F: seq<Entry>, trace: seq<Entry>) {
    match alg
    case Bfs =>
      && DepthSorted(F) && (forall k :: 0 <= k < |F| ==> |F[k].path| <= |F[0].path| + 1)
      && DepthSorted(trace)
      && (forall t, k :: 0 <= t < |trace| && 0 <= k < |F| ==> |trace[t].path| <= |F[k].path|)
    case Dfs =>
      && DepthSorted(F) && DepthStepsUp(trace)
      && (|trace| > 0 && |F| > 0 ==> |F[|F| - 1].path| <= |trace[|trace| - 1].path| + 1)
    case Ucs =>
      && PrioSorted(trace)
      && (forall t, k :: 0 <= t < |trace| && 0 <= k < |F| ==> trace[t].prio <= F[k].prio)
    case _ => true
  }

  /**
   * Tie counters: on the frontier they grow from front to back and stay
   * below the next counter, and no counter is shared by two entries of the
   * frontier and the trace.
   */
  predicate CountersOk(alg: Algorithm, F: seq<Entry>, trace: seq<Entry>, counter: int) {
    alg.Counted() ==>
      && (forall i, j :: 0 <= i < j < |F| ==> F[i].counter < F[j].counter)
      && (forall k :: 0 <= k < |F| ==> F[k].counter < counter)
      && (forall k :: 0 <= k < |trace| ==> trace[k].counter < counter)
      && CountersDistinct(trace)
      && (forall t, k :: 0 <= t < |trace| && 0 <= k < |F| ==> trace[t].counter != F[k].counter)
  }

  /** The closed set is the set of expanded states, none of them a goal, each expanded once. */
  ghost predicate TraceOk(next: (State, Move) -> State, succ: (Setting, State) -> seq<Move>,
                          alg: Algorithm, c: Setting, init: State, closed: set<State>, trace: seq<Entry>) {
    AllOk(next, succ, alg, c, init, trace) && NoGoal(trace) && DistinctStates(trace) && closed == StatesOf(trace)
  }

  /**
   * What the trace of expansions satisfies on exit: sound entries, no goal,
   * no state twice, and the order the algorithm's frontier promises.
   */
  ghost predicate Expansions(next: (State, Move) -> State, succ: (Setting, State) -> seq<Move>,
                             alg: Algorithm, c: Setting, init: State, trace: seq<Entry>) {
    && AllOk(next, succ, alg, c, init, trace) && NoGoal(trace) && DistinctStates(trace)
    && (alg.Bfs? ==> DepthSorted(trace))
    && (alg.Dfs? ==> DepthStepsUp(trace))
    && (alg.Ucs? ==> PrioSorted(trace))
    && (alg.Counted() ==> CountersDistinct(trace))
  }

  /** The whole loop invariant. */
  ghost predicate Inv(next: (State, Move) -> State, succ: (Setting, State) -> seq<Move>,
                      alg: Algorithm, c: Setting, init: State,
                      F: seq<Entry>, closed: set<State>, trace: seq<Entry>, counter: int)
    requires alg.Greedy? ==> |c.cat| > 0
  {
    && AllOk(next, succ, alg, c, init, F)
    && TraceOk(next, succ, alg, c, init, closed, trace)
    && Covered(next, succ, c, closed, F)
    && (init in closed || init in StatesOf(F))
    && (|trace| == 0 ==> F == [Start(next, alg, c, init)])
    && OrderOk(alg, F, trace)
    && CountersOk(alg, F, trace, counter)
  }

  // ---------------------------------------------------------------------------
  // Frontier surgery

  /** The frontier with the entry at i taken out, the others in their order. */
  function Remove(F: seq<Entry>, i: nat): (r: seq<Entry>)
    requires i < |F|
    ensures |r| == |F| - 1
    ensures forall k :: 0 <= k < i ==> r[k] == F[k]
    ensures forall k :: i <= k < |r| ==> r[k] == F[k + 1]
  {
    F[..i] + F[i + 1..]
  }

  /** Taking out one entry takes out its state only if no other entry holds it. */
  lemma StatesOfRemove(F: seq<Entry>, i: nat)
    requires i < |F|
    ensures StatesOf(F) == StatesOf(Remove(F, i)) + {F[i].state}
  {
    var R := Remove(F, i);
    forall x | x in StatesOf(F)
      ensures x in StatesOf(R) + {F[i].state}
    {
      var k :| 0 <= k < |F| && F[k].state == x;
      if k < i {
        assert R[k].state == x;
      } else if k > i {
        assert R[k - 1].state == x;
      }
    }
    forall x | x in StatesOf(R)
      ensures x in StatesOf(F)
    {
      var k :| 0 <= k < |R| && R[k].state == x;
      if k < i {
        assert F[k].state == x;
      } else {
        assert F[k + 1].state == x;
      }
    }
  }

  /** The states of two frontiers joined are the states of each. */
  lemma StatesOfAppend(A: seq<Entry>, B: seq<Entry>)
    ensures StatesOf(A + B) == StatesOf(A) + StatesOf(B)
  {
    var AB := A + B;
    forall x | x in StatesOf(AB)
      ensures x in StatesOf(A) + StatesOf(B)
    {
      var k :| 0 <= k < |AB| && AB[k].state == x;
      if k < |A| {
        assert A[k].state == x;
      } else {
        assert B[k - |A|].state == x;
      }
    }
    forall x | x in StatesOf(A) + StatesOf(B)
      ensures x in StatesOf(AB)
    {
      if x in StatesOf(A) {
        var k :| 0 <= k < |A| && A[k].state == x;
        assert AB[k].state == x;
      } else {
        var k :| 0 <= k < |B| && B[k].state == x;
        assert AB[|A| + k].state == x;
      }
    }
  }

  /** Taking an entry out of a sound frontier leaves it sound. */
  lemma AllOkRemove(next: (State, Move) -> State, succ: (Setting, State) -> seq<Move>,
                    alg: Algorithm, c: Setting, init: State, F: seq<Entry>, i: nat)
    requires i < |F| && AllOk(next, succ, alg, c, init, F)
    ensures AllOk(next, succ, alg, c, init, Remove(F, i))
  {
    var R := Remove(F, i);
    forall k | 0 <= k < |R|
      ensures EntryOk(next, succ, alg, c, init, R[k])
    {
      if k < i {
        assert R[k] == F[k];
      } else {
        assert R[k] == F[k + 1];
      }
    }
  }

  /** Two sound frontiers joined are sound. */
  lemma AllOkJoin(next: (State, Move) -> State, succ: (Setting, State) -> seq<Move>,
                  alg: Algorithm, c: Setting, init: State, A: seq<Entry>, B: seq<Entry>)
    requires AllOk(next, succ, alg, c, init, A) && AllOk(next, succ, alg, c, init, B)
    ensures AllOk(next, succ, alg, c, init, A + B)
  {
    forall k | 0 <= k < |A + B|
      ensures EntryOk(next, succ, alg, c, init, (A + B)[k])
    {
      if k < |A| {
        assert (A + B)[k] == A[k];
      } else {
        assert (A + B)[k] == B[k - |A|];
      }
    }
  }

  /** The states of a one-entry frontier. */
  lemma StatesOfOne(e: Entry)
    ensures StatesOf([e]) == {e.state}
  {
    assert [e][0].state == e.state;
  }

  /** The entries pushed for e: sound, one move deeper, counted from cnt, a uniform-cost step dearer, covering e's moves. */
  lemma KidsFacts(next: (State, Move) -> State, succ: (Setting, State) -> seq<Move>,
                  alg: Algorithm, c: Setting, init: State, e: Entry, closed: set<State>, cnt: int, kids: seq<Entry>)
    requires EntryOk(next, succ, alg, c, init, e)
    requires kids == Offspring(next, alg, e, succ(c, e.state), |succ(c, e.state)|, closed, cnt)
    ensures AllOk(next, succ, alg, c, init, kids)
    ensures forall k :: 0 <= k < |kids| ==>
              && |kids[k].path| == |e.path| + 1
              && (alg.Ucs? ==> kids[k].prio == e.prio + 1.0)
              && (alg.Counted() ==> kids[k].counter == cnt + k)
    ensures forall m :: m in succ(c, e.state) ==> next(e.state, m) in closed || next(e.state, m) in StatesOf(kids)
  {
    var ms := succ(c, e.state);
    OffspringOk(next, succ, alg, c, init, e, closed, cnt);
    OffspringFacts(next, alg, e, ms, |ms|, closed, cnt);
    forall k | 0 <= k < |kids|
      ensures alg.Counted() ==> kids[k].counter == cnt + k
    {
      var j :| 0 <= j < |ms| && kids[k] == Child(next, alg, e, ms[j], cnt + k);
    }
    forall m | m in ms
      ensures next(e.state, m) in closed || next(e.state, m) in StatesOf(kids)
    {
      var j :| 0 <= j < |ms| && ms[j] == m;
      assert Pruned(next, alg, e, ms[j], closed) || next(e.state, ms[j]) in StatesOf(kids);
    }
  }

  // ---------------------------------------------------------------------------
  // The invariant at the start

  lemma InitInv(next: (State, Move) -> State, succ: (Setting, State) -> seq<Move>,
                alg: Algorithm, c: Setting, init: State)
    requires alg.Greedy? ==> |c.cat| > 0
    ensures Inv(next, succ, alg, c, init, [Start(next, alg, c, init)], {}, [], FirstCounter(alg))
  {
    var F := [Start(next, alg, c, init)];
    StartOk(next, succ, alg, c, init);
    assert F[0].state == init;
    assert StatesOf([]) == {};
  }

  // ---------------------------------------------------------------------------
  // Skipping a popped state that is already closed

  lemma SkipOrder(alg: Algorithm, F: seq<Entry>, i: nat, trace: seq<Entry>)
    requires |F| > 0 && i == PopIndex(alg, F)
    requires OrderOk(alg, F, trace)
    ensures OrderOk(alg, Remove(F, i), trace)
  {
    var R := Remove(F, i);
    match alg {
      case Bfs =>
        assert forall k :: 0 <= k < |R| ==> R[k] == F[k + 1];
      case Dfs =>
        assert forall k :: 0 <= k < |R| ==> R[k] == F[k];
      case Ucs =>
        assert forall k :: 0 <= k < |R| ==> R[k] == F[k] || R[k] == F[k + 1];
      case _ =>
    }
  }

  lemma SkipCounters(alg: Algorithm, F: seq<Entry>, i: nat, trace: seq<Entry>, counter: int)
    requires i < |F|
    requires CountersOk(alg, F, trace, counter)
    ensures CountersOk(alg, Remove(F, i), trace, counter)
  {
    var R := Remove(F, i);
    assert forall k :: 0 <= k < |R| ==> R[k] == F[if k < i then k else k + 1];
  }

  lemma SkipInv(next: (State, Move) -> State, succ: (Setting, State) -> seq<Move>,
                alg: Algorithm, c: Setting, init: State,
                F: seq<Entry>, closed: set<State>, trace: seq<Entry>, counter: int, i: nat)
    requires alg.Greedy? ==> |c.cat| > 0
    requires Inv(next, succ, alg, c, init, F, closed, trace, counter)
    requires |F| > 0 && i == PopIndex(alg, F) && F[i].state in closed
    ensures Inv(next, succ, alg, c, init, Remove(F, i), closed, trace, counter)
  {
    var R := Remove(F, i);
    StatesOfRemove(F, i);
    SkipOrder(alg, F, i, trace);
    SkipCounters(alg, F, i, trace, counter);
  }

  // ---------------------------------------------------------------------------
  // Expanding a popped state

  lemma ExpandTrace(next: (State, Move) -> State, succ: (Setting, State) -> seq<Move>,
                    alg: Algorithm, c: Setting, init: State, closed: set<State>, trace: seq<Entry>, e: Entry)
    requires TraceOk(next, succ, alg, c, init, closed, trace)
    requires EntryOk(next, succ, alg, c, init, e) && !IsGoal(e.state) && e.state !in closed
    ensures TraceOk(next, succ, alg, c, init, closed + {e.state}, trace + [e])
  {
    StatesOfAppend(trace, [e]);
    StatesOfOne(e);
    forall t | 0 <= t < |trace|
      ensures trace[t].state != e.state
    {
      assert trace[t].state in StatesOf(trace);
    }
  }

  lemma ExpandCovered(next: (State, Move) -> State, succ: (Setting, State) -> seq<Move>,
                      c: Setting, init: State, F: seq<Entry>, closed: set<State>, i: nat, kids: seq<Entry>)
    requires i < |F| && Covered(next, succ, c, closed, F)
    requires init in closed || init in StatesOf(F)
    requires forall m :: m in succ(c, F[i].state) ==>
               next(F[i].state, m) in closed + {F[i].state} || next(F[i].state, m) in StatesOf(kids)
    ensures var e := F[i];
            var F' := Remove(F, i) + kids;
            Covered(next, succ, c, closed + {e.state}, F') &&
            (init in closed + {e.state} || init in StatesOf(F'))
  {
    var e := F[i];
    var F' := Remove(F, i) + kids;
    StatesOfRemove(F, i);
    StatesOfAppend(Remove(F, i), kids);
  }

  /** A queue stays sorted by depth within one level after its front is expanded. */
  lemma ExpandOrderBfs(F: seq<Entry>, trace: seq<Entry>, kids: seq<Entry>)
    requires |F| > 0 && OrderOk(Bfs, F, trace)
    requires forall k :: 0 <= k < |kids| ==> |kids[k].path| == |F[0].path| + 1
    ensures OrderOk(Bfs, Remove(F, 0) + kids, trace + [F[0]])
  {
    var e := F[0];
    var F' := Remove(F, 0) + kids;
    var T' := trace + [e];
    BfsQueueAfter(F, trace, kids);
    assert forall t :: 0 <= t < |trace| ==> T'[t] == trace[t];
    assert DepthSorted(T');
  }

  /** The queue after BFS expands its front: sorted by depth, at the front's depth or one more. */
  lemma BfsQueueAfter(F: seq<Entry>, trace: seq<Entry>, kids: seq<Entry>)
    requires |F| > 0 && OrderOk(Bfs, F, trace)
    requires forall k :: 0 <= k < |kids| ==> |kids[k].path| == |F[0].path| + 1
    ensures var F' := Remove(F, 0) + kids;
            && DepthSorted(F')
            && forall k :: 0 <= k < |F'| ==> |F[0].path| <= |F'[k].path| <= |F[0].path| + 1
  {
    var R := Remove(F, 0);
    var F' := R + kids;
    assert forall k :: 0 <= k < |R| ==> F'[k] == F[k + 1];
    assert forall k :: |R| <= k < |F'| ==> F'[k] == kids[k - |R|];
  }

  /** A stack stays sorted by depth after its top is expanded, and depth rises by at most one per expansion. */
  lemma ExpandOrderDfs(F: seq<Entry>, trace: seq<Entry>, kids: seq<Entry>)
    requires |F| > 0 && OrderOk(Dfs, F, trace)
    requires |trace| == 0 ==> |F| == 1
    requires forall k :: 0 <= k < |kids| ==> |kids[k].path| == |F[|F| - 1].path| + 1
    ensures OrderOk(Dfs, Remove(F, |F| - 1) + kids, trace + [F[|F| - 1]])
  {
    var e := F[|F| - 1];
    var R := Remove(F, |F| - 1);
    var F' := R + kids;
    var T' := trace + [e];
    assert forall k :: 0 <= k < |R| ==> F'[k] == F[k];
    assert forall k :: |R| <= k < |F'| ==> F'[k] == kids[k - |R|];
    assert DepthSorted(F');
    assert forall t :: 0 <= t < |trace| ==> T'[t] == trace[t];
    assert T'[|T'| - 1] == e;
    assert DepthStepsUp(T');
  }

  /** Uniform-cost search expands costs in nondecreasing order. */
  lemma ExpandOrderUcs(F: seq<Entry>, i: nat, trace: seq<Entry>, kids: seq<Entry>)
    requires |F| > 0 && i == PopIndex(Ucs, F) && OrderOk(Ucs, F, trace)
    requires forall k :: 0 <= k < |kids| ==> kids[k].prio == F[i].prio + 1.0
    ensures OrderOk(Ucs, Remove(F, i) + kids, trace + [F[i]])
  {
    var e := F[i];
    var R := Remove(F, i);
    var F' := R + kids;
    var T' := trace + [e];
    assert forall k :: 0 <= k < |F| ==> e.prio <= F[k].prio;
    assert forall k :: 0 <= k < |R| ==> F'[k] == F[if k < i then k else k + 1];
    assert forall k :: |R| <= k < |F'| ==> F'[k] == kids[k - |R|];
    assert forall t :: 0 <= t < |trace| ==> T'[t] == trace[t];
    assert PrioSorted(T');
  }

  lemma ExpandOrder(alg: Algorithm, F: seq<Entry>, i: nat, trace: seq<Entry>, kids: seq<Entry>)
    requires |F| > 0 && i == PopIndex(alg, F) && OrderOk(alg, F, trace)
    requires |trace| == 0 ==> |F| == 1
    requires forall k :: 0 <= k < |kids| ==> |kids[k].path| == |F[i].path| + 1
    requires alg.Ucs? ==> forall k :: 0 <= k < |kids| ==> kids[k].prio == F[i].prio + 1.0
    ensures OrderOk(alg, Remove(F, i) + kids, trace + [F[i]])
  {
    match alg {
      case Bfs => ExpandOrderBfs(F, trace, kids);
      case Dfs => ExpandOrderDfs(F, trace, kids);
      case Ucs => ExpandOrderUcs(F, i, trace, kids);
      case _ =>
    }
  }

  lemma ExpandCounters(alg: Algorithm, F: seq<Entry>, i: nat, trace: seq<Entry>, counter: int, kids: seq<Entry>)
    requires i < |F| && CountersOk(alg, F, trace, counter)
    requires alg.Counted() ==> forall k :: 0 <= k < |kids| ==> kids[k].counter == counter + k
    ensures CountersOk(alg, Remove(F, i) + kids, trace + [F[i]], counter + |kids|)
  {
    if alg.Counted() {
      var e := F[i];
      var R := Remove(F, i);
      var F' := R + kids;
      var T' := trace + [e];
      assert forall k :: 0 <= k < |R| ==> F'[k] == F[if k < i then k else k + 1];
      assert forall k :: |R| <= k < |F'| ==> F'[k] == kids[k - |R|];
      assert forall t :: 0 <= t < |trace| ==> T'[t] == trace[t];
      assert T'[|trace|] == e;
    }
  }

  /** Expanding the popped entry with successors kids keeps the invariant, given what kids satisfy. */
  lemma ExpandInvWith(next: (State, Move) -> State, succ: (Setting, State) -> seq<Move>,
                      alg: Algorithm, c: Setting, init: State,
                      F: seq<Entry>, closed: set<State>, trace: seq<Entry>, counter: int, i: nat, kids: seq<Entry>,
                      L': Loop)
    requires alg.Greedy? ==> |c.cat| > 0
    requires Inv(next, succ, alg, c, init, F, closed, trace, counter)
    requires |F| > 0 && i == PopIndex(alg, F) && !IsGoal(F[i].state) && F[i].state !in closed
    requires AllOk(next, succ, alg, c, init, kids)
    requires forall k :: 0 <= k < |kids| ==>
               && |kids[k].path| == |F[i].path| + 1
               && (alg.Ucs? ==> kids[k].prio == F[i].prio + 1.0)
               && (alg.Counted() ==> kids[k].counter == counter + k)
    requires forall m :: m in succ(c, F[i].state) ==>
               next(F[i].state, m) in closed + {F[i].state} || next(F[i].state, m) in StatesOf(kids)
    requires L' == Loop(Remove(F, i) + kids, closed + {F[i].state}, trace + [F[i]], counter + |kids|)
    ensures Inv(next, succ, alg, c, init, L'.frontier, L'.closed, L'.trace, L'.counter)
  {
    AllOkRemove(next, succ, alg, c, init, F, i);
    AllOkJoin(next, succ, alg, c, init, Remove(F, i), kids);
    ExpandTrace(next, succ, alg, c, init, closed, trace, F[i]);
    ExpandCovered(next, succ, c, init, F, closed, i, kids);
    ExpandOrder(alg, F, i, trace, kids);
    ExpandCounters(alg, F, i, trace, counter, kids);
  }

  // ---------------------------------------------------------------------------
  // The searches' verdicts

  /** An empty frontier leaves a closed set that shows no valid plan from the start reaches a goal. */
  lemma EmptyFrontierShowsUnsolvable(next: (State, Move) -> State, succ: (Setting, State) -> seq<Move>,
                                     alg: Algorithm, c: Setting, init: State,
                                     closed: set<State>, trace: seq<Entry>, counter: int)
    requires alg.Greedy? ==> |c.cat| > 0
    requires Inv(next, succ, alg, c, init, [], closed, trace, counter)
    ensures AlwaysHolds(next, succ, c, NotGoal, init)
  {
    assert StatesOf([]) == {};
    forall x | x in closed
      ensures NotGoal(x)
    {
      var k :| 0 <= k < |trace| && trace[k].state == x;
    }
    ClosedSetShowsAlwaysHolds(next, succ, c, NotGoal, closed, init);
  }

  /** What the invariant says about the expansions so far. */
  lemma TraceFacts(next: (State, Move) -> State, succ: (Setting, State) -> seq<Move>,
                   alg: Algorithm, c: Setting, init: State,
                   F: seq<Entry>, closed: set<State>, trace: seq<Entry>, counter: int)
    requires alg.Greedy? ==> |c.cat| > 0
    requires Inv(next, succ, alg, c, init, F, closed, trace, counter)
    ensures Expansions(next, succ, alg, c, init, trace)
  {
  }

  /**
   * The entry popped from a nonempty frontier: the start while nothing is
   * expanded, and, if its state has no diamonds, the end of a plan that
   * solves the start.
   */
  lemma Popped(next: (State, Move) -> State, succ: (Setting, State) -> seq<Move>,
               alg: Algorithm, c: Setting, init: State,
               F: seq<Entry>, closed: set<State>, trace: seq<Entry>, counter: int)
    requires alg.Greedy? ==> |c.cat| > 0
    requires Inv(next, succ, alg, c, init, F, closed, trace, counter) && |F| > 0
    ensures var e := F[PopIndex(alg, F)];
            && (|trace| == 0 ==> e.state == init && e.path == [])
            && (IsGoal(e.state) ==> ValidPlan(next, succ, c, init, e.path) && IsGoal(Run(next, init, e.path)))
            && (IsGoal(e.state) && |e.path| == 0 ==> IsGoal(init))
    ensures Expansions(next, succ, alg, c, init, trace)
  {
    TraceFacts(next, succ, alg, c, init, F, closed, trace, counter);
  }

  /** When the loop stops: the trace facts, and an empty frontier shows the start unsolvable. */
  lemma Finished(next: (State, Move) -> State, succ: (Setting, State) -> seq<Move>,
                 alg: Algorithm, c: Setting, init: State,
                 F: seq<Entry>, closed: set<State>, trace: seq<Entry>, counter: int)
    requires alg.Greedy? ==> |c.cat| > 0
    requires Inv(next, succ, alg, c, init, F, closed, trace, counter)
    ensures |F| == 0 ==> AlwaysHolds(next, succ, c, NotGoal, init)
    ensures Expansions(next, succ, alg, c, init, trace)
  {
    TraceFacts(next, succ, alg, c, init, F, closed, trace, counter);
    if |F| == 0 {
      EmptyFrontierShowsUnsolvable(next, succ, alg, c, init, closed, trace, counter);
    }
  }

  /** The loop's variables: frontier, closed set, trace of expansions and next tie counter. */
  datatype Loop = Loop(frontier: seq<Entry>, closed: set<State>, trace: seq<Entry>, counter: int)

  /**
   * One iteration past the goal test: the popped entry is skipped if its
   * state is closed and expanded otherwise.
   */
  function Turn(next: (State, Move) -> State, succ: (Setting, State) -> seq<Move>,
                alg: Algorithm, c: Setting, L: Loop): (r: Loop)
    requires |L.frontier| > 0
    ensures || (r.trace == L.trace && |r.frontier| == |L.frontier| - 1)
            || r.trace == L.trace + [L.frontier[PopIndex(alg, L.frontier)]]
  {
    var F := L.frontier;
    var i := PopIndex(alg, F);
    var e := F[i];
    if e.state in L.closed then Loop(Remove(F, i), L.closed, L.trace, L.counter)
    else
      var ms := succ(c, e.state);
      var kids := Offspring(next, alg, e, ms, |ms|, L.closed + {e.state}, L.counter);
      Loop(Remove(F, i) + kids, L.closed + {e.state}, L.trace + [e], L.counter + |kids|)
  }

  lemma TurnSkipInv(next: (State, Move) -> State, succ: (Setting, State) -> seq<Move>,
                    alg: Algorithm, c: Setting, init: State, L: Loop)
    requires alg.Greedy? ==> |c.cat| > 0
    requires Inv(next, succ, alg, c, init, L.frontier, L.closed, L.trace, L.counter)
    requires |L.frontier| > 0 && L.frontier[PopIndex(alg, L.frontier)].state in L.closed
    ensures var L' := Turn(next, succ, alg, c, L);
            Inv(next, succ, alg, c, init, L'.frontier, L'.closed, L'.trace, L'.counter)
  {
    SkipInv(next, succ, alg, c, init, L.frontier, L.closed, L.trace, L.counter, PopIndex(alg, L.frontier));
  }

  lemma TurnExpandInv(next: (State, Move) -> State, succ: (Setting, State) -> seq<Move>,
                      alg: Algorithm, c: Setting, init: State, L: Loop)
    requires alg.Greedy? ==> |c.cat| > 0
    requires Inv(next, succ, alg, c, init, L.frontier, L.closed, L.trace, L.counter)
    requires |L.frontier| > 0
    requires var e := L.frontier[PopIndex(alg, L.frontier)]; !IsGoal(e.state) && e.state !in L.closed
    ensures var L' := Turn(next, succ, alg, c, L);
            Inv(next, succ, alg, c, init, L'.frontier, L'.closed, L'.trace, L'.counter)
  {
    var F := L.frontier;
    var i := PopIndex(alg, F);
    var e := F[i];
    var ms := succ(c, e.state);
    var kids := Offspring(next, alg, e, ms, |ms|, L.closed + {e.state}, L.counter);
    KidsFacts(next, succ, alg, c, init, e, L.closed + {e.state}, L.counter, kids);
    ExpandInvWith(next, succ, alg, c, init, F, L.closed, L.trace, L.counter, i, kids, Turn(next, succ, alg, c, L));
  }

  /** An iteration past the goal test keeps the loop invariant. */
  lemma TurnInv(next: (State, Move) -> State, succ: (Setting, State) -> seq<Move>,
                alg: Algorithm, c: Setting, init: State, L: Loop)
    requires alg.Greedy? ==> |c.cat| > 0
    requires Inv(next, succ, alg, c, init, L.frontier, L.closed, L.trace, L.counter)
    requires |L.frontier| > 0 && !IsGoal(L.frontier[PopIndex(alg, L.frontier)].state)
    ensures var L' := Turn(next, succ, alg, c, L);
            Inv(next, succ, alg, c, init, L'.frontier, L'.closed, L'.trace, L'.counter)
  {
    if L.frontier[PopIndex(alg, L.frontier)].state in L.closed {
      TurnSkipInv(next, succ, alg, c, init, L);
    } else {
      TurnExpandInv(next, succ, alg, c, init, L);
    }
  }

  /**
   * One iteration: what the popped entry tells about the search, and, when
   * its state has diamonds, the invariant for the loop's next variables.
   */
  lemma Iterate(next: (State, Move) -> State, succ: (Setting, State) -> seq<Move>,
                alg: Algorithm, c: Setting, init: State, L: Loop)
    requires alg.Greedy? ==> |c.cat| > 0
    requires Inv(next, succ, alg, c, init, L.frontier, L.closed, L.trace, L.counter) && |L.frontier| > 0
    ensures var e := L.frontier[PopIndex(alg, L.frontier)];
            && (|L.trace| == 0 ==> e.state == init && e.path == [])
            && (IsGoal(e.state) ==> ValidPlan(next, succ, c, init, e.path) && IsGoal(Run(next, init, e.path)))
            && (IsGoal(e.state) && |e.path| == 0 ==> IsGoal(init))
    ensures Expansions(next, succ, alg, c, init, L.trace)
    ensures !IsGoal(L.frontier[PopIndex(alg, L.frontier)].state) ==>
              var L' := Turn(next, succ, alg, c, L);
              Inv(next, succ, alg, c, init, L'.frontier, L'.closed, L'.trace, L'.counter)
  {
    Popped(next, succ, alg, c, init, L.frontier, L.closed, L.trace, L.counter);
    if !IsGoal(L.frontier[PopIndex(alg, L.frontier)].state) {
      TurnInv(next, succ, alg, c, init, L);
    }
  }

  // ---------------------------------------------------------------------------
  // Shortest plans: what a queue, or a heap of unit costs, adds

  /**
   * Every move generated at an expanded state leads to a closed state or to
   * a frontier entry at most one move deeper than the path that state was
   * expanded with.
   */
  ghost predicate CoveredNear(next: (State, Move) -> State, succ: (Setting, State) -> seq<Move>,
                              c: Setting, F: seq<Entry>, closed: set<State>, trace: seq<Entry>) {
    forall t, m :: 0 <= t < |trace| && m in succ(c, trace[t].state) ==>
      || next(trace[t].state, m) in closed
      || exists k :: 0 <= k < |F| && F[k].state == next(trace[t].state, m) && |F[k].path| <= |trace[t].path| + 1
  }

  /** No valid plan reaches an expanded state in fewer moves than the path it was expanded with. */
  ghost predicate ShortestExpanded(next: (State, Move) -> State, succ: (Setting, State) -> seq<Move>,
                                   c: Setting, init: State, trace: seq<Entry>) {
    forall p, t :: ValidPlan(next, succ, c, init, p) && 0 <= t < |trace| && trace[t].state == Run(next, init, p) ==>
      |trace[t].path| <= |p|
  }

  /** The start is closed once anything is expanded. */
  ghost predicate StartClosed(init: State, closed: set<State>, trace: seq<Entry>) {
    |trace| > 0 ==> init in closed
  }

  /** The algorithms that always pop an entry with the shortest path on the frontier. */
  predicate Shallowest(alg: Algorithm) {
    alg.Bfs? || alg.Ucs?
  }

  /** The part of the loop invariant about path lengths. */
  ghost predicate ShortInv(next: (State, Move) -> State, succ: (Setting, State) -> seq<Move>,
                           alg: Algorithm, c: Setting, init: State, F: seq<Entry>, closed: set<State>, trace: seq<Entry>) {
    && CoveredNear(next, succ, c, F, closed, trace)
    && StartClosed(init, closed, trace)
    && (Shallowest(alg) ==> ShortestExpanded(next, succ, c, init, trace))
  }

  /** What the path-length lemmas need from the main invariant. */
  lemma InvFacts(next: (State, Move) -> State, succ: (Setting, State) -> seq<Move>,
                 alg: Algorithm, c: Setting, init: State,
                 F: seq<Entry>, closed: set<State>, trace: seq<Entry>, counter: int)
    requires alg.Greedy? ==> |c.cat| > 0
    requires Inv(next, succ, alg, c, init, F, closed, trace, counter)
    ensures closed == StatesOf(trace) && NoGoal(trace)
    ensures |trace| == 0 ==> |F| == 1 && F[0].state == init && F[0].path == []
    ensures forall k :: 0 <= k < |F| ==> PrioOk(alg, F[k])
    ensures alg.Bfs? ==> DepthSorted(F)
  {
    if |trace| == 0 {
      assert F == [Start(next, alg, c, init)];
    }
    forall k | 0 <= k < |F|
      ensures PrioOk(alg, F[k])
    {
      assert EntryOk(next, succ, alg, c, init, F[k]);
    }
  }

  /** Breadth-first and uniform-cost search pop an entry whose path is no longer than any other on the frontier. */
  lemma PopShallowest(alg: Algorithm, F: seq<Entry>)
    requires |F| > 0 && Shallowest(alg)
    requires forall k :: 0 <= k < |F| ==> PrioOk(alg, F[k])
    requires alg.Bfs? ==> DepthSorted(F)
    ensures forall k :: 0 <= k < |F| ==> |F[PopIndex(alg, F)].path| <= |F[k].path|
  {
    var i := PopIndex(alg, F);
    if alg.Ucs? {
      forall k | 0 <= k < |F|
        ensures |F[i].path| <= |F[k].path|
      {
        assert !KeyLess(alg, F[k], F[i]);
        assert PrioOk(alg, F[i]) && PrioOk(alg, F[k]);
      }
    }
  }

  /**
   * A state reached by a valid plan p and not yet closed has some frontier
   * entry whose path is at most as long as p.
   */
  lemma {:induction false} ShallowEntry(next: (State, Move) -> State, succ: (Setting, State) -> seq<Move>,
                                        c: Setting, init: State,
                                        F: seq<Entry>, closed: set<State>, trace: seq<Entry>, p: seq<Move>)
    requires closed == StatesOf(trace)
    requires |trace| == 0 ==> |F| > 0 && F[0].path == []
    requires CoveredNear(next, succ, c, F, closed, trace) && StartClosed(init, closed, trace)
    requires ShortestExpanded(next, succ, c, init, trace)
    requires ValidPlan(next, succ, c, init, p) && Run(next, init, p) !in closed
    ensures exists k :: 0 <= k < |F| && |F[k].path| <= |p|
    decreases |p|
  {
    if |p| == 0 {
      assert |trace| == 0;
      assert |F[0].path| <= |p|;
    } else {
      var pre := p[..|p| - 1];
      var m := p[|p| - 1];
      assert p == pre + [m];
      ValidAppend(next, succ, c, init, pre, m);
      RunAppend(next, init, pre, m);
      var x := Run(next, init, pre);
      if x !in closed {
        ShallowEntry(next, succ, c, init, F, closed, trace, pre);
      } else {
        var t :| 0 <= t < |trace| && trace[t].state == x;
        assert |trace[t].path| <= |pre|;
        assert m in succ(c, trace[t].state);
        var k :| 0 <= k < |F| && F[k].state == next(x, m) && |F[k].path| <= |trace[t].path| + 1;
      }
    }
  }

  /** Taking a closed entry off the frontier keeps every expanded state's moves near the frontier. */
  lemma SkipNear(next: (State, Move) -> State, succ: (Setting, State) -> seq<Move>,
                 c: Setting, F: seq<Entry>, closed: set<State>, trace: seq<Entry>, i: nat)
    requires i < |F| && F[i].state in closed && CoveredNear(next, succ, c, F, closed, trace)
    ensures CoveredNear(next, succ, c, Remove(F, i), closed, trace)
  {
    var R := Remove(F, i);
    forall t, m | 0 <= t < |trace| && m in succ(c, trace[t].state) && next(trace[t].state, m) !in closed
      ensures exists k :: 0 <= k < |R| && R[k].state == next(trace[t].state, m) && |R[k].path| <= |trace[t].path| + 1
    {
      var k :| 0 <= k < |F| && F[k].state == next(trace[t].state, m) && |F[k].path| <= |trace[t].path| + 1;
      if k < i {
        assert R[k] == F[k];
      } else {
        assert R[k - 1] == F[k];
      }
    }
  }

  /** Skipping a closed entry keeps the path-length invariant. */
  lemma TurnSkipShort(next: (State, Move) -> State, succ: (Setting, State) -> seq<Move>,
                      alg: Algorithm, c: Setting, init: State, L: Loop)
    requires ShortInv(next, succ, alg, c, init, L.frontier, L.closed, L.trace)
    requires |L.frontier| > 0 && L.frontier[PopIndex(alg, L.frontier)].state in L.closed
    ensures var L' := Turn(next, succ, alg, c, L);
            ShortInv(next, succ, alg, c, init, L'.frontier, L'.closed, L'.trace)
  {
    var i := PopIndex(alg, L.frontier);
    SkipNear(next, succ, c, L.frontier, L.closed, L.trace, i);
    assert Turn(next, succ, alg, c, L) == Loop(Remove(L.frontier, i), L.closed, L.trace, L.counter);
  }

  /** Expanding the popped entry keeps the frontier near every expanded state's moves. */
  lemma ExpandNear(next: (State, Move) -> State, succ: (Setting, State) -> seq<Move>,
                   c: Setting, F: seq<Entry>, closed: set<State>, trace: seq<Entry>, i: nat, kids: seq<Entry>)
    requires i < |F| && CoveredNear(next, succ, c, F, closed, trace)
    requires forall k :: 0 <= k < |kids| ==> |kids[k].path| == |F[i].path| + 1
    requires forall m :: m in succ(c, F[i].state) ==>
               next(F[i].state, m) in closed + {F[i].state} || next(F[i].state, m) in StatesOf(kids)
    ensures CoveredNear(next, succ, c, Remove(F, i) + kids, closed + {F[i].state}, trace + [F[i]])
  {
    var e := F[i];
    var R := Remove(F, i);
    var F' := R + kids;
    var T' := trace + [e];
    var closed' := closed + {e.state};
    forall t, m | 0 <= t < |T'| && m in succ(c, T'[t].state) && next(T'[t].state, m) !in closed'
      ensures exists k :: 0 <= k < |F'| && F'[k].state == next(T'[t].state, m) && |F'[k].path| <= |T'[t].path| + 1
    {
      if t < |trace| {
        assert T'[t] == trace[t];
        var k :| 0 <= k < |F| && F[k].state == next(trace[t].state, m) && |F[k].path| <= |trace[t].path| + 1;
        if k < i {
          assert F'[k] == F[k];
        } else {
          assert k != i;
          assert F'[k - 1] == F[k];
        }
      } else {
        assert T'[t] == e;
        var j :| 0 <= j < |kids| && kids[j].state == next(e.state, m);
        assert F'[|R| + j] == kids[j];
      }
    }
  }

  /** The expanded entry is reached by no plan shorter than its path, when it is a shallowest frontier entry. */
  lemma ExpandShortest(next: (State, Move) -> State, succ: (Setting, State) -> seq<Move>,
                       c: Setting, init: State, F: seq<Entry>, closed: set<State>, trace: seq<Entry>, i: nat)
    requires i < |F| && F[i].state !in closed
    requires forall k :: 0 <= k < |F| ==> |F[i].path| <= |F[k].path|
    requires closed == StatesOf(trace)
    requires |trace| == 0 ==> |F| > 0 && F[0].path == []
    requires CoveredNear(next, succ, c, F, closed, trace) && StartClosed(init, closed, trace)
    requires ShortestExpanded(next, succ, c, init, trace)
    ensures ShortestExpanded(next, succ, c, init, trace + [F[i]])
  {
    var T' := trace + [F[i]];
    forall p, t | ValidPlan(next, succ, c, init, p) && 0 <= t < |T'| && T'[t].state == Run(next, init, p)
      ensures |T'[t].path| <= |p|
    {
      if t < |trace| {
        assert T'[t] == trace[t];
      } else {
        assert T'[t] == F[i];
        ShallowEntry(next, succ, c, init, F, closed, trace, p);
      }
    }
  }

  /** Expanding entry i of the frontier, with children kids, keeps the path-length invariant. */
  lemma ExpandShort(next: (State, Move) -> State, succ: (Setting, State) -> seq<Move>,
                    alg: Algorithm, c: Setting, init: State,
                    F: seq<Entry>, closed: set<State>, trace: seq<Entry>, i: nat, kids: seq<Entry>)
    requires i < |F| && F[i].state !in closed
    requires Shallowest(alg) ==> forall k :: 0 <= k < |F| ==> |F[i].path| <= |F[k].path|
    requires closed == StatesOf(trace)
    requires |trace| == 0 ==> |F| == 1 && F[0].state == init && F[0].path == []
    requires ShortInv(next, succ, alg, c, init, F, closed, trace)
    requires forall k :: 0 <= k < |kids| ==> |kids[k].path| == |F[i].path| + 1
    requires forall m :: m in succ(c, F[i].state) ==>
               next(F[i].state, m) in closed + {F[i].state} || next(F[i].state, m) in StatesOf(kids)
    ensures ShortInv(next, succ, alg, c, init, Remove(F, i) + kids, closed + {F[i].state}, trace + [F[i]])
  {
    ExpandNear(next, succ, c, F, closed, trace, i, kids);
    if Shallowest(alg) {
      ExpandShortest(next, succ, c, init, F, closed, trace, i);
    }
  }

  /** Expanding the popped entry keeps the path-length invariant. */
  lemma TurnExpandShort(next: (State, Move) -> State, succ: (Setting, State) -> seq<Move>,
                        alg: Algorithm, c: Setting, init: State, L: Loop)
    requires |L.frontier| > 0
    requires var e := L.frontier[PopIndex(alg, L.frontier)];
             e.state !in L.closed && EntryOk(next, succ, alg, c, init, e)
    requires L.closed == StatesOf(L.trace)
    requires |L.trace| == 0 ==> |L.frontier| == 1 && L.frontier[0].state == init && L.frontier[0].path == []
    requires forall k :: 0 <= k < |L.frontier| ==> PrioOk(alg, L.frontier[k])
    requires alg.Bfs? ==> DepthSorted(L.frontier)
    requires ShortInv(next, succ, alg, c, init, L.frontier, L.closed, L.trace)
    ensures var L' := Turn(next, succ, alg, c, L);
            ShortInv(next, succ, alg, c, init, L'.frontier, L'.closed, L'.trace)
  {
    var F := L.frontier;
    var i := PopIndex(alg, F);
    var e := F[i];
    var ms := succ(c, e.state);
    var kids := Offspring(next, alg, e, ms, |ms|, L.closed + {e.state}, L.counter);
    KidsFacts(next, succ, alg, c, init, e, L.closed + {e.state}, L.counter, kids);
    if Shallowest(alg) {
      PopShallowest(alg, F);
    }
    ExpandShort(next, succ, alg, c, init, F, L.closed, L.trace, i, kids);
    assert Turn(next, succ, alg, c, L) == Loop(Remove(F, i) + kids, L.closed + {e.state}, L.trace + [e], L.counter + |kids|);
  }

  /** An iteration past the goal test keeps the path-length invariant. */
  lemma TurnShort(next: (State, Move) -> State, succ: (Setting, State) -> seq<Move>,
                  alg: Algorithm, c: Setting, init: State, L: Loop)
    requires alg.Greedy? ==> |c.cat| > 0
    requires Inv(next, succ, alg, c, init, L.frontier, L.closed, L.trace, L.counter)
    requires ShortInv(next, succ, alg, c, init, L.frontier, L.closed, L.trace)
    requires |L.frontier| > 0 && !IsGoal(L.frontier[PopIndex(alg, L.frontier)].state)
    ensures var L' := Turn(next, succ, alg, c, L);
            ShortInv(next, succ, alg, c, init, L'.frontier, L'.closed, L'.trace)
  {
    if L.frontier[PopIndex(alg, L.frontier)].state in L.closed {
      TurnSkipShort(next, succ, alg, c, init, L);
    } else {
      InvFacts(next, succ, alg, c, init, L.frontier, L.closed, L.trace, L.counter);
      assert EntryOk(next, succ, alg, c, init, L.frontier[PopIndex(alg, L.frontier)]);
      TurnExpandShort(next, succ, alg, c, init, L);
    }
  }

  /** A goal popped by breadth-first or uniform-cost search ends a shortest solving plan. */
  lemma GoalPoppedIsShortest(next: (State, Move) -> State, succ: (Setting, State) -> seq<Move>,
                             alg: Algorithm, c: Setting, init: State,
                             F: seq<Entry>, closed: set<State>, trace: seq<Entry>, counter: int)
    requires alg.Greedy? ==> |c.cat| > 0
    requires Inv(next, succ, alg, c, init, F, closed, trace, counter)
    requires ShortInv(next, succ, alg, c, init, F, closed, trace) && Shallowest(alg)
    requires |F| > 0 && IsGoal(F[PopIndex(alg, F)].state)
    ensures forall q :: SolvedBy(next, succ, c, init, q) ==> |F[PopIndex(alg, F)].path| <= |q|
  {
    InvFacts(next, succ, alg, c, init, F, closed, trace, counter);
    PopShallowest(alg, F);
    forall q | SolvedBy(next, succ, c, init, q)
      ensures |F[PopIndex(alg, F)].path| <= |q|
    {
      ShallowEntry(next, succ, c, init, F, closed, trace, q);
    }
  }

  /** What the loop returns when the popped entry is a goal. */
  lemma GoalPopped(next: (State, Move) -> State, succ: (Setting, State) -> seq<Move>,
                   alg: Algorithm, c: Setting, init: State, L: Loop)
    requires alg.Greedy? ==> |c.cat| > 0
    requires Inv(next, succ, alg, c, init, L.frontier, L.closed, L.trace, L.counter)
    requires ShortInv(next, succ, alg, c, init, L.frontier, L.closed, L.trace)
    requires |L.frontier| > 0 && IsGoal(L.frontier[PopIndex(alg, L.frontier)].state)
    ensures var e := L.frontier[PopIndex(alg, L.frontier)];
            && (|L.trace| == 0 ==> e.path == [])
            && (|e.path| == 0 ==> IsGoal(init))
            && (|e.path| > 0 ==> SolvedBy(next, succ, c, init, e.path) && !AlwaysHolds(next, succ, c, NotGoal, init))
            && (Shallowest(alg) ==> forall q :: SolvedBy(next, succ, c, init, q) ==> |e.path| <= |q|)
    ensures Expansions(next, succ, alg, c, init, L.trace)
  {
    var e := L.frontier[PopIndex(alg, L.frontier)];
    Iterate(next, succ, alg, c, init, L);
    assert !NotGoal(Run(next, init, e.path));
    if Shallowest(alg) {
      GoalPoppedIsShortest(next, succ, alg, c, init, L.frontier, L.closed, L.trace, L.counter);
    }
  }

  /** One iteration past the goal test keeps both invariants. */
  lemma Advance(next: (State, Move) -> State, succ: (Setting, State) -> seq<Move>,
                alg: Algorithm, c: Setting, init: State, L: Loop)
    requires alg.Greedy? ==> |c.cat| > 0
    requires Inv(next, succ, alg, c, init, L.frontier, L.closed, L.trace, L.counter)
    requires ShortInv(next, succ, alg, c, init, L.frontier, L.closed, L.trace)
    requires |L.frontier| > 0 && !IsGoal(L.frontier[PopIndex(alg, L.frontier)].state)
    ensures |L.trace| == 0 ==> !IsGoal(init)
    ensures var L' := Turn(next, succ, alg, c, L);
            && Inv(next, succ, alg, c, init, L'.frontier, L'.closed, L'.trace, L'.counter)
            && ShortInv(next, succ, alg, c, init, L'.frontier, L'.closed, L'.trace)
  {
    Iterate(next, succ, alg, c, init, L);
    TurnShort(next, succ, alg, c, init, L);
  }

  /** The path-length invariant before the first iteration. */
  lemma InitShort(next: (State, Move) -> State, succ: (Setting, State) -> seq<Move>,
                  alg: Algorithm, c: Setting, init: State)
    requires alg.Greedy? ==> |c.cat| > 0
    ensures ShortInv(next, succ, alg, c, init, [Start(next, alg, c, init)], {}, [])
  {
  }

  /** Both invariants, over the loop's variables. */
  ghost predicate Holds(next: (State, Move) -> State, succ: (Setting, State) -> seq<Move>,
                        alg: Algorithm, c: Setting, init: State, L: Loop)
    requires alg.Greedy? ==> |c.cat| > 0
  {
    match L
    case Loop(F, closed, trace, counter) =>
      Inv(next, succ, alg, c, init, F, closed, trace, counter) && ShortInv(next, succ, alg, c, init, F, closed, trace)
  }
}
