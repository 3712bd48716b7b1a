/**
 * The frontier loop shared by every graph search of the program
 * (breadth-first, depth-first, uniform-cost, greedy best-first, A* and
 * weighted A*): pop an entry, return its first move if its state has no
 * diamond, skip it if its state was already expanded, otherwise mark the
 * state and push one entry per generated move.  The algorithms differ in
 * which entry is popped (front, back, or least heap key), in the priority
 * and tie counter they store, and in whether successors already expanded are
 * pushed at all.
 *
 * The source loops run until the frontier empties; here the loop also stops
 * after `fuel` iterations and then reports OutOfFuel.  The loop is written
 * over any transition `next` and move generator `succ`; the algorithms
 * instantiate them with the game's `Step` and `Expand`.
 */
module Search {
  import opened Wrappers
  import opened Grid
  import opened Blocks
  import opened Moves
  import opened Board
  import opened Plans
  import opened Space
  import opened Order

  /**
   * A frontier entry: the stored priority (cost, h or f), the tie counter, the
   * state and the moves that led to it from the start.  The path's length is
   * the g of the A* entries.
   */
  datatype Entry = Entry(prio: real, counter: int, state: State, path: seq<Move>)

  datatype Algorithm = Bfs | Dfs | Ucs | Greedy | AStar | WeightedAStar(w: real) {

    /** The heap entries carry `node_counter` as a tie-breaker. */
    predicate Counted() {
      Ucs? || Greedy? || AStar?
    }

    /**
     * Successors whose state is already closed are not pushed.  For A* this
     * is the corrected loop; the loop as written closes heap keys, which
     * module KeyClosed models.
     */
    predicate Prunes() {
      AStar? || WeightedAStar?
    }

    /** The frontier is a heap. */
    predicate IsHeap() {
      !Bfs? && !Dfs?
    }
  }

  /** What `get_best_move` returns, or OutOfFuel when the step budget ran out first. */
  datatype Outcome = Found(move: Move) | NoMove | OutOfFuel

  /** The first move of a path, as `first_move` and `path[0] if path else None` give it. */
  function FirstOf(path: seq<Move>): Option<Move> {
    if |path| == 0 then None else Some(path[0])
  }

  /** A valid plan from s, under the transition next and generator succ, whose last state has no diamond. */
  ghost predicate SolvedBy(next: (State, Move) -> State, succ: (Setting, State) -> seq<Move>,
                           c: Setting, s: State, plan: seq<Move>) {
    ValidPlan(next, succ, c, s, plan) && IsGoal(Run(next, s, plan))
  }

  /** The number of diamonds left: the heuristic of the informed searches. */
  function H(s: State): real {
    DiamondCount(s) as real
  }

  /** f = g + w * h of weighted A*, for a path of g moves that leads to s. */
  function WeightedF(w: real, g: nat, s: State): real {
    g as real + w * H(s)
  }

  // ---------------------------------------------------------------------------
  // Heap keys

  /**
   * Python's `<` on the heap tuples, as far as it is ever decided:
   * (cost or h, counter) for uniform-cost and greedy search, (f, g, counter)
   * for A*, and (f, g, state, path) for weighted A*.  Queues and stacks
   * compare nothing.
   */
  function KeyLess(alg: Algorithm, a: Entry, b: Entry): bool {
    match alg
    case Bfs => false
    case Dfs => false
    case Ucs => a.prio < b.prio || (a.prio == b.prio && a.counter < b.counter)
    case Greedy => a.prio < b.prio || (a.prio == b.prio && a.counter < b.counter)
    case AStar =>
      || a.prio < b.prio
      || (a.prio == b.prio && |a.path| < |b.path|)
      || (a.prio == b.prio && |a.path| == |b.path| && a.counter < b.counter)
    case WeightedAStar(_) =>
      || a.prio < b.prio
      || (a.prio == b.prio && |a.path| < |b.path|)
      || (a.prio == b.prio && |a.path| == |b.path| && StateLess(a.state, b.state))
      || (a.prio == b.prio && |a.path| == |b.path| && a.state == b.state && PathLess(a.path, b.path))
  }

  /** The heap order is irreflexive and transitive. */
  lemma KeyLessIsStrict(alg: Algorithm)
    ensures forall a :: !KeyLess(alg, a, a)
    ensures forall a, b, c :: KeyLess(alg, a, b) && KeyLess(alg, b, c) ==> KeyLess(alg, a, c)
  {
    StateOrder();
    PathOrder();
  }

  /** The index of an entry among F[..k] with no strictly smaller key (the first such one met). */
  function LeastFrom(alg: Algorithm, F: seq<Entry>, k: nat): (r: nat)
    requires 0 < k <= |F|
    ensures r < k
    ensures forall j :: 0 <= j < k ==> !KeyLess(alg, F[j], F[r])
  {
    if k == 1 then
      KeyLessIsStrict(alg);
      0
    else
      var b := LeastFrom(alg, F, k - 1);
      KeyLessIsStrict(alg);
      if KeyLess(alg, F[k - 1], F[b]) then k - 1 else b
  }

  /** `popleft()`, `pop()` or `heappop`: the index of the entry taken off the frontier. */
  function PopIndex(alg: Algorithm, F: seq<Entry>): (r: nat)
    requires |F| > 0
    ensures r < |F|
    ensures alg.Bfs? ==> r == 0
    ensures alg.Dfs? ==> r == |F| - 1
    ensures forall j :: 0 <= j < |F| ==> !KeyLess(alg, F[j], F[r])
  {
    match alg
    case Bfs => 0
    case Dfs => |F| - 1
    case _ => LeastFrom(alg, F, |F|)
  }

  // ---------------------------------------------------------------------------
  // Entries

  /** The entry pushed for the start state. */
  function Start(next: (State, Move) -> State, alg: Algorithm, c: Setting, init: State): Entry
    requires alg.Greedy? ==> |c.cat| > 0
  {
    match alg
    case Bfs => Entry(0.0, 0, init, [])
    case Dfs => Entry(0.0, 0, init, [])
    case Ucs => Entry(0.0, 0, init, [])
    // the first block is evaluated at (0, 0), legal or not
    case Greedy => Entry(H(next(init, Move(c.cat[0], 0, 0))), 0, init, [])
    // the start entry holds the state hash where the others hold the counter; it is popped alone
    case AStar => Entry(H(init), -1, init, [])
    case WeightedAStar(w) => Entry(WeightedF(w, 0, init), 0, init, [])
  }

  /** The value of `node_counter` once the start entry is pushed. */
  function FirstCounter(alg: Algorithm): int {
    if alg.Ucs? || alg.Greedy? then 1 else 0
  }

  /** The entry pushed for the successor of e by m, with tie counter cnt. */
  function Child(next: (State, Move) -> State, alg: Algorithm, e: Entry, m: Move, cnt: int): (r: Entry)
    ensures r.state == next(e.state, m) && r.path == e.path + [m]
  {
    var s := next(e.state, m);
    var g := (|e.path| + 1) as real;
    var prio :=
      match alg
      case Bfs => 0.0
      case Dfs => 0.0
      case Ucs => e.prio + 1.0
      case Greedy => H(s)
      case AStar => g + H(s)
      case WeightedAStar(w) => WeightedF(w, |e.path| + 1, s);
    Entry(prio, if alg.Counted() then cnt else 0, s, e.path + [m])
  }

  /** The states held by a sequence of entries. */
  ghost function StatesOf(F: seq<Entry>): set<State> {
    set k | 0 <= k < |F| :: F[k].state
  }

  /** Whether the successor of e by m is left out because its state is closed. */
  predicate Pruned(next: (State, Move) -> State, alg: Algorithm, e: Entry, m: Move, closed: set<State>) {
    alg.Prunes() && next(e.state, m) in closed
  }

  /**
   * The entries pushed for the first i generated moves ms[..i] when e is
   * expanded, in order; a pruning search leaves out successors whose state is
   * closed.  The counter grows by one per pushed entry.
   */
  function Offspring(next: (State, Move) -> State, alg: Algorithm, e: Entry, ms: seq<Move>, i: nat,
                     closed: set<State>, cnt: int): (r: seq<Entry>)
    requires i <= |ms|
    ensures |r| <= i
  {
    if i == 0 then []
    else
      var pre := Offspring(next, alg, e, ms, i - 1, closed, cnt);
      if Pruned(next, alg, e, ms[i - 1], closed) then pre
      else pre + [Child(next, alg, e, ms[i - 1], cnt + |pre|)]
  }

  /** The k-th pushed entry is the child of one of the first i moves, with counter cnt + k. */
  lemma {:induction false} OffspringChildAt(next: (State, Move) -> State, alg: Algorithm, e: Entry, ms: seq<Move>, i: nat,
                                            closed: set<State>, cnt: int, k: nat)
    requires i <= |ms| && k < |Offspring(next, alg, e, ms, i, closed, cnt)|
    ensures exists j :: 0 <= j < i && Offspring(next, alg, e, ms, i, closed, cnt)[k] == Child(next, alg, e, ms[j], cnt + k)
  {
    var pre := Offspring(next, alg, e, ms, i - 1, closed, cnt);
    var r := Offspring(next, alg, e, ms, i, closed, cnt);
    var c := Child(next, alg, e, ms[i - 1], cnt + |pre|);
    var pruned := Pruned(next, alg, e, ms[i - 1], closed);
    assert r == if pruned then pre else pre + [c];
    if k < |pre| {
      OffspringChildAt(next, alg, e, ms, i - 1, closed, cnt, k);
      var j :| 0 <= j < i - 1 && pre[k] == Child(next, alg, e, ms[j], cnt + k);
      assert r[k] == pre[k];
      assert 0 <= j < i && r[k] == Child(next, alg, e, ms[j], cnt + k);
    } else {
      assert !pruned && k == |pre|;
      assert r[k] == c;
    }
  }

  /** Each pushed entry is the child of one of the first i moves, counted from cnt in push order. */
  lemma OffspringChildren(next: (State, Move) -> State, alg: Algorithm, e: Entry, ms: seq<Move>, i: nat,
                          closed: set<State>, cnt: int)
    requires i <= |ms|
    ensures var r := Offspring(next, alg, e, ms, i, closed, cnt);
            forall k :: 0 <= k < |r| ==> exists j :: 0 <= j < i && r[k] == Child(next, alg, e, ms[j], cnt + k)
  {
    forall k | 0 <= k < |Offspring(next, alg, e, ms, i, closed, cnt)|
      ensures exists j :: 0 <= j < i && Offspring(next, alg, e, ms, i, closed, cnt)[k] == Child(next, alg, e, ms[j], cnt + k)
    {
      OffspringChildAt(next, alg, e, ms, i, closed, cnt, k);
    }
  }

  /** Each of the first i moves is pruned or its successor's state is pushed. */
  lemma {:induction false} OffspringCovers(next: (State, Move) -> State, alg: Algorithm, e: Entry, ms: seq<Move>, i: nat,
                                           closed: set<State>, cnt: int)
    requires i <= |ms|
    ensures var r := Offspring(next, alg, e, ms, i, closed, cnt);
            forall j :: 0 <= j < i ==> Pruned(next, alg, e, ms[j], closed) || next(e.state, ms[j]) in StatesOf(r)
  {
    if i > 0 {
      OffspringCovers(next, alg, e, ms, i - 1, closed, cnt);
      var pre := Offspring(next, alg, e, ms, i - 1, closed, cnt);
      if !Pruned(next, alg, e, ms[i - 1], closed) {
        var r := pre + [Child(next, alg, e, ms[i - 1], cnt + |pre|)];
        assert r[|pre|].state == next(e.state, ms[i - 1]);
        assert forall k :: 0 <= k < |pre| ==> r[k] == pre[k];
      }
    }
  }

  /** A pruning search pushes no closed state. */
  lemma {:induction false} OffspringUnclosed(next: (State, Move) -> State, alg: Algorithm, e: Entry, ms: seq<Move>, i: nat,
                                             closed: set<State>, cnt: int)
    requires i <= |ms| && alg.Prunes()
    ensures var r := Offspring(next, alg, e, ms, i, closed, cnt);
            forall k :: 0 <= k < |r| ==> r[k].state !in closed
  {
    if i > 0 {
      OffspringUnclosed(next, alg, e, ms, i - 1, closed, cnt);
      var pre := Offspring(next, alg, e, ms, i - 1, closed, cnt);
      if !Pruned(next, alg, e, ms[i - 1], closed) {
        var r := pre + [Child(next, alg, e, ms[i - 1], cnt + |pre|)];
        assert Offspring(next, alg, e, ms, i, closed, cnt) == r;
        forall k | 0 <= k < |r|
          ensures r[k].state !in closed
        {
          if k < |pre| {
            assert Offspring(next, alg, e, ms, i - 1, closed, cnt)[k].state !in closed;
            assert Offspring(next, alg, e, ms, i - 1, closed, cnt)[k] == pre[k] == r[k];
          } else {
            assert next(e.state, ms[i - 1]) !in closed;
            assert r[k].state == next(e.state, ms[i - 1]);
          }
        }
      } else {
        assert Offspring(next, alg, e, ms, i, closed, cnt) == pre;
        forall k | 0 <= k < |pre|
          ensures pre[k].state !in closed
        {
          assert Offspring(next, alg, e, ms, i - 1, closed, cnt)[k] == pre[k];
        }
      }
    }
  }

  /**
   * Each pushed entry is the child of one of the first i moves, counted from
   * cnt in push order; each of those moves is pruned or its successor
   * pushed; a pruning search pushes no closed state.
   */
  lemma OffspringFacts(next: (State, Move) -> State, alg: Algorithm, e: Entry, ms: seq<Move>, i: nat,
                       closed: set<State>, cnt: int)
    requires i <= |ms|
    ensures var r := Offspring(next, alg, e, ms, i, closed, cnt);
            && (forall k :: 0 <= k < |r| ==> exists j :: 0 <= j < i && r[k] == Child(next, alg, e, ms[j], cnt + k))
            && (forall j :: 0 <= j < i ==> Pruned(next, alg, e, ms[j], closed) || next(e.state, ms[j]) in StatesOf(r))
            && (alg.Prunes() ==> forall k :: 0 <= k < |r| ==> r[k].state !in closed)
  {
    OffspringChildren(next, alg, e, ms, i, closed, cnt);
    OffspringCovers(next, alg, e, ms, i, closed, cnt);
    if alg.Prunes() {
      OffspringUnclosed(next, alg, e, ms, i, closed, cnt);
    }
  }

  // ---------------------------------------------------------------------------
  // What every entry satisfies

  /** The stored priority is the one the algorithm computes for the entry's path and state. */
  predicate PrioOk(alg: Algorithm, e: Entry) {
    match alg
    case Bfs => e.prio == 0.0
    case Dfs => e.prio == 0.0
    case Ucs => e.prio == |e.path| as real
    case Greedy => |e.path| > 0 ==> e.prio == H(e.state)
    case AStar => e.prio == |e.path| as real + H(e.state)
    case WeightedAStar(w) => e.prio == WeightedF(w, |e.path|, e.state)
  }

  /** The entry's path is a valid plan from the start to its state, and its priority is right. */
  ghost predicate EntryOk(next: (State, Move) -> State, succ: (Setting, State) -> seq<Move>,
                          alg: Algorithm, c: Setting, init: State, e: Entry) {
    ValidPlan(next, succ, c, init, e.path) && Run(next, init, e.path) == e.state && PrioOk(alg, e)
  }

  /** The start entry is well formed. */
  lemma StartOk(next: (State, Move) -> State, succ: (Setting, State) -> seq<Move>, alg: Algorithm, c: Setting, init: State)
    requires alg.Greedy? ==> |c.cat| > 0
    ensures EntryOk(next, succ, alg, c, init, Start(next, alg, c, init))
  {
  }

  /** The entry pushed for a move generated at a well-formed entry is well formed, one move deeper. */
  lemma ChildOk(next: (State, Move) -> State, succ: (Setting, State) -> seq<Move>,
                alg: Algorithm, c: Setting, init: State, e: Entry, m: Move, cnt: int)
    requires EntryOk(next, succ, alg, c, init, e) && m in succ(c, e.state)
    ensures var k := Child(next, alg, e, m, cnt);
            EntryOk(next, succ, alg, c, init, k) && |k.path| == |e.path| + 1 &&
            (alg.Ucs? ==> k.prio == e.prio + 1.0)
  {
    ValidAppend(next, succ, c, init, e.path, m);
    RunAppend(next, init, e.path, m);
  }

  /** Every entry pushed while expanding a well-formed entry is well formed, one move deeper. */
  lemma OffspringOk(next: (State, Move) -> State, succ: (Setting, State) -> seq<Move>,
                    alg: Algorithm, c: Setting, init: State, e: Entry, closed: set<State>, cnt: int)
    requires EntryOk(next, succ, alg, c, init, e)
    ensures var ms := succ(c, e.state);
            var r := Offspring(next, alg, e, ms, |ms|, closed, cnt);
            forall k :: 0 <= k < |r| ==>
              EntryOk(next, succ, alg, c, init, r[k]) && |r[k].path| == |e.path| + 1 &&
              (alg.Ucs? ==> r[k].prio == e.prio + 1.0)
  {
    var ms := succ(c, e.state);
    var r := Offspring(next, alg, e, ms, |ms|, closed, cnt);
    OffspringFacts(next, alg, e, ms, |ms|, closed, cnt);
    forall k | 0 <= k < |r|
      ensures EntryOk(next, succ, alg, c, init, r[k]) && |r[k].path| == |e.path| + 1
      ensures alg.Ucs? ==> r[k].prio == e.prio + 1.0
    {
      var j :| 0 <= j < |ms| && r[k] == Child(next, alg, e, ms[j], cnt + k);
      assert ms[j] in succ(c, e.state);
      ChildOk(next, succ, alg, c, init, e, ms[j], cnt + k);
    }
  }
}
