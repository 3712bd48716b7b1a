/**
 * heuristics.py: a stand-alone A* that collects the diamonds (cells equal to
 * 1) of a rectangular matrix one at a time.  A state holds the matrix, the
 * number of diamonds still to collect and the cells collected so far; the
 * heuristic weighs the diamonds left by 10 and the zero cells by 1, and the
 * visited set is keyed on the matrix alone.
 */
module Heuristics {
  import opened Grid
  import opened Blocks
  import opened Moves
  import opened Cells
  import opened Keyed

  /** `ALPHA`: the weight of the diamonds left. */
  const Alpha := 10

  /** `BETA`: the weight of the zero cells. */
  const Beta := 1

  /** The number of columns of the matrix (`matriz.shape[1]`). */
  function Width(m: Layer): nat {
    if |m| == 0 then 0 else |m[0]|
  }

  /** Every row has the same number of cells, as in a two-dimensional numpy array. */
  predicate Rectangular(m: Layer) {
    forall i :: 0 <= i < |m| ==> |m[i]| == Width(m)
  }

  /** a is a cell of the matrix. */
  predicate Inside(m: Layer, a: Anchor) {
    a.row < |m| && a.col < |m[a.row]|
  }

  /** The cell holds a diamond. */
  function IsDiamond(m: Layer): (nat, nat) -> bool {
    (i: nat, j: nat) => i < |m| && j < |m[i]| && m[i][j] == 1
  }

  /** The cells holding a diamond, in row-major order. */
  function DiamondCells(m: Layer): seq<Anchor> {
    CellsWhere(|m|, Width(m), IsDiamond(m))
  }

  /** `Estado`: the matrix, the diamonds still to collect (`diamantes_restantes`) and the collected cells (`camino`). */
  datatype Node = Node(matrix: Layer, remaining: int, path: seq<Anchor>)

  /** `es_objetivo`: no diamond is left to collect. */
  predicate IsGoal(n: Node) {
    n.remaining == 0
  }

  /** `heuristica`: 10 per diamond left plus 1 per zero cell (`espacios_libres`). */
  function Heuristic(n: Node): int {
    Alpha * n.remaining + Beta * ZeroCount(n.matrix)
  }

  /** `costo_total`: the number of collected cells plus the heuristic. */
  function TotalCost(n: Node): int {
    |n.path| + Heuristic(n)
  }

  /** Two matrices have the same number of rows and the same row lengths. */
  predicate SameShape(a: Layer, b: Layer) {
    |a| == |b| && forall i :: 0 <= i < |a| ==> |a[i]| == |b[i]|
  }

  /**
   * s is n after collecting the diamond at a: the matrix changed to 0 at a
   * alone, one diamond fewer left, and a appended to the collected cells.
   */
  predicate ChildAt(n: Node, s: Node, a: Anchor) {
    && SameShape(s.matrix, n.matrix)
    && (forall i, j :: 0 <= i < |n.matrix| && 0 <= j < |n.matrix[i]| ==>
          s.matrix[i][j] == (if i == a.row && j == a.col then 0 else n.matrix[i][j]))
    && s.remaining == n.remaining - 1
    && s.path == n.path + [a]
  }

  /** The state after collecting the diamond at a. */
  function Child(n: Node, a: Anchor): (s: Node)
    requires Inside(n.matrix, a)
    ensures ChildAt(n, s, a)
  {
    Node(SetCell(n.matrix, a.row, a.col, 0), n.remaining - 1, n.path + [a])
  }

  /**
   * `generar_sucesores`: one successor per cell equal to 1, in row-major
   * order of the cells, each collecting that cell.
   */
  function Successors(n: Node): (r: seq<Node>)
    requires Rectangular(n.matrix)
    ensures |r| == |DiamondCells(n.matrix)|
    ensures forall k :: 0 <= k < |r| ==> ChildAt(n, r[k], DiamondCells(n.matrix)[k])
  {
    var cells := DiamondCells(n.matrix);
    seq(|cells|, k requires 0 <= k < |cells| => Child(n, cells[k]))
  }

  /**
   * Collecting a diamond lowers the total cost by 8: one more collected
   * cell, ten less for the diamond left, one more zero cell.
   */
  lemma ChildCost(n: Node, a: Anchor)
    requires Inside(n.matrix, a) && n.matrix[a.row][a.col] == 1
    ensures TotalCost(Child(n, a)) == TotalCost(n) - 8
  {
    ZeroCountSetCell(n.matrix, a.row, a.col, 0);
  }

  /** The successor for cell k collects a cell that held a diamond. */
  lemma SuccessorCollectsDiamond(n: Node, k: nat)
    requires Rectangular(n.matrix) && k < |Successors(n)|
    ensures var a := DiamondCells(n.matrix)[k];
            Inside(n.matrix, a) && n.matrix[a.row][a.col] == 1 && Successors(n)[k] == Child(n, a)
  {
    var cells := DiamondCells(n.matrix);
    assert cells[k] in cells;
  }

  // ---------------------------------------------------------------------------
  // What every state reached from the start looks like

  /** No cell occurs twice. */
  predicate Distinct(cells: seq<Anchor>) {
    forall k, l :: 0 <= k < l < |cells| ==> cells[k] != cells[l]
  }

  /**
   * x is init after collecting, one by one, the cells `x.path` adds to
   * `init.path`: those cells are distinct diamonds of the start matrix, are
   * 0 in x's matrix while every other cell is unchanged, and each of them
   * lowered the count of diamonds left by one.
   */
  predicate Derived(x: Node, init: Node) {
    && |init.path| <= |x.path|
    && x.path[..|init.path|] == init.path
    && SameShape(x.matrix, init.matrix)
    && var ext := x.path[|init.path|..];
       && (forall i, j :: 0 <= i < |init.matrix| && 0 <= j < |init.matrix[i]| ==>
             x.matrix[i][j] == (if Anchor(i, j) in ext then 0 else init.matrix[i][j]))
       && x.remaining == init.remaining - |ext|
       && (forall k :: 0 <= k < |ext| ==> Inside(init.matrix, ext[k]) && init.matrix[ext[k].row][ext[k].col] == 1)
       && Distinct(ext)
  }

  /** The start is derived from itself. */
  lemma DerivedStart(init: Node)
    ensures Derived(init, init)
  {
    assert init.path[|init.path|..] == [];
  }

  /** Collecting a diamond of a derived state gives a derived state. */
  lemma DerivedChild(x: Node, init: Node, a: Anchor)
    requires Derived(x, init) && Inside(x.matrix, a) && x.matrix[a.row][a.col] == 1
    ensures Derived(Child(x, a), init)
  {
    var s := Child(x, a);
    var n0 := |init.path|;
    var ext := x.path[n0..];
    assert s.path[..n0] == init.path by {
      assert s.path[..n0] == x.path[..n0];
    }
    assert s.path[n0..] == ext + [a];
    assert a !in ext;
    assert init.matrix[a.row][a.col] == 1;
    var ext' := ext + [a];
    forall k, l | 0 <= k < l < |ext'|
      ensures ext'[k] != ext'[l]
    {
      if l < |ext| {
        assert ext'[k] == ext[k] && ext'[l] == ext[l];
      } else {
        assert ext'[k] in ext;
      }
    }
  }

  // ---------------------------------------------------------------------------
  // The search

  /** What the search ends with: the collected cells, an empty frontier, or the iteration bound. */
  datatype Answer = Solution(path: seq<Anchor>) | NoSolution | OutOfFuel

  /** The frontier index `heappop` takes: a state of least total cost, the first one among ties. */
  method FirstCheapest(frontier: seq<Node>) returns (k: nat)
    requires |frontier| > 0
    ensures k < |frontier|
    ensures forall l :: 0 <= l < |frontier| ==> TotalCost(frontier[k]) <= TotalCost(frontier[l])
    ensures forall l :: 0 <= l < k ==> TotalCost(frontier[l]) > TotalCost(frontier[k])
  {
    k := 0;
    var i := 1;
    while i < |frontier|
      invariant 0 <= k < i <= |frontier|
      invariant forall l :: 0 <= l < i ==> TotalCost(frontier[k]) <= TotalCost(frontier[l])
      invariant forall l :: 0 <= l < k ==> TotalCost(frontier[l]) > TotalCost(frontier[k])
    {
      if TotalCost(frontier[i]) < TotalCost(frontier[k]) {
        k := i;
      }
      i := i + 1;
    }
  }

  /** Every frontier state is derived from the start. */
  predicate AllDerived(frontier: seq<Node>, init: Node) {
    forall x :: x in frontier ==> Derived(x, init)
  }

  /** Popping a state keeps the rest of the frontier derived from the start. */
  lemma RemoveKeepsDerived(frontier: seq<Node>, i: nat, init: Node)
    requires AllDerived(frontier, init) && i < |frontier|
    ensures AllDerived(frontier[..i] + frontier[i + 1..], init) && Derived(frontier[i], init)
  {
    assert frontier[i] in frontier;
    forall x | x in frontier[..i] + frontier[i + 1..]
      ensures x in frontier
    {
      if x in frontier[..i] {
        var k :| 0 <= k < i && frontier[..i][k] == x;
        assert frontier[k] == x;
      } else {
        var k :| 0 <= k < |frontier| - i - 1 && frontier[i + 1..][k] == x;
        assert frontier[i + 1 + k] == x;
      }
    }
  }

  /** Pushing the successors of a derived state keeps the frontier derived from the start. */
  lemma SuccessorsDerived(frontier: seq<Node>, x: Node, init: Node)
    requires AllDerived(frontier, init) && Derived(x, init) && Rectangular(x.matrix)
    ensures AllDerived(frontier + Successors(x), init)
  {
    var succ := Successors(x);
    forall s | s in succ
      ensures Derived(s, init)
    {
      var k :| 0 <= k < |succ| && succ[k] == s;
      SuccessorCollectsDiamond(x, k);
      DerivedChild(x, init, DiamondCells(x.matrix)[k]);
    }
  }

  /** The successors of any state: those `generar_sucesores` lists for a rectangular matrix, none otherwise. */
  function Next(n: Node): seq<Node> {
    if Rectangular(n.matrix) then Successors(n) else []
  }

  /** `actual.matriz.tobytes()`: the visited set is keyed on the matrix alone. */
  function Key(n: Node): Layer {
    n.matrix
  }

  /** States with the same matrix have successors with the same matrices, in the same order. */
  lemma NextRespectsKeys()
    ensures KeyRespecting(Key, Next)
  {
    forall a, b | Key(a) == Key(b)
      ensures |Next(a)| == |Next(b)| && forall l :: 0 <= l < |Next(a)| ==> Key(Next(a)[l]) == Key(Next(b)[l])
    {
      if Rectangular(a.matrix) {
        forall l | 0 <= l < |Next(a)|
          ensures Key(Next(a)[l]) == Key(Next(b)[l])
        {
          SuccessorCollectsDiamond(a, l);
          SuccessorCollectsDiamond(b, l);
        }
      }
    }
  }

  /** Every state reachable from the start is derived from it. */
  lemma {:induction false} ChainDerived(init: Node, ns: seq<Node>)
    requires |ns| > 0 && ns[0] == init && IsChain(Next, ns)
    ensures Derived(ns[|ns| - 1], init)
    decreases |ns|
  {
    if |ns| == 1 {
      DerivedStart(init);
    } else {
      var p := ns[..|ns| - 1];
      assert IsChain(Next, p);
      ChainDerived(init, p);
      var x := ns[|ns| - 2];
      assert ns[|ns| - 1] in Next(x);
      var k :| 0 <= k < |Next(x)| && Next(x)[k] == ns[|ns| - 1];
      SuccessorCollectsDiamond(x, k);
      DerivedChild(x, init, DiamondCells(x.matrix)[k]);
    }
  }

  /** A reachable state is derived from the start. */
  lemma ReachDerived(init: Node, x: Node)
    requires Reachable(Next, init, x)
    ensures Derived(x, init)
  {
    var ns :| |ns| > 0 && ns[0] == init && IsChain(Next, ns) && ns[|ns| - 1] == x;
    ChainDerived(init, ns);
  }

  /**
   * A cell was collected on the way from init to x exactly when it held a
   * diamond in init and holds 0 in x.
   */
  lemma CollectedCells(x: Node, init: Node, a: Anchor)
    requires Derived(x, init)
    ensures a in x.path[|init.path|..] <==>
              Inside(init.matrix, a) && init.matrix[a.row][a.col] == 1 && x.matrix[a.row][a.col] == 0
  {
    var ext := x.path[|init.path|..];
    if a in ext {
      var k :| 0 <= k < |ext| && ext[k] == a;
    }
  }

  /** Two states derived from the same start with the same matrix have collected the same cells. */
  lemma SameCollected(init: Node, x: Node, y: Node)
    requires Derived(x, init) && Derived(y, init) && x.matrix == y.matrix
    ensures forall a :: a in x.path[|init.path|..] <==> a in y.path[|init.path|..]
  {
    forall a: Anchor
      ensures a in x.path[|init.path|..] <==> a in y.path[|init.path|..]
    {
      CollectedCells(x, init, a);
      CollectedCells(y, init, a);
    }
  }

  /**
   * Two states derived from the same start with the same matrix have
   * collected the same cells, so they have the same number of diamonds left:
   * keying the visited set on the matrix loses nothing.
   */
  lemma SameMatrixSameRemaining(init: Node, x: Node, y: Node)
    requires Derived(x, init) && Derived(y, init) && x.matrix == y.matrix
    ensures x.remaining == y.remaining
  {
    var ex := x.path[|init.path|..];
    var ey := y.path[|init.path|..];
    SameCollected(init, x, y);
    var id := (a: Anchor) => a;
    assert Keys(id, ex) == Keys(id, ey) by {
      forall a | a in Keys(id, ex)
        ensures a in Keys(id, ey)
      {
        var l :| 0 <= l < |ey| && ey[l] == a;
      }
      forall a | a in Keys(id, ey)
        ensures a in Keys(id, ex)
      {
        var l :| 0 <= l < |ex| && ex[l] == a;
      }
    }
    KeysCount(id, ex);
    KeysCount(id, ey);
  }

  /** Every frontier state is reachable from the start. */
  ghost predicate AllReach(frontier: seq<Node>, init: Node) {
    forall x :: x in frontier ==> Reachable(Next, init, x)
  }

  /** Every expanded state is reachable from the start and is no goal. */
  ghost predicate ExpandedOk(expanded: seq<Node>, init: Node) {
    forall k :: 0 <= k < |expanded| ==> Reachable(Next, init, expanded[k]) && !IsGoal(expanded[k])
  }

  /** The loop invariant of `a_estrella`. */
  ghost predicate SearchInv(init: Node, frontier: seq<Node>, visited: set<Layer>, expanded: seq<Node>) {
    && AllDerived(frontier, init)
    && AllReach(frontier, init)
    && ExpandedOk(expanded, init)
    && Tracked(Key, Next, init, frontier, visited, expanded)
  }

  /** Taking a state off the frontier keeps the rest derived from and reachable from the start. */
  lemma RemoveKeepsReach(frontier: seq<Node>, i: nat, init: Node)
    requires AllDerived(frontier, init) && AllReach(frontier, init) && i < |frontier|
    ensures AllDerived(Without(frontier, i), init) && AllReach(Without(frontier, i), init)
    ensures Derived(frontier[i], init) && Reachable(Next, init, frontier[i])
  {
    RemoveKeepsDerived(frontier, i, init);
    assert frontier[i] in frontier;
    forall x | x in Without(frontier, i)
      ensures x in frontier
    {
      var k :| 0 <= k < |frontier| - 1 && Without(frontier, i)[k] == x;
      if k < i {
        assert frontier[k] == x;
      } else {
        assert frontier[k + 1] == x;
      }
    }
  }

  /** Dropping a state whose matrix is visited keeps the invariant. */
  lemma SkipKeepsInv(init: Node, frontier: seq<Node>, visited: set<Layer>, expanded: seq<Node>, i: nat)
    requires SearchInv(init, frontier, visited, expanded) && i < |frontier| && Key(frontier[i]) in visited
    ensures SearchInv(init, Without(frontier, i), visited, expanded)
  {
    RemoveKeepsReach(frontier, i, init);
    SkipTracked(Key, Next, init, frontier, visited, expanded, i);
  }

  /** Expanding a state whose matrix is not visited and which is no goal keeps the invariant. */
  lemma ExpandKeepsInv(init: Node, frontier: seq<Node>, visited: set<Layer>, expanded: seq<Node>, i: nat)
    requires Rectangular(init.matrix)
    requires SearchInv(init, frontier, visited, expanded) && i < |frontier| && Key(frontier[i]) !in visited
    requires !IsGoal(frontier[i])
    ensures SearchInv(init, Without(frontier, i) + Next(frontier[i]), visited + {Key(frontier[i])}, expanded + [frontier[i]])
  {
    var current := frontier[i];
    var rest := Without(frontier, i);
    var kids := Next(current);
    RemoveKeepsReach(frontier, i, init);
    assert Rectangular(current.matrix);
    SuccessorsDerived(rest, current, init);
    ExpandTracked(Key, Next, init, frontier, visited, expanded, i, kids);
    forall x | x in rest + kids
      ensures Reachable(Next, init, x)
    {
      if x in kids {
        ReachStep(Next, init, current, x);
      }
    }
    var expanded' := expanded + [current];
    assert forall k :: 0 <= k < |expanded| ==> expanded'[k] == expanded[k];
  }

  /** With the frontier empty, no state reachable from the start is a goal. */
  lemma ExhaustedNoGoal(init: Node, visited: set<Layer>, expanded: seq<Node>)
    requires SearchInv(init, [], visited, expanded)
    ensures forall x :: Reachable(Next, init, x) ==> !IsGoal(x)
  {
    forall x | Reachable(Next, init, x)
      ensures !IsGoal(x)
    {
      NextRespectsKeys();
      ReachClosed(Key, Next, init, visited, expanded, x);
      var k :| 0 <= k < |expanded| && Key(expanded[k]) == Key(x);
      ReachDerived(init, x);
      ReachDerived(init, expanded[k]);
      SameMatrixSameRemaining(init, x, expanded[k]);
    }
  }

  /**
   * `a_estrella`, stopped once fuel states have been expanded (a popped
   * state whose matrix was visited costs nothing): the returned list
   * extends the start's collected cells by distinct cells that each held a
   * diamond in the start matrix, exactly as many as the start says are
   * left.  An empty frontier means no state reachable from the start is a
   * goal; running out of fuel means fuel states with distinct matrices were
   * expanded.  So while fuel is left, a list is returned exactly when a goal
   * is reachable.
   */
  method AStar(init: Node, fuel: nat) returns (r: Answer, expanded: seq<Node>)
    requires Rectangular(init.matrix)
    ensures r.Solution? ==> |init.path| <= |r.path| && r.path[..|init.path|] == init.path
    ensures r.Solution? ==> |r.path| - |init.path| == init.remaining
    ensures r.Solution? ==> var ext := r.path[|init.path|..];
              Distinct(ext) &&
              forall k :: 0 <= k < |ext| ==> Inside(init.matrix, ext[k]) && init.matrix[ext[k].row][ext[k].col] == 1
    ensures r.NoSolution? ==> forall x :: Reachable(Next, init, x) ==> !IsGoal(x)
    ensures r.OutOfFuel? ==> |expanded| == fuel
    ensures |expanded| < fuel ==> (r.Solution? <==> exists x :: Reachable(Next, init, x) && IsGoal(x))
    ensures |expanded| <= fuel && ExpandedOk(expanded, init) && KeysDistinct(Key, expanded)
  {
    var frontier := [init];
    var visited: set<Layer> := {};
    expanded := [];
    DerivedStart(init);
    ReachStart(Next, init);
    TrackedStart(Key, Next, init);
    while |expanded| < fuel && |frontier| > 0
      invariant SearchInv(init, frontier, visited, expanded)
      invariant |expanded| <= fuel
      decreases fuel - |expanded|, |frontier|
    {
      var i := FirstCheapest(frontier);
      var current := frontier[i];
      assert current in frontier;
      if Key(current) in visited {
        SkipKeepsInv(init, frontier, visited, expanded, i);
        frontier := Without(frontier, i);
      } else {
        if IsGoal(current) {
          return Solution(current.path), expanded;
        }
        ExpandKeepsInv(init, frontier, visited, expanded, i);
        visited := visited + {Key(current)};
        frontier := Without(frontier, i) + Next(current);
        expanded := expanded + [current];
      }
    }
    if |frontier| == 0 {
      ExhaustedNoGoal(init, visited, expanded);
      r := NoSolution;
    } else {
      r := OutOfFuel;
    }
  }
}
