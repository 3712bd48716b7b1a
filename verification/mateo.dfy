/**
 * mateo.py: a stand-alone A* over 5-by-5 boards in which each move drops
 * one diamond on a cell that holds neither a block nor a diamond, until a
 * given number of diamonds has been placed.  A node keeps its parent, and
 * the path to a node is read back by following parents.
 */
module Mateo {
  import opened Wrappers
  import opened Grid
  import opened Blocks
  import opened Moves
  import opened Cells
  import opened Keyed

  /** The board side the loops of the file hard-code. */
  const Side: nat := 5

  /** The weight of the diamonds still to place in the heuristic. */
  const Alpha := 5

  /** The weight of the empty cells in the heuristic. */
  const Beta := 1

  /** Both layers can be read at every (i, j) with i, j < 5. */
  predicate Readable(blocks: Layer, diamonds: Layer) {
    Side <= |blocks| && Side <= |diamonds| && AtLeastWide(blocks, Side) && AtLeastWide(diamonds, Side)
  }

  /** The cell holds neither a block nor a diamond. */
  function Empty(blocks: Layer, diamonds: Layer): (nat, nat) -> bool {
    (i: nat, j: nat) =>
      i < |blocks| && j < |blocks[i]| && i < |diamonds| && j < |diamonds[i]| &&
      blocks[i][j] == 0 && diamonds[i][j] == 0
  }

  /** The empty cells of the 5-by-5 board, in row-major order. */
  function EmptyCells(blocks: Layer, diamonds: Layer): seq<Anchor> {
    CellsWhere(Side, Side, Empty(blocks, diamonds))
  }

  // ---------------------------------------------------------------------------
  // Counting and the heuristic

  /**
   * `count_empty_spaces`: the nested loops over the 5-by-5 board count the
   * cells where both layers hold 0, which are exactly the empty cells listed
   * in row-major order; there are at most 25 of them.
   */
  method CountEmptySpaces(blocks: Layer, diamonds: Layer) returns (n: nat)
    requires Readable(blocks, diamonds)
    ensures n == |EmptyCells(blocks, diamonds)|
    ensures n <= Side * Side
  {
    ghost var e := Empty(blocks, diamonds);
    n := 0;
    var i := 0;
    while i < Side
      invariant 0 <= i <= Side
      invariant n == |RowsTo(i, Side, e)|
    {
      var c := CountRow(blocks, diamonds, i);
      RowsCount(i, Side, e);
      n := n + c;
      i := i + 1;
    }
    CellsBound(Side, Side, e);
  }

  /** The inner loop of `count_empty_spaces`: the empty cells of row i. */
  method CountRow(blocks: Layer, diamonds: Layer, i: nat) returns (c: nat)
    requires Readable(blocks, diamonds) && i < Side
    ensures c == |RowCellsTo(i, Side, Empty(blocks, diamonds))|
  {
    ghost var e := Empty(blocks, diamonds);
    c := 0;
    var j := 0;
    while j < Side
      invariant 0 <= j <= Side
      invariant c == |RowCellsTo(i, j, e)|
    {
      RowCellsCount(i, j, e);
      if blocks[i][j] == 0 && diamonds[i][j] == 0 {
        c := c + 1;
      }
      j := j + 1;
    }
  }

  /** `heuristic`: 5 per diamond still to place plus 1 per empty cell. */
  function Heuristic(blocks: Layer, diamonds: Layer, remaining: int): int {
    Alpha * remaining + Beta * |EmptyCells(blocks, diamonds)|
  }

  /** The heuristic is five times the diamonds still to place, plus between 0 and 25. */
  lemma HeuristicBounds(blocks: Layer, diamonds: Layer, remaining: int)
    ensures Alpha * remaining <= Heuristic(blocks, diamonds, remaining) <= Alpha * remaining + Side * Side
  {
    CellsBound(Side, Side, Empty(blocks, diamonds));
  }

  /**
   * `can_place_diamond`: false outside the 5-by-5 board; inside it, true
   * exactly when the cell is one of the listed empty cells.
   */
  function CanPlaceDiamond(blocks: Layer, diamonds: Layer, i: int, j: int): (r: bool)
    requires Readable(blocks, diamonds)
    ensures r <==> 0 <= i && 0 <= j && Anchor(i, j) in EmptyCells(blocks, diamonds)
  {
    if i < 0 || i >= Side || j < 0 || j >= Side then false
    else blocks[i][j] == 0 && diamonds[i][j] == 0
  }

  // ---------------------------------------------------------------------------
  // Nodes and successors

  /** `Node`: both layers, the diamonds still to place, the parent, g and h. */
  datatype Node = Node(blocks: Layer, diamonds: Layer, remaining: int, parent: Option<Node>, g: int, h: int) {

    /** `f = g + h`, the only thing `__lt__` compares. */
    function F(): int { g + h }
  }

  /** `is_goal_state`: no diamond is left to place. */
  predicate IsGoal(n: Node) {
    n.remaining == 0
  }

  /** `board_to_tuple`: the closed-set key of a node. */
  function Key(n: Node): (Layer, Layer, int) {
    (n.blocks, n.diamonds, n.remaining)
  }

  /**
   * s is n with one more diamond at a: same blocks, the diamond layer
   * changed at a alone, one diamond fewer to place, parent n, g one more,
   * and h the heuristic of its own boards.
   */
  predicate ChildAt(n: Node, s: Node, a: Anchor) {
    && s.blocks == n.blocks
    && |s.diamonds| == |n.diamonds|
    && (forall i :: 0 <= i < |n.diamonds| ==> |s.diamonds[i]| == |n.diamonds[i]|)
    && (forall i, j :: 0 <= i < |n.diamonds| && 0 <= j < |n.diamonds[i]| ==>
          s.diamonds[i][j] == (if i == a.row && j == a.col then 1 else n.diamonds[i][j]))
    && s.remaining == n.remaining - 1
    && s.parent == Some(n)
    && s.g == n.g + 1
    && s.h == Heuristic(s.blocks, s.diamonds, s.remaining)
  }

  /** The node with a diamond dropped at a. */
  function Child(n: Node, a: Anchor): (s: Node)
    requires Readable(n.blocks, n.diamonds) && a.row < Side && a.col < Side
    ensures ChildAt(n, s, a) && Readable(s.blocks, s.diamonds)
  {
    var d := SetCell(n.diamonds, a.row, a.col, 1);
    Node(n.blocks, d, n.remaining - 1, Some(n), n.g + 1, Heuristic(n.blocks, d, n.remaining - 1))
  }

  /**
   * `generate_successors`: none once no diamond is left to place;
   * otherwise one child per empty cell, in row-major order of the cells.
   */
  function Successors(n: Node): (r: seq<Node>)
    requires Readable(n.blocks, n.diamonds)
    ensures n.remaining == 0 ==> r == []
    ensures n.remaining != 0 ==> |r| == |EmptyCells(n.blocks, n.diamonds)|
    ensures n.remaining != 0 ==> forall k :: 0 <= k < |r| ==> ChildAt(n, r[k], EmptyCells(n.blocks, n.diamonds)[k])
    ensures forall s :: s in r ==> Readable(s.blocks, s.diamonds)
  {
    if n.remaining == 0 then []
    else
      var cells := EmptyCells(n.blocks, n.diamonds);
      seq(|cells|, k requires 0 <= k < |cells| => Child(n, cells[k]))
  }

  /** Every successor of n differs from n by one diamond on a cell that was empty in n. */
  lemma SuccessorPlacesOnEmpty(n: Node, k: nat)
    requires Readable(n.blocks, n.diamonds) && k < |Successors(n)|
    ensures var a := EmptyCells(n.blocks, n.diamonds)[k];
            a.row < Side && a.col < Side &&
            n.blocks[a.row][a.col] == 0 && n.diamonds[a.row][a.col] == 0 &&
            Successors(n)[k].diamonds[a.row][a.col] == 1
  {
    var cells := EmptyCells(n.blocks, n.diamonds);
    assert cells[k] in cells;
  }

  // ---------------------------------------------------------------------------
  // Paths

  /**
   * `reconstruct_path`: the nodes from the root to n, root first; the root
   * has no parent and each later node's parent is the node before it.
   */
  function Path(n: Node): (r: seq<Node>)
    decreases n
    ensures |r| >= 1 && r[|r| - 1] == n && r[0].parent.None?
    ensures forall k :: 0 < k < |r| ==> r[k].parent == Some(r[k - 1])
  {
    match n.parent
    case None => [n]
    case Some(p) => Path(p) + [n]
  }

  /** n is start or a successor of a node that descends from start. */
  predicate Descends(n: Node, start: Node)
    decreases n
  {
    n == start ||
    (n.parent.Some? && Readable(n.parent.value.blocks, n.parent.value.diamonds) &&
     n in Successors(n.parent.value) && Descends(n.parent.value, start))
  }

  /** Each node of p after the first is a successor of the one before it. */
  predicate Chain(p: seq<Node>) {
    forall k :: 0 <= k < |p| - 1 ==> Readable(p[k].blocks, p[k].diamonds) && p[k + 1] in Successors(p[k])
  }

  /** The path to a node that descends from a parentless start begins at start and steps from successor to successor. */
  lemma {:induction false} PathFromStart(n: Node, start: Node)
    requires Descends(n, start) && start.parent.None?
    ensures Path(n)[0] == start && Chain(Path(n))
  {
    if n != start {
      var p := n.parent.value;
      PathFromStart(p, start);
      var pp := Path(p);
      assert Path(n) == pp + [n];
      assert pp[|pp| - 1] == p;
    }
  }

  /** Along a chain, g and the diamonds still to place change by one per step. */
  lemma {:induction false} ChainCounts(p: seq<Node>, k: nat)
    requires Chain(p) && k < |p|
    ensures p[k].g == p[0].g + k && p[k].remaining == p[0].remaining - k
  {
    if k > 0 {
      ChainCounts(p, k - 1);
      var q := p[k - 1];
      var succ := Successors(q);
      var l :| 0 <= l < |succ| && succ[l] == p[k];
      assert ChildAt(q, p[k], EmptyCells(q.blocks, q.diamonds)[l]);
    }
  }

  /**
   * The path to a goal node that descends from a parentless start with
   * g = 0 begins at start, steps from successor to successor, gives node k
   * g = k and one diamond fewer per step, and so has one node more than
   * start has diamonds to place.
   */
  lemma PathToGoal(n: Node, start: Node)
    requires Descends(n, start) && start.parent.None? && start.g == 0 && IsGoal(n)
    ensures var p := Path(n); p[0] == start && Chain(p) && |p| == start.remaining + 1
    ensures var p := Path(n); forall k :: 0 <= k < |p| ==> p[k].g == k && p[k].remaining == start.remaining - k
  {
    var p := Path(n);
    PathFromStart(n, start);
    forall k | 0 <= k < |p|
      ensures p[k].g == k && p[k].remaining == start.remaining - k
    {
      ChainCounts(p, k);
    }
  }

  // ---------------------------------------------------------------------------
  // The search

  /** What the search ends with: a path, an empty open list, or the iteration bound. */
  datatype Answer = Solution(path: seq<Node>) | NoSolution | OutOfFuel

  /** The start node: the given boards and count, no parent, g = 0, h its heuristic. */
  function Start(blocks: Layer, diamonds: Layer, remaining: int): (n: Node)
    ensures n.parent.None? && n.g == 0 && n.remaining == remaining
    ensures n.blocks == blocks && n.diamonds == diamonds
    ensures n.F() == Heuristic(blocks, diamonds, remaining)
  {
    Node(blocks, diamonds, remaining, None, 0, Heuristic(blocks, diamonds, remaining))
  }

  /** The index `heappop` takes: a node of least f, the first one among ties. */
  method FirstLeast(open: seq<Node>) returns (k: nat)
    requires |open| > 0
    ensures k < |open|
    ensures forall l :: 0 <= l < |open| ==> open[k].F() <= open[l].F()
    ensures forall l :: 0 <= l < k ==> open[l].F() > open[k].F()
  {
    k := 0;
    var i := 1;
    while i < |open|
      invariant 0 <= k < i <= |open|
      invariant forall l :: 0 <= l < i ==> open[k].F() <= open[l].F()
      invariant forall l :: 0 <= l < k ==> open[l].F() > open[k].F()
    {
      if open[i].F() < open[k].F() {
        k := i;
      }
      i := i + 1;
    }
  }

  /** The successors whose key is not closed, in their order. */
  function Unclosed(succ: seq<Node>, closed: set<(Layer, Layer, int)>): (r: seq<Node>)
    ensures forall s :: s in r <==> s in succ && Key(s) !in closed
  {
    if |succ| == 0 then []
    else
      var rest := Unclosed(succ[1..], closed);
      if Key(succ[0]) in closed then rest else [succ[0]] + rest
  }

  /** Every node of the open list is readable and descends from start. */
  predicate AllDescend(open: seq<Node>, start: Node) {
    forall x :: x in open ==> Readable(x.blocks, x.diamonds) && Descends(x, start)
  }

  /** Popping a node keeps the open list descending from start, the popped node included. */
  lemma RemoveKeepsDescent(open: seq<Node>, i: nat, start: Node)
    requires AllDescend(open, start) && i < |open|
    ensures AllDescend(open[..i] + open[i + 1..], start)
    ensures Readable(open[i].blocks, open[i].diamonds) && Descends(open[i], start)
  {
    assert open[i] in open;
    forall x | x in open[..i] + open[i + 1..]
      ensures x in open
    {
      if x in open[..i] {
        var k :| 0 <= k < i && open[..i][k] == x;
        assert open[k] == x;
      } else {
        var k :| 0 <= k < |open| - i - 1 && open[i + 1..][k] == x;
        assert open[i + 1 + k] == x;
      }
    }
  }

  /** Pushing successors of a node that descends from start keeps the open list descending from start. */
  lemma KidsDescend(open: seq<Node>, current: Node, kids: seq<Node>, start: Node)
    requires AllDescend(open, start) && Readable(current.blocks, current.diamonds) && Descends(current, start)
    requires forall s :: s in kids ==> s in Successors(current)
    ensures AllDescend(open + kids, start)
  {
    forall s | s in kids
      ensures Readable(s.blocks, s.diamonds) && Descends(s, start)
    {
      var succ := Successors(current);
      var l :| 0 <= l < |succ| && succ[l] == s;
      assert ChildAt(current, s, EmptyCells(current.blocks, current.diamonds)[l]);
    }
  }

  /** The successors of any node: those `generate_successors` lists for a readable node, none otherwise. */
  function Next(n: Node): seq<Node> {
    if Readable(n.blocks, n.diamonds) then Successors(n) else []
  }

  /** Nodes with the same key have successors with the same keys, in the same order. */
  lemma NextRespectsKeys()
    ensures KeyRespecting(Key, Next)
  {
    forall a, b | Key(a) == Key(b)
      ensures |Next(a)| == |Next(b)| && forall l :: 0 <= l < |Next(a)| ==> Key(Next(a)[l]) == Key(Next(b)[l])
    {
      if Readable(a.blocks, a.diamonds) {
        forall l | 0 <= l < |Next(a)|
          ensures Key(Next(a)[l]) == Key(Next(b)[l])
        {
          var cells := EmptyCells(a.blocks, a.diamonds);
          SuccessorPlacesOnEmpty(a, l);
          assert Next(a)[l] == Child(a, cells[l]);
          assert Next(b)[l] == Child(b, cells[l]);
        }
      }
    }
  }

  /** Every expanded node is readable, descends from start and is no goal, and no key is expanded twice. */
  predicate Expanded(expanded: seq<Node>, start: Node) {
    && (forall k :: 0 <= k < |expanded| ==>
          Readable(expanded[k].blocks, expanded[k].diamonds) && Descends(expanded[k], start) && !IsGoal(expanded[k]))
    && KeysDistinct(Key, expanded)
  }

  /**
   * The loop invariant of `a_star_search`: the open list and the expanded
   * nodes descend from start, and the closed set's bookkeeping holds.
   */
  predicate SearchInv(start: Node, open: seq<Node>, closed: set<(Layer, Layer, int)>, expanded: seq<Node>) {
    && AllDescend(open, start)
    && Expanded(expanded, start)
    && Tracked(Key, Next, start, open, closed, expanded)
  }

  /** Expanding a node that descends from start and is no goal keeps the expanded nodes so. */
  lemma ExpandedGrows(expanded: seq<Node>, start: Node, current: Node)
    requires Expanded(expanded, start) && KeysDistinct(Key, expanded + [current])
    requires Readable(current.blocks, current.diamonds) && Descends(current, start) && !IsGoal(current)
    ensures Expanded(expanded + [current], start)
  {
    var expanded' := expanded + [current];
    forall k | 0 <= k < |expanded'|
      ensures Readable(expanded'[k].blocks, expanded'[k].diamonds) && Descends(expanded'[k], start) && !IsGoal(expanded'[k])
    {
      if k < |expanded| {
        assert expanded'[k] == expanded[k];
      } else {
        assert expanded'[k] == current;
      }
    }
  }

  /** With the open list empty, every node that descends from start has a closed key. */
  lemma {:induction false} ClosedReach(start: Node, closed: set<(Layer, Layer, int)>, expanded: seq<Node>, n: Node)
    requires SearchInv(start, [], closed, expanded) && Descends(n, start)
    ensures Key(n) in closed
    decreases n
  {
    if n != start {
      var p := n.parent.value;
      ClosedReach(start, closed, expanded, p);
      NextRespectsKeys();
      ClosedStep(Key, Next, start, closed, expanded, p, n);
    }
  }

  /** With the open list empty, no node that descends from start is a goal: each agrees with an expanded node on the diamonds left. */
  lemma ExhaustedNoGoal(start: Node, closed: set<(Layer, Layer, int)>, expanded: seq<Node>)
    requires SearchInv(start, [], closed, expanded)
    ensures forall n :: Descends(n, start) ==> !IsGoal(n)
  {
    forall n | Descends(n, start)
      ensures !IsGoal(n)
    {
      ClosedReach(start, closed, expanded, n);
      var k :| 0 <= k < |expanded| && Key(expanded[k]) == Key(n);
    }
  }

  /**
   * The expanded nodes cannot outnumber the keys reachable from start: when
   * S holds the key of every node that descends from start, at most |S|
   * nodes are expanded, so a fuel above |S| never runs out.
   */
  lemma ExpandedWithin(expanded: seq<Node>, start: Node, S: set<(Layer, Layer, int)>)
    requires Expanded(expanded, start)
    requires forall n :: Descends(n, start) ==> Key(n) in S
    ensures |expanded| <= |S|
  {
    KeysWithin(Key, expanded, S);
  }

  /**
   * `a_star_search`, stopped once fuel nodes have been expanded (a popped
   * node whose key is closed costs nothing): a returned path starts at the
   * start node, steps from successor to successor, and ends in a node with
   * no diamond left to place, so it is one node longer than the number of
   * diamonds to place and node k has g = k.  An empty open list means no
   * node that descends from the start is a goal; running out of fuel means
   * fuel nodes with distinct keys were expanded.  So while fuel is left, a
   * path is found exactly when a goal descends from the start.
   */
  method AStarSearch(blocks: Layer, diamonds: Layer, remaining: int, fuel: nat) returns (r: Answer, expanded: seq<Node>)
    requires Readable(blocks, diamonds)
    ensures r.Solution? ==> |r.path| >= 1 && r.path[0] == Start(blocks, diamonds, remaining) && IsGoal(r.path[|r.path| - 1])
    ensures r.Solution? ==> Chain(r.path) && |r.path| == remaining + 1
    ensures r.Solution? ==> forall k :: 0 <= k < |r.path| ==> r.path[k].g == k && r.path[k].remaining == remaining - k
    ensures r.NoSolution? ==> forall n :: Descends(n, Start(blocks, diamonds, remaining)) ==> !IsGoal(n)
    ensures r.OutOfFuel? ==> |expanded| == fuel
    ensures |expanded| < fuel ==> (r.Solution? <==> exists n :: Descends(n, Start(blocks, diamonds, remaining)) && IsGoal(n))
    ensures |expanded| <= fuel && Expanded(expanded, Start(blocks, diamonds, remaining))
  {
    var start := Start(blocks, diamonds, remaining);
    var open := [start];
    var closed: set<(Layer, Layer, int)> := {};
    expanded := [];
    TrackedStart(Key, Next, start);
    while |expanded| < fuel && |open| > 0
      invariant SearchInv(start, open, closed, expanded)
      invariant |expanded| <= fuel
      decreases fuel - |expanded|, |open|
    {
      var i := FirstLeast(open);
      var current := open[i];
      RemoveKeepsDescent(open, i, start);
      if IsGoal(current) {
        PathToGoal(current, start);
        r := Solution(Path(current));
        assert Descends(current, start) && IsGoal(current);
        return;
      }
      if Key(current) in closed {
        SkipTracked(Key, Next, start, open, closed, expanded, i);
        open := Without(open, i);
      } else {
        var kids := Unclosed(Next(current), closed + {Key(current)});
        KidsDescend(Without(open, i), current, kids, start);
        ExpandTracked(Key, Next, start, open, closed, expanded, i, kids);
        ExpandedGrows(expanded, start, current);
        closed := closed + {Key(current)};
        open := Without(open, i) + kids;
        expanded := expanded + [current];
      }
    }
    if |open| == 0 {
      ExhaustedNoGoal(start, closed, expanded);
      r := NoSolution;
    } else {
      r := OutOfFuel;
    }
  }
}
