/**
 * The bookkeeping of a best-first loop whose closed set holds keys of
 * nodes rather than nodes: a popped node whose key is closed is dropped,
 * any other is expanded, its key closed and its successors pushed (those
 * with a closed key may be left out).  Stated over any key and successor
 * functions, so that the facts below hold for both stand-alone A* programs.
 */
module Keyed {

  /** The keys of a sequence of nodes. */
  function Keys<N, K>(key: N -> K, ns: seq<N>): set<K> {
    set k | 0 <= k < |ns| :: key(ns[k])
  }

  /** No key occurs twice. */
  predicate KeysDistinct<N, K(==)>(key: N -> K, ns: seq<N>) {
    forall k, l :: 0 <= k < l < |ns| ==> key(ns[k]) != key(ns[l])
  }

  /** Nodes with the same key have successors with the same keys, in the same order. */
  ghost predicate KeyRespecting<N(!new), K>(key: N -> K, succ: N -> seq<N>) {
    forall a, b :: key(a) == key(b) ==>
      |succ(a)| == |succ(b)| && forall l :: 0 <= l < |succ(a)| ==> key(succ(a)[l]) == key(succ(b)[l])
  }

  /** Every successor of an expanded node has its key closed or held by a node of the open list. */
  predicate Covered<N, K(==)>(key: N -> K, succ: N -> seq<N>, expanded: seq<N>, open: seq<N>, closed: set<K>) {
    forall k, l :: 0 <= k < |expanded| && 0 <= l < |succ(expanded[k])| ==>
      key(succ(expanded[k])[l]) in closed || key(succ(expanded[k])[l]) in Keys(key, open)
  }

  /** Each node of ns after the first is a successor of the one before it. */
  predicate IsChain<N(==)>(succ: N -> seq<N>, ns: seq<N>) {
    forall k :: 0 <= k < |ns| - 1 ==> ns[k + 1] in succ(ns[k])
  }

  /** The open list with node i taken out, the others in their order. */
  function Without<N>(open: seq<N>, i: nat): (r: seq<N>)
    requires i < |open|
    ensures |r| == |open| - 1
    ensures forall k :: 0 <= k < i ==> r[k] == open[k]
    ensures forall k :: i < k < |open| ==> r[k - 1] == open[k]
  {
    open[..i] + open[i + 1..]
  }

  /** Dropping a node whose key is closed keeps every successor covered. */
  lemma SkipCovered<N, K>(key: N -> K, succ: N -> seq<N>, expanded: seq<N>, open: seq<N>, closed: set<K>, i: nat)
    requires Covered(key, succ, expanded, open, closed) && i < |open| && key(open[i]) in closed
    ensures Covered(key, succ, expanded, Without(open, i), closed)
  {
    var rest := Without(open, i);
    forall x | x in Keys(key, open)
      ensures x in closed || x in Keys(key, rest)
    {
      var k :| 0 <= k < |open| && key(open[k]) == x;
      if k < i {
        assert rest[k] == open[k];
      } else if k > i {
        assert rest[k - 1] == open[k];
      }
    }
  }

  /**
   * Expanding node i, closing its key and pushing kids, which hold every
   * successor whose key is still open, keeps every successor covered.
   */
  lemma ExpandCovered<N, K>(key: N -> K, succ: N -> seq<N>, expanded: seq<N>, open: seq<N>, closed: set<K>, i: nat, kids: seq<N>)
    requires Covered(key, succ, expanded, open, closed) && i < |open|
    requires forall s :: s in succ(open[i]) ==> key(s) in closed + {key(open[i])} || s in kids
    ensures Covered(key, succ, expanded + [open[i]], Without(open, i) + kids, closed + {key(open[i])})
  {
    var e := open[i];
    var rest := Without(open, i);
    var open' := rest + kids;
    var closed' := closed + {key(e)};
    var expanded' := expanded + [e];
    forall x | x in Keys(key, open)
      ensures x in closed' || x in Keys(key, open')
    {
      var k :| 0 <= k < |open| && key(open[k]) == x;
      if k < i {
        assert open'[k] == open[k];
      } else if k > i {
        assert open'[k - 1] == open[k];
      }
    }
    forall k, l | 0 <= k < |expanded'| && 0 <= l < |succ(expanded'[k])|
      ensures key(succ(expanded'[k])[l]) in closed' || key(succ(expanded'[k])[l]) in Keys(key, open')
    {
      if k == |expanded| {
        var s := succ(e)[l];
        if key(s) !in closed' {
          var j :| 0 <= j < |kids| && kids[j] == s;
          assert open'[|rest| + j] == s;
        }
      } else {
        assert expanded'[k] == expanded[k];
      }
    }
  }

  /** Expanding one more node, with a key not yet closed, keeps the closed set the set of expanded keys, each once. */
  lemma ExpandKeys<N, K>(key: N -> K, expanded: seq<N>, closed: set<K>, e: N)
    requires closed == Keys(key, expanded) && KeysDistinct(key, expanded) && key(e) !in closed
    ensures closed + {key(e)} == Keys(key, expanded + [e]) && KeysDistinct(key, expanded + [e])
  {
    var expanded' := expanded + [e];
    assert forall k :: 0 <= k < |expanded| ==> expanded'[k] == expanded[k];
    assert expanded'[|expanded|] == e;
  }

  /**
   * The bookkeeping invariant: the closed set holds the keys of the
   * expanded nodes, each expanded once, and every successor of an expanded
   * node, and the start, has its key closed or held by a node of the open
   * list.
   */
  predicate Tracked<N, K(==)>(key: N -> K, succ: N -> seq<N>, start: N, open: seq<N>, closed: set<K>, expanded: seq<N>) {
    && KeysDistinct(key, expanded)
    && closed == Keys(key, expanded)
    && Covered(key, succ, expanded, open, closed)
    && (key(start) in closed || key(start) in Keys(key, open))
  }

  /** The bookkeeping invariant before the first iteration. */
  lemma TrackedStart<N, K>(key: N -> K, succ: N -> seq<N>, start: N)
    ensures Tracked(key, succ, start, [start], {}, [])
  {
    assert key(start) == key([start][0]);
  }

  /** Dropping a node whose key is closed keeps the bookkeeping invariant. */
  lemma SkipTracked<N, K>(key: N -> K, succ: N -> seq<N>, start: N, open: seq<N>, closed: set<K>, expanded: seq<N>, i: nat)
    requires Tracked(key, succ, start, open, closed, expanded) && i < |open| && key(open[i]) in closed
    ensures Tracked(key, succ, start, Without(open, i), closed, expanded)
  {
    SkipCovered(key, succ, expanded, open, closed, i);
    if key(start) !in closed {
      var k :| 0 <= k < |open| && key(open[k]) == key(start);
      if k < i {
        assert Without(open, i)[k] == open[k];
      } else {
        assert Without(open, i)[k - 1] == open[k];
      }
    }
  }

  /**
   * Expanding node i, whose key is not closed, closing its key and pushing
   * kids, which hold every successor whose key is still open, keeps the
   * bookkeeping invariant.
   */
  lemma ExpandTracked<N, K>(key: N -> K, succ: N -> seq<N>, start: N, open: seq<N>, closed: set<K>, expanded: seq<N>, i: nat, kids: seq<N>)
    requires Tracked(key, succ, start, open, closed, expanded) && i < |open| && key(open[i]) !in closed
    requires forall s :: s in succ(open[i]) ==> key(s) in closed + {key(open[i])} || s in kids
    ensures Tracked(key, succ, start, Without(open, i) + kids, closed + {key(open[i])}, expanded + [open[i]])
  {
    ExpandCovered(key, succ, expanded, open, closed, i, kids);
    ExpandKeys(key, expanded, closed, open[i]);
    var open' := Without(open, i) + kids;
    if key(start) !in closed + {key(open[i])} {
      var k :| 0 <= k < |open| && key(open[k]) == key(start);
      if k < i {
        assert open'[k] == open[k];
      } else {
        assert open'[k - 1] == open[k];
      }
    }
  }

  /**
   * Once the open list is empty, a successor of a node whose key is closed
   * has its key closed too.
   */
  lemma ClosedStep<N(!new), K>(key: N -> K, succ: N -> seq<N>, start: N, closed: set<K>, expanded: seq<N>, p: N, n: N)
    requires Tracked(key, succ, start, [], closed, expanded) && KeyRespecting(key, succ)
    requires key(p) in closed && n in succ(p)
    ensures key(n) in closed
  {
    var k :| 0 <= k < |expanded| && key(expanded[k]) == key(p);
    var y := expanded[k];
    var l :| 0 <= l < |succ(p)| && succ(p)[l] == n;
    assert key(succ(y)[l]) == key(n);
  }

  /** Once the open list is empty, every node of a chain from the start has a closed key. */
  lemma {:induction false} ChainClosed<N(!new), K>(key: N -> K, succ: N -> seq<N>, start: N, closed: set<K>, expanded: seq<N>, ns: seq<N>)
    requires Tracked(key, succ, start, [], closed, expanded) && KeyRespecting(key, succ)
    requires |ns| > 0 && ns[0] == start && IsChain(succ, ns)
    ensures key(ns[|ns| - 1]) in closed
    decreases |ns|
  {
    if |ns| > 1 {
      var p := ns[..|ns| - 1];
      assert IsChain(succ, p);
      ChainClosed(key, succ, start, closed, expanded, p);
      ClosedStep(key, succ, start, closed, expanded, ns[|ns| - 2], ns[|ns| - 1]);
    }
  }

  /** Some chain of successors leads from start to x. */
  ghost predicate Reachable<N(!new)>(succ: N -> seq<N>, start: N, x: N) {
    exists ns :: |ns| > 0 && ns[0] == start && IsChain(succ, ns) && ns[|ns| - 1] == x
  }

  /** The start is reachable from itself. */
  lemma ReachStart<N(!new)>(succ: N -> seq<N>, start: N)
    ensures Reachable(succ, start, start)
  {
    assert [start][0] == start;
  }

  /** A successor of a reachable node is reachable. */
  lemma ReachStep<N(!new)>(succ: N -> seq<N>, start: N, x: N, y: N)
    requires Reachable(succ, start, x) && y in succ(x)
    ensures Reachable(succ, start, y)
  {
    var ns :| |ns| > 0 && ns[0] == start && IsChain(succ, ns) && ns[|ns| - 1] == x;
    var ns' := ns + [y];
    assert ns'[|ns'| - 1] == y && ns'[0] == start;
    assert IsChain(succ, ns') by {
      forall k | 0 <= k < |ns'| - 1
        ensures ns'[k + 1] in succ(ns'[k])
      {
        if k < |ns| - 1 {
          assert ns'[k] == ns[k] && ns'[k + 1] == ns[k + 1];
        }
      }
    }
  }

  /** Once the open list is empty, every node reachable from the start has a closed key. */
  lemma ReachClosed<N(!new), K>(key: N -> K, succ: N -> seq<N>, start: N, closed: set<K>, expanded: seq<N>, x: N)
    requires Tracked(key, succ, start, [], closed, expanded) && KeyRespecting(key, succ)
    requires Reachable(succ, start, x)
    ensures key(x) in closed
  {
    var ns :| |ns| > 0 && ns[0] == start && IsChain(succ, ns) && ns[|ns| - 1] == x;
    ChainClosed(key, succ, start, closed, expanded, ns);
  }

  /** A sequence without repeated keys has as many keys as nodes. */
  lemma {:induction false} KeysCount<N, K>(key: N -> K, ns: seq<N>)
    requires KeysDistinct(key, ns)
    ensures |Keys(key, ns)| == |ns|
    decreases |ns|
  {
    if |ns| > 0 {
      var p := ns[..|ns| - 1];
      KeysCount(key, p);
      assert Keys(key, ns) == Keys(key, p) + {key(ns[|ns| - 1])};
    }
  }

  /** A subset is no larger than its superset. */
  lemma {:induction false} SubsetSize<T>(A: set<T>, B: set<T>)
    requires A <= B
    ensures |A| <= |B|
    decreases |A|
  {
    if A != {} {
      var x :| x in A;
      SubsetSize(A - {x}, B - {x});
    }
  }

  /** Nodes with distinct keys, all in S, are at most |S| many. */
  lemma KeysWithin<N, K>(key: N -> K, ns: seq<N>, S: set<K>)
    requires KeysDistinct(key, ns) && forall k :: 0 <= k < |ns| ==> key(ns[k]) in S
    ensures |ns| <= |S|
  {
    KeysCount(key, ns);
    SubsetSize(Keys(key, ns), S);
  }
}
