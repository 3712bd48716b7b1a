/**
 * Plans over a state space: a state type S, a move type M, a transition
 * `next` and a successor generator `succ` that lists the moves a search
 * generates in a state (under a context C that fixes, for instance, the block
 * list).  Every search of the program walks such a space; the facts here do
 * not depend on what a state is.
 */
module Plans {

  /** The state after playing the plan's moves in order from s. */
  function Run<S, M>(next: (S, M) -> S, s: S, plan: seq<M>): S
    decreases |plan|
  {
    if |plan| == 0 then s
    else next(Run(next, s, plan[..|plan| - 1]), plan[|plan| - 1])
  }

  /** Each move of the plan is one that succ generates in the state the earlier moves reach. */
  ghost predicate ValidPlan<C, S, M>(next: (S, M) -> S, succ: (C, S) -> seq<M>, c: C, s: S, plan: seq<M>) {
    forall k :: 0 <= k < |plan| ==> plan[k] in succ(c, Run(next, s, plan[..k]))
  }

  /** Appending a move applies it to the state the plan reaches. */
  lemma RunAppend<S, M>(next: (S, M) -> S, s: S, plan: seq<M>, m: M)
    ensures Run(next, s, plan + [m]) == next(Run(next, s, plan), m)
  {
    assert (plan + [m])[..|plan|] == plan;
  }

  /** A plan extended by one move is valid exactly when the plan is and the move is generated where it ends. */
  lemma ValidAppend<C, S, M>(next: (S, M) -> S, succ: (C, S) -> seq<M>, c: C, s: S, plan: seq<M>, m: M)
    ensures ValidPlan(next, succ, c, s, plan + [m]) <==>
              ValidPlan(next, succ, c, s, plan) && m in succ(c, Run(next, s, plan))
  {
    var p := plan + [m];
    assert p[..|plan|] == plan;
    forall k | 0 <= k < |plan|
      ensures p[..k] == plan[..k] && p[k] == plan[k]
    {
    }
    if ValidPlan(next, succ, c, s, p) {
      assert p[|plan|] in succ(c, Run(next, s, p[..|plan|]));
    }
  }

  /** Every prefix of a valid plan is valid. */
  lemma ValidPrefix<C, S, M>(next: (S, M) -> S, succ: (C, S) -> seq<M>, c: C, s: S, plan: seq<M>, j: nat)
    requires ValidPlan(next, succ, c, s, plan) && j <= |plan|
    ensures ValidPlan(next, succ, c, s, plan[..j])
  {
    forall k | 0 <= k < j
      ensures plan[..j][..k] == plan[..k]
    {
    }
  }

  /** Playing m and then q is playing the plan [m] + q. */
  lemma {:induction false} RunPrepend<S, M>(next: (S, M) -> S, s: S, m: M, q: seq<M>)
    ensures Run(next, s, [m] + q) == Run(next, next(s, m), q)
    decreases |q|
  {
    if |q| == 0 {
      assert [m] + q == [] + [m];
      RunAppend(next, s, [], m);
    } else {
      var q' := q[..|q| - 1];
      var last := q[|q| - 1];
      assert q == q' + [last];
      assert [m] + q == ([m] + q') + [last];
      RunPrepend(next, s, m, q');
      RunAppend(next, s, [m] + q', last);
      RunAppend(next, next(s, m), q', last);
    }
  }

  /** A plan that starts with m is valid exactly when m is generated first and the rest is valid after it. */
  lemma ValidPrepend<C, S, M>(next: (S, M) -> S, succ: (C, S) -> seq<M>, c: C, s: S, m: M, q: seq<M>)
    ensures ValidPlan(next, succ, c, s, [m] + q) <==>
              m in succ(c, s) && ValidPlan(next, succ, c, next(s, m), q)
  {
    var p := [m] + q;
    var t := next(s, m);
    assert p[..0] == [];
    forall k | 0 < k < |p|
      ensures p[..k] == [m] + q[..k - 1] && p[k] == q[k - 1]
      ensures Run(next, s, p[..k]) == Run(next, t, q[..k - 1])
    {
      assert p[..k] == [m] + q[..k - 1];
      RunPrepend(next, s, m, q[..k - 1]);
    }
    if ValidPlan(next, succ, c, s, p) {
      forall k | 0 <= k < |q|
        ensures q[k] in succ(c, Run(next, t, q[..k]))
      {
        assert p[k + 1] in succ(c, Run(next, s, p[..k + 1]));
      }
      assert p[0] in succ(c, Run(next, s, p[..0]));
    }
    if m in succ(c, s) && ValidPlan(next, succ, c, t, q) {
      forall k | 0 <= k < |p|
        ensures p[k] in succ(c, Run(next, s, p[..k]))
      {
        if k > 0 {
          assert q[k - 1] in succ(c, Run(next, t, q[..k - 1]));
        }
      }
    }
  }

  /** inv holds after every move generated in a state where it holds. */
  ghost predicate Preserved<C, S(!new), M(!new)>(next: (S, M) -> S, succ: (C, S) -> seq<M>, c: C, inv: (C, S) -> bool) {
    forall x, m :: inv(c, x) && m in succ(c, x) ==> inv(c, next(x, m))
  }

  /** A property preserved by every generated move holds at the end of every valid plan from a state where it holds. */
  lemma {:induction false} PreservedAlongPlan<C, S(!new), M(!new)>(
      next: (S, M) -> S, succ: (C, S) -> seq<M>, c: C, inv: (C, S) -> bool, s: S, plan: seq<M>)
    requires inv(c, s) && Preserved(next, succ, c, inv) && ValidPlan(next, succ, c, s, plan)
    ensures inv(c, Run(next, s, plan))
    decreases |plan|
  {
    if |plan| > 0 {
      var pre := plan[..|plan| - 1];
      var m := plan[|plan| - 1];
      assert plan == pre + [m];
      ValidAppend(next, succ, c, s, pre, m);
      PreservedAlongPlan(next, succ, c, inv, s, pre);
      RunAppend(next, s, pre, m);
    }
  }

  /**
   * Every state of the set satisfies ok, and every move generated in a state
   * of the set leads back into the set.
   */
  ghost predicate Closed<C, S(!new), M>(next: (S, M) -> S, succ: (C, S) -> seq<M>, c: C, ok: S -> bool, T: set<S>) {
    forall e :: e in T ==> ok(e) && forall m :: m in succ(c, e) ==> next(e, m) in T
  }

  /**
   * A closed set that holds the start holds every state a valid plan reaches,
   * so every such state satisfies ok.
   */
  lemma {:induction false} ClosedSetHoldsReachable<C, S(!new), M>(
      next: (S, M) -> S, succ: (C, S) -> seq<M>, c: C, ok: S -> bool, T: set<S>, s: S, plan: seq<M>)
    requires s in T && Closed(next, succ, c, ok, T)
    requires ValidPlan(next, succ, c, s, plan)
    ensures Run(next, s, plan) in T && ok(Run(next, s, plan))
    decreases |plan|
  {
    if |plan| > 0 {
      var pre := plan[..|plan| - 1];
      var m := plan[|plan| - 1];
      ValidPrefix(next, succ, c, s, plan, |plan| - 1);
      ClosedSetHoldsReachable(next, succ, c, ok, T, s, pre);
      assert plan == pre + [m];
      ValidAppend(next, succ, c, s, pre, m);
      RunAppend(next, s, pre, m);
    }
  }

  /** Every plan valid from s leads to a state that satisfies ok. */
  ghost predicate AlwaysHolds<C, S, M(!new)>(next: (S, M) -> S, succ: (C, S) -> seq<M>, c: C, ok: S -> bool, s: S) {
    forall plan :: ValidPlan(next, succ, c, s, plan) ==> ok(Run(next, s, plan))
  }

  /** The conclusion of ClosedSetHoldsReachable for every plan at once. */
  lemma ClosedSetShowsAlwaysHolds<C, S(!new), M(!new)>(
      next: (S, M) -> S, succ: (C, S) -> seq<M>, c: C, ok: S -> bool, T: set<S>, s: S)
    requires s in T && Closed(next, succ, c, ok, T)
    ensures AlwaysHolds(next, succ, c, ok, s)
  {
    forall plan | ValidPlan(next, succ, c, s, plan)
      ensures ok(Run(next, s, plan))
    {
      ClosedSetHoldsReachable(next, succ, c, ok, T, s, plan);
    }
  }
}
