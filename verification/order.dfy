/**
 * Python's `<` on the values the searches put in heap tuples: numbers,
 * lists of numbers (board rows), lists of rows (boards and blocks), move
 * tuples (block, x, y), states (board, diamonds) and paths (lists of moves).
 * A list is smaller when, at the first position where the two differ, its
 * element is smaller, or when it is a proper prefix of the other.
 */
module Order {
  import opened Grid
  import opened Blocks
  import opened Board

  /** Lexicographic `<` on lists, given `<` on their elements. */
  predicate LexLess<T(==)>(less: (T, T) -> bool, a: seq<T>, b: seq<T>)
    decreases |a|
  {
    if |a| == 0 then |b| > 0
    else if |b| == 0 then false
    else if a[0] == b[0] then LexLess(less, a[1..], b[1..])
    else less(a[0], b[0])
  }

  /** less is irreflexive and transitive. */
  ghost predicate StrictOrder<T(!new)>(less: (T, T) -> bool) {
    && (forall x :: !less(x, x))
    && (forall x, y, z :: less(x, y) && less(y, z) ==> less(x, z))
  }

  /** Any two different values are ordered one way or the other. */
  ghost predicate Total<T(!new)>(less: (T, T) -> bool) {
    forall x, y :: x != y ==> less(x, y) || less(y, x)
  }

  /** No list is smaller than itself. */
  lemma {:induction false} LexIrreflexive<T>(less: (T, T) -> bool, a: seq<T>)
    ensures !LexLess(less, a, a)
    decreases |a|
  {
    if |a| > 0 {
      LexIrreflexive(less, a[1..]);
    }
  }

  /** The lexicographic order of a strict order is transitive. */
  lemma {:induction false} LexTransitive<T(!new)>(less: (T, T) -> bool, a: seq<T>, b: seq<T>, c: seq<T>)
    requires StrictOrder(less)
    requires LexLess(less, a, b) && LexLess(less, b, c)
    ensures LexLess(less, a, c)
    decreases |a|
  {
    if |a| > 0 && a[0] == b[0] && b[0] == c[0] {
      LexTransitive(less, a[1..], b[1..], c[1..]);
    } else if |a| > 0 && a[0] != b[0] && b[0] != c[0] {
      assert less(a[0], b[0]) && less(b[0], c[0]);
    }
  }

  /** The lexicographic order of a total order is total. */
  lemma {:induction false} LexTotal<T(!new)>(less: (T, T) -> bool, a: seq<T>, b: seq<T>)
    requires Total(less)
    requires a != b
    ensures LexLess(less, a, b) || LexLess(less, b, a)
    decreases |a|
  {
    if |a| > 0 && |b| > 0 && a[0] == b[0] {
      assert a == [a[0]] + a[1..] && b == [b[0]] + b[1..];
      LexTotal(less, a[1..], b[1..]);
    }
  }

  // ---------------------------------------------------------------------------
  // The orders of the heap tuples

  function IntLess(x: int, y: int): bool {
    x < y
  }

  /** `<` on board rows (lists of numbers). */
  function RowLess(a: seq<int>, b: seq<int>): bool {
    LexLess(IntLess, a, b)
  }

  /** `<` on boards and on block matrices (lists of rows). */
  function LayerLess(a: Layer, b: Layer): bool {
    LexLess(RowLess, a, b)
  }

  /** `<` on move tuples (block, x, y). */
  function MoveLess(a: Move, b: Move): bool {
    || LayerLess(a.shape.cells, b.shape.cells)
    || (a.shape == b.shape && (a.row < b.row || (a.row == b.row && a.col < b.col)))
  }

  /** `<` on paths (lists of move tuples). */
  function PathLess(a: seq<Move>, b: seq<Move>): bool {
    LexLess(MoveLess, a, b)
  }

  /** `<` on the state key (board, diamonds). */
  function StateLess(a: State, b: State): bool {
    LayerLess(a.board, b.board) || (a.board == b.board && LayerLess(a.diamonds, b.diamonds))
  }

  lemma IntOrder()
    ensures StrictOrder(IntLess) && Total(IntLess)
  {
  }

  lemma RowOrder()
    ensures StrictOrder(RowLess) && Total(RowLess)
  {
    IntOrder();
    forall a: seq<int>
      ensures !RowLess(a, a)
    {
      LexIrreflexive(IntLess, a);
    }
    forall a: seq<int>, b: seq<int>, c: seq<int> | RowLess(a, b) && RowLess(b, c)
      ensures RowLess(a, c)
    {
      LexTransitive(IntLess, a, b, c);
    }
    forall a: seq<int>, b: seq<int> | a != b
      ensures RowLess(a, b) || RowLess(b, a)
    {
      LexTotal(IntLess, a, b);
    }
  }

  lemma LayerOrder()
    ensures StrictOrder(LayerLess) && Total(LayerLess)
  {
    RowOrder();
    forall a: Layer
      ensures !LayerLess(a, a)
    {
      LexIrreflexive(RowLess, a);
    }
    forall a: Layer, b: Layer, c: Layer | LayerLess(a, b) && LayerLess(b, c)
      ensures LayerLess(a, c)
    {
      LexTransitive(RowLess, a, b, c);
    }
    forall a: Layer, b: Layer | a != b
      ensures LayerLess(a, b) || LayerLess(b, a)
    {
      LexTotal(RowLess, a, b);
    }
  }

  lemma MoveOrder()
    ensures StrictOrder(MoveLess) && Total(MoveLess)
  {
    LayerOrder();
    forall a: Move, b: Move | a != b
      ensures MoveLess(a, b) || MoveLess(b, a)
    {
      if a.shape.cells != b.shape.cells {
        assert LayerLess(a.shape.cells, b.shape.cells) || LayerLess(b.shape.cells, a.shape.cells);
      } else {
        assert a.shape == b.shape;
      }
    }
    forall a: Move, b: Move, c: Move | MoveLess(a, b) && MoveLess(b, c)
      ensures MoveLess(a, c)
    {
      if LayerLess(a.shape.cells, b.shape.cells) && LayerLess(b.shape.cells, c.shape.cells) {
        assert LayerLess(a.shape.cells, c.shape.cells);
      }
    }
  }

  lemma PathOrder()
    ensures StrictOrder(PathLess) && Total(PathLess)
  {
    MoveOrder();
    forall a: seq<Move>
      ensures !PathLess(a, a)
    {
      LexIrreflexive(MoveLess, a);
    }
    forall a: seq<Move>, b: seq<Move>, c: seq<Move> | PathLess(a, b) && PathLess(b, c)
      ensures PathLess(a, c)
    {
      LexTransitive(MoveLess, a, b, c);
    }
    forall a: seq<Move>, b: seq<Move> | a != b
      ensures PathLess(a, b) || PathLess(b, a)
    {
      LexTotal(MoveLess, a, b);
    }
  }

  lemma StateOrder()
    ensures StrictOrder(StateLess) && Total(StateLess)
  {
    LayerOrder();
    forall a: State, b: State | a != b
      ensures StateLess(a, b) || StateLess(b, a)
    {
      if a.board == b.board {
        assert a.diamonds != b.diamonds;
      }
    }
  }

  /**
   * Python orders the three blocks of the search algorithms as vertical bar,
   * then square, then horizontal bar: the first rows [1], [1, 1] and [1, 1, 1]
   * differ, and a proper prefix is smaller.
   */
  lemma CatalogueOrder()
    ensures LayerLess(Vertical3.cells, Square2.cells)
    ensures LayerLess(Square2.cells, Horizontal3.cells)
    ensures LayerLess(Vertical3.cells, Horizontal3.cells)
  {
    assert RowLess([1], [1, 1]) by {
      assert [1][1..] == [] && [1, 1][1..] == [1];
    }
    assert RowLess([1, 1], [1, 1, 1]) by {
      assert [1, 1][1..] == [1] && [1, 1, 1][1..] == [1, 1];
      assert [1][1..] == [] && [1, 1][1..] == [1];
    }
    assert RowLess([1], [1, 1, 1]) by {
      assert [1][1..] == [] && [1, 1, 1][1..] == [1, 1];
    }
  }
}
