/** Two zigzag paths that part over a few rows and come together again. */
module PathShift {
  import opened Zigzag

  /** The free cells of rows v to w of pair c, in visiting order. */
  ghost function RowsFrom(taken: (int, int) -> bool, size: nat, c: nat, v: nat, w: nat): seq<Cell>
    decreases w
  {
    if w <= v then [] else RowsFrom(taken, size, c, v, w - 1) + Two(taken, RightOf(size, c), RowOf(size, c, w - 1))
  }

  lemma {:induction false} SplitPair(taken: (int, int) -> bool, size: nat, c: nat, v: nat, w: nat)
    requires v <= w
    ensures PairCells(taken, size, c, w) == PairCells(taken, size, c, v) + RowsFrom(taken, size, c, v, w)
    decreases w
  {
    hide RightOf, RowOf, Two;
    if v < w {
      SplitPair(taken, size, c, v, w - 1);
    }
  }

  /** Both maps take the same cells of row step u in pair c. */
  ghost predicate SameRow(f: (int, int) -> bool, g: (int, int) -> bool, size: nat, c: nat, u: nat) {
    var x, y := RightOf(size, c), RowOf(size, c, u);
    f(x, y) == g(x, y) && f(x - 1, y) == g(x - 1, y)
  }

  lemma {:induction false} SameRows(f: (int, int) -> bool, g: (int, int) -> bool, size: nat, c: nat, v: nat, w: nat)
    requires forall u | v <= u < w :: SameRow(f, g, size, c, u)
    ensures RowsFrom(f, size, c, v, w) == RowsFrom(g, size, c, v, w)
    decreases w
  {
    hide RightOf, RowOf;
    if v < w {
      SameRows(f, g, size, c, v, w - 1);
      assert SameRow(f, g, size, c, w - 1);
    }
  }

  lemma {:induction false} AllRows(taken: (int, int) -> bool, size: nat, c: nat, w: nat)
    ensures PairCells(taken, size, c, w) == RowsFrom(taken, size, c, 0, w)
  {
    SplitPair(taken, size, c, 0, w);
  }

  /** The paths agree in every place but those in bad. */
  ghost predicate AgreeBut(a: seq<Cell>, b: seq<Cell>, bad: int -> bool) {
    |a| == |b| && forall k | 0 <= k < |a| && !bad(k) :: a[k] == b[k]
  }

  /** Pair c, where only the row steps v0 to v1 differ: if as many cells are free there, the paths come
      together again. */
  lemma Resync(f: (int, int) -> bool, g: (int, int) -> bool, size: nat, c: nat, v0: nat, v1: nat, bad: int -> bool)
    requires v0 <= v1 <= size
    requires forall u | 0 <= u < size && (u < v0 || v1 <= u) :: SameRow(f, g, size, c, u)
    requires |PairCells(f, size, c, v1)| == |PairCells(g, size, c, v1)|
    requires AgreeBut(Cells(f, size, c), Cells(g, size, c), bad)
    requires forall k | |Cells(f, size, c)| + |PairCells(f, size, c, v0)| <= k < |Cells(f, size, c)|
        + |PairCells(f, size, c, v1)| :: bad(k)
    ensures AgreeBut(Cells(f, size, c + 1), Cells(g, size, c + 1), bad)
  {
    hide PairCells, RowsFrom, SameRow;
    SplitPair(f, size, c, v0, v1); SplitPair(g, size, c, v0, v1);
    SplitPair(f, size, c, v1, size); SplitPair(g, size, c, v1, size);
    AllRows(f, size, c, v0); AllRows(g, size, c, v0);
    SameRows(f, g, size, c, 0, v0);
    SameRows(f, g, size, c, v1, size);
  }
}
