/** The order in which the codeword bits run through the modules, two columns at a time. */
module Zigzag {
  datatype Cell = Cell(x: int, y: int)

  /** Sizes of symbols: 1 more than a multiple of 4. */
  predicate IsSize(size: nat) {
    size >= 21 && size % 4 == 1
  }

  function Pairs(size: nat): nat {
    size / 2
  }

  /** The right column of the c-th pair from the right; column 6 is skipped. */
  function RightOf(size: nat, c: nat): int {
    var r := size - 1 - 2 * c;
    if r <= 6 then r - 1 else r
  }

  /** The row reached after v steps in pair c: upwards in even pairs, downwards in odd ones. */
  function RowOf(size: nat, c: nat, v: nat): int {
    if c % 2 == 0 then size - 1 - v else v
  }

  /** The cells among a and b that are free. */
  ghost function Two(taken: (int, int) -> bool, x: int, y: int): seq<Cell> {
    One(taken, x, y) + One(taken, x - 1, y)
  }

  ghost function One(taken: (int, int) -> bool, x: int, y: int): seq<Cell> {
    if taken(x, y) then [] else [Cell(x, y)]
  }

  /** The free cells of the first v rows of pair c, in visiting order. */
  ghost function PairCells(taken: (int, int) -> bool, size: nat, c: nat, v: nat): seq<Cell> {
    if v == 0 then []
    else PairCells(taken, size, c, v - 1) + Two(taken, RightOf(size, c), RowOf(size, c, v - 1))
  }

  /** The free cells of the first c pairs. */
  ghost function Cells(taken: (int, int) -> bool, size: nat, c: nat): seq<Cell> {
    if c == 0 then [] else Cells(taken, size, c - 1) + PairCells(taken, size, c - 1, size)
  }

  ghost function AllCells(taken: (int, int) -> bool, size: nat): seq<Cell> {
    Cells(taken, size, Pairs(size))
  }

  lemma RightFacts(size: nat, c: nat)
    requires IsSize(size) && c < Pairs(size)
    ensures 1 <= RightOf(size, c) < size
    ensures c > 0 ==> RightOf(size, c) + 1 < RightOf(size, c - 1)
    ensures c > 0 && RightOf(size, c) != 5 ==> RightOf(size, c) + 2 == RightOf(size, c - 1)
    ensures c > 0 && RightOf(size, c) == 5 ==> RightOf(size, c - 1) == 8
    ensures c == 0 ==> RightOf(size, c) == size - 1
    ensures c == Pairs(size) - 1 ==> RightOf(size, c) == 1
  {
    hide IsSize, Pairs;
    SizeParts(size, size / 4);
  }

  lemma SizeParts(size: nat, q: nat)
    requires IsSize(size) && q == size / 4
    ensures size == 4 * q + 1 && Pairs(size) == 2 * q && q >= 5
  {}

  // ----- every cell is visited at most once

  lemma {:induction false} PairCellsWhere(taken: (int, int) -> bool, size: nat, c: nat, v: nat, k: nat)
    requires v <= size && k < |PairCells(taken, size, c, v)|
    ensures var cell := PairCells(taken, size, c, v)[k];
            && (cell.x == RightOf(size, c) || cell.x == RightOf(size, c) - 1)
            && (if c % 2 == 0 then size - v <= cell.y < size else 0 <= cell.y < v)
            && !taken(cell.x, cell.y)
  {
    var before := PairCells(taken, size, c, v - 1);
    if k < |before| {
      PairCellsWhere(taken, size, c, v - 1, k);
    }
  }

  lemma {:induction false} CellsWhere(taken: (int, int) -> bool, size: nat, c: nat, k: nat)
    requires IsSize(size) && c <= Pairs(size) && k < |Cells(taken, size, c)|
    ensures var cell := Cells(taken, size, c)[k];
            && (if c == 0 then false else RightOf(size, c - 1) - 1 <= cell.x < size)
            && 0 <= cell.x && 0 <= cell.y < size && !taken(cell.x, cell.y)
  {
    hide RightOf, PairCells, IsSize, Pairs;
    var before := Cells(taken, size, c - 1);
    RightFacts(size, c - 1);
    if k < |before| {
      CellsWhere(taken, size, c - 1, k);
      if c > 1 { RightFacts(size, c - 2); }
    } else {
      PairCellsWhere(taken, size, c - 1, size, k - |before|);
    }
  }

  ghost predicate NoDuplicates(s: seq<Cell>) {
    forall i, j | 0 <= i < j < |s| :: s[i] != s[j]
  }

  lemma {:induction false} PairCellsOnce(taken: (int, int) -> bool, size: nat, c: nat, v: nat)
    requires v <= size
    ensures NoDuplicates(PairCells(taken, size, c, v))
  {
    if v > 0 {
      var before, row := PairCells(taken, size, c, v - 1), RowOf(size, c, v - 1);
      PairCellsOnce(taken, size, c, v - 1);
      forall k | 0 <= k < |before| ensures before[k].y != row {
        PairCellsWhere(taken, size, c, v - 1, k);
      }
    }
  }

  lemma {:induction false} CellsOnce(taken: (int, int) -> bool, size: nat, c: nat)
    requires IsSize(size) && c <= Pairs(size)
    ensures NoDuplicates(Cells(taken, size, c))
  {
    hide RightOf, PairCells, IsSize, Pairs;
    if c > 0 {
      var before, pair := Cells(taken, size, c - 1), PairCells(taken, size, c - 1, size);
      RightFacts(size, c - 1);
      CellsOnce(taken, size, c - 1);
      PairCellsOnce(taken, size, c - 1, size);
      forall i, j | 0 <= i < |before| && 0 <= j < |pair| ensures before[i] != pair[j] {
        CellsWhere(taken, size, c - 1, i);
        PairCellsWhere(taken, size, c - 1, size, j);
      }
    }
  }

  // ----- counting

  function Num(p: int -> bool, n: nat): nat {
    if n == 0 then 0 else Num(p, n - 1) + (if p(n - 1) then 1 else 0)
  }

  /** The free cells of column x. */
  ghost function FreeInColumn(taken: (int, int) -> bool, x: int): int -> bool {
    y => !taken(x, y)
  }

  ghost function Free(taken: (int, int) -> bool, size: nat, x: int): nat {
    Num(FreeInColumn(taken, x), size)
  }

  /** The free cells of the columns from x up. */
  ghost function FreeFrom(taken: (int, int) -> bool, size: nat, x: int): nat
    decreases size - x
  {
    if x >= size then 0 else Free(taken, size, x) + FreeFrom(taken, size, x + 1)
  }

  lemma {:induction false} PairCellsCountDown(taken: (int, int) -> bool, size: nat, c: nat, v: nat)
    requires v <= size && c % 2 == 1
    ensures var x := RightOf(size, c);
            |PairCells(taken, size, c, v)| == Num(FreeInColumn(taken, x), v) + Num(FreeInColumn(taken, x - 1), v)
  {
    if v > 0 {
      PairCellsCountDown(taken, size, c, v - 1);
    }
  }

  lemma {:induction false} PairCellsCountUp(taken: (int, int) -> bool, size: nat, c: nat, v: nat)
    requires v <= size && c % 2 == 0
    ensures var x := RightOf(size, c);
            && Num(FreeInColumn(taken, x), size - v) <= Num(FreeInColumn(taken, x), size)
            && Num(FreeInColumn(taken, x - 1), size - v) <= Num(FreeInColumn(taken, x - 1), size)
            && |PairCells(taken, size, c, v)| ==
               Num(FreeInColumn(taken, x), size) - Num(FreeInColumn(taken, x), size - v) +
               Num(FreeInColumn(taken, x - 1), size) - Num(FreeInColumn(taken, x - 1), size - v)
  {
    if v > 0 {
      PairCellsCountUp(taken, size, c, v - 1);
    }
  }

  lemma {:induction false} CellsCount(taken: (int, int) -> bool, size: nat, c: nat)
    requires IsSize(size) && c <= Pairs(size)
    requires forall y | 0 <= y < size :: taken(6, y)
    ensures |Cells(taken, size, c)| == FreeFrom(taken, size, if c == 0 then size else RightOf(size, c - 1) - 1)
  {
    hide RightOf, PairCells, Pairs, Free, FreeFrom;
    if c > 0 {
      var x := RightOf(size, c - 1);
      RightFacts(size, c - 1);
      CellsCount(taken, size, c - 1);
      PairCount(taken, size, c - 1);
      TwoColumns(taken, size, x);
      if x == 5 {
        NoFreeColumn(taken, size);
      }
    } else {
      NoColumns(taken, size);
    }
  }

  lemma PairCount(taken: (int, int) -> bool, size: nat, c: nat)
    ensures |PairCells(taken, size, c, size)| ==
            Free(taken, size, RightOf(size, c)) + Free(taken, size, RightOf(size, c) - 1)
  {
    hide RightOf, PairCells;
    if c % 2 == 0 {
      PairCellsCountUp(taken, size, c, size);
    } else {
      PairCellsCountDown(taken, size, c, size);
    }
  }

  lemma TwoColumns(taken: (int, int) -> bool, size: nat, x: int)
    requires x < size
    ensures FreeFrom(taken, size, x - 1) ==
            Free(taken, size, x - 1) + Free(taken, size, x) + FreeFrom(taken, size, x + 1)
  {
    hide Free;
  }

  lemma NoFreeColumn(taken: (int, int) -> bool, size: nat)
    requires size > 6 && forall y | 0 <= y < size :: taken(6, y)
    ensures FreeFrom(taken, size, 6) == FreeFrom(taken, size, 7)
  {
    NoneIn(FreeInColumn(taken, 6), size);
  }

  lemma NoColumns(taken: (int, int) -> bool, size: nat)
    ensures FreeFrom(taken, size, size) == 0
  {}

  lemma {:induction false} NoneIn(p: int -> bool, n: nat)
    requires forall i | 0 <= i < n :: !p(i)
    ensures Num(p, n) == 0
  {
    if n > 0 {
      NoneIn(p, n - 1);
    }
  }

  /** The cells are counted column by column. */
  lemma AllCellsCount(taken: (int, int) -> bool, size: nat)
    requires IsSize(size)
    requires forall y | 0 <= y < size :: taken(6, y)
    ensures |AllCells(taken, size)| == FreeFrom(taken, size, 0)
  {
    RightFacts(size, Pairs(size) - 1);
    CellsCount(taken, size, Pairs(size));
  }

  // ----- the path so far

  /** The free cells visited before the j-th module of row step v in pair c. */
  ghost function Visited(taken: (int, int) -> bool, size: nat, c: nat, v: nat, j: nat): seq<Cell> {
    Cells(taken, size, c) + PairCells(taken, size, c, v)
    + (if j == 0 then [] else One(taken, RightOf(size, c), RowOf(size, c, v)))
  }

  lemma {:induction false} PairCellsGrow(taken: (int, int) -> bool, size: nat, c: nat, v: nat, w: nat)
    requires v <= w
    ensures PairCells(taken, size, c, v) <= PairCells(taken, size, c, w)
  {
    if v < w {
      PairCellsGrow(taken, size, c, v, w - 1);
    }
  }

  lemma {:induction false} CellsGrow(taken: (int, int) -> bool, size: nat, c: nat, d: nat)
    requires c <= d
    ensures Cells(taken, size, c) <= Cells(taken, size, d)
  {
    hide PairCells;
    if c < d {
      CellsGrow(taken, size, c, d - 1);
      Longer(Cells(taken, size, c), Cells(taken, size, d - 1), PairCells(taken, size, d - 1, size));
    }
  }

  lemma Longer(a: seq<Cell>, b: seq<Cell>, more: seq<Cell>)
    requires a <= b
    ensures a <= b + more
  {}

  /** One more module is visited: the path grows by it if it is free. */
  lemma VisitedStep(taken: (int, int) -> bool, size: nat, c: nat, v: nat, j: nat)
    requires c < Pairs(size) && v < size && j < 2
    ensures var x, y := RightOf(size, c) - j, RowOf(size, c, v);
            var next := if j == 0 then Visited(taken, size, c, v, 1) else Visited(taken, size, c, v + 1, 0);
            next == Visited(taken, size, c, v, j) + One(taken, x, y) && next <= AllCells(taken, size)
  {
    hide RightOf, RowOf, One, Pairs, Cells, PairCells;
    var x, y := RightOf(size, c), RowOf(size, c, v);
    CellsGrow(taken, size, c + 1, Pairs(size));
    PairCellsGrow(taken, size, c, v + 1, size);
    Unfolded(taken, size, c, v);
    Parts(Cells(taken, size, c), PairCells(taken, size, c, v), One(taken, x, y), One(taken, x - 1, y),
          PairCells(taken, size, c, size), AllCells(taken, size));
  }

  lemma Unfolded(taken: (int, int) -> bool, size: nat, c: nat, v: nat)
    ensures PairCells(taken, size, c, v + 1) == PairCells(taken, size, c, v)
        + Two(taken, RightOf(size, c), RowOf(size, c, v))
    ensures Cells(taken, size, c + 1) == Cells(taken, size, c) + PairCells(taken, size, c, size)
  {
    hide RightOf, RowOf, One;
  }

  lemma Parts(a: seq<Cell>, b: seq<Cell>, o1: seq<Cell>, o2: seq<Cell>, pair: seq<Cell>, all: seq<Cell>)
    requires b + (o1 + o2) <= pair && a + pair <= all
    ensures a + b + o1 <= all && a + (b + (o1 + o2)) + [] == a + b + o1 + o2 <= all && a + b + [] + o1 == a + b + o1
  {
    var n := |b + (o1 + o2)|;
    assert pair == b + (o1 + o2) + pair[n..];
    assert a + pair == a + b + o1 + o2 + pair[n..];
  }

  lemma VisitedPair(taken: (int, int) -> bool, size: nat, c: nat)
    ensures Visited(taken, size, c, size, 0) == Visited(taken, size, c + 1, 0, 0)
    ensures Visited(taken, size, c, 0, 0) == Cells(taken, size, c)
    ensures Visited(taken, size, 0, 0, 0) == []
  {}

  // ----- equal tests give equal paths

  lemma {:induction false} PairCellsSame(f: (int, int) -> bool, g: (int, int) -> bool, size: nat, c: nat, v: nat)
    requires v <= size && 1 <= RightOf(size, c) < size
    requires forall x, y | 0 <= x < size && 0 <= y < size :: f(x, y) == g(x, y)
    ensures PairCells(f, size, c, v) == PairCells(g, size, c, v)
  {
    if v > 0 {
      PairCellsSame(f, g, size, c, v - 1);
    }
  }

  lemma {:induction false} CellsSame(f: (int, int) -> bool, g: (int, int) -> bool, size: nat, c: nat)
    requires IsSize(size) && c <= Pairs(size)
    requires forall x, y | 0 <= x < size && 0 <= y < size :: f(x, y) == g(x, y)
    ensures Cells(f, size, c) == Cells(g, size, c)
  {
    hide RightOf, PairCells, IsSize, Pairs;
    if c > 0 {
      RightFacts(size, c - 1);
      CellsSame(f, g, size, c - 1);
      PairCellsSame(f, g, size, c - 1, size);
    }
  }

  // ----- walking the path

  /** The free modules visited before module j of row step v in column pair c. */
  ghost function VisitedCount(taken: (int, int) -> bool, size: nat, c: nat, v: nat, j: nat): nat {
    |if j < 2 then Visited(taken, size, c, v, j) else Visited(taken, size, c, v + 1, 0)|
  }

  /** The next module is the next of the path, if it is free. */
  lemma NextCell(taken: (int, int) -> bool, size: nat, c: nat, v: nat, j: nat)
    requires IsSize(size) && c < Pairs(size) && v < size && j < 2
    ensures var x, y := RightOf(size, c) - j, RowOf(size, c, v);
            var here, next := VisitedCount(taken, size, c, v, j), VisitedCount(taken, size, c, v, j + 1);
            && 0 <= x < size && 0 <= y < size && next <= |AllCells(taken, size)|
            && (if taken(x, y) then next == here else next == here + 1 && AllCells(taken, size)[here] == Cell(x, y))
  {
    hide Visited, RightOf, IsSize, Pairs;
    RightFacts(size, c);
    VisitedStep(taken, size, c, v, j);
  }

  lemma WalkFacts(taken: (int, int) -> bool, size: nat, c: nat, v: nat)
    ensures VisitedCount(taken, size, 0, 0, 0) == 0
    ensures VisitedCount(taken, size, c, size, 0) == VisitedCount(taken, size, c + 1, 0, 0)
    ensures VisitedCount(taken, size, c, v, 2) == VisitedCount(taken, size, c, v + 1, 0)
    ensures VisitedCount(taken, size, Pairs(size), 0, 0) == |AllCells(taken, size)|
  {
    hide Pairs;
    VisitedPair(taken, size, c);
    VisitedPair(taken, size, Pairs(size));
  }

  /** The column counter before pair c. */
  ghost function RightBefore(size: nat, c: nat): int {
    if c == 0 then size - 1 else RightOf(size, c - 1) - 2
  }

  /** The encoder's direction in the pair with right column right agrees with the direction in pair c. */
  predicate DirectionAgrees(right: int, c: nat) {
    (right + 1) / 2 % 2 == 0 <==> c % 2 == 0
  }

  /** Before pair c the column counter is at its right column, or at the skipped column 6. */
  lemma RightCounter(size: nat, c: nat)
    requires IsSize(size) && c <= Pairs(size)
    ensures RightBefore(size, c) >= 1 <==> c < Pairs(size)
    ensures c < Pairs(size) ==>
              && RightOf(size, c) == (if RightBefore(size, c) == 6 then 5 else RightBefore(size, c))
              && DirectionAgrees(RightOf(size, c), c) && RightOf(size, c) != 6
    ensures RightBefore(size, 0) == size - 1 && RightBefore(size, c + 1) == RightOf(size, c) - 2
  {
    if c < Pairs(size) {
      RightFacts(size, c);
      Direction(size, c);
    }
    if c > 0 {
      RightFacts(size, c - 1);
    }
  }

  lemma Direction(size: nat, c: nat)
    requires IsSize(size) && c < Pairs(size)
    ensures DirectionAgrees(RightOf(size, c), c)
  {
    hide IsSize, Pairs, DirectionAgrees;
    SizeParts(size, size / 4);
    Parity(size / 4, c, RightOf(size, c));
  }

  lemma Parity(q: nat, c: nat, right: int)
    requires c < 2 * q && (right == 4 * q - 2 * c || right == 4 * q - 2 * c - 1)
    ensures DirectionAgrees(right, c)
  {
    assert (right + 1) / 2 == 2 * q - c;
  }

  // ----- the length of the path

  lemma {:induction false} PairCellsAtMost(taken: (int, int) -> bool, size: nat, c: nat, v: nat)
    ensures |PairCells(taken, size, c, v)| <= 2 * v
  {
    if v > 0 {
      PairCellsAtMost(taken, size, c, v - 1);
    }
  }

  lemma {:induction false} CellsAtMost(taken: (int, int) -> bool, size: nat, c: nat)
    ensures |Cells(taken, size, c)| <= 2 * size * c
  {
    if c > 0 {
      CellsAtMost(taken, size, c - 1);
      PairCellsAtMost(taken, size, c - 1, size);
      OneMore(2 * size, c);
    }
  }

  lemma OneMore(a: nat, c: nat)
    requires c > 0
    ensures a * c == a * (c - 1) + a
  {}

  lemma AllCellsAtMost(taken: (int, int) -> bool, size: nat)
    ensures |AllCells(taken, size)| <= size * size
  {
    hide Cells, Pairs;
    CellsAtMost(taken, size, Pairs(size));
    assert 2 * Pairs(size) <= size by { HalfTwice(size); }
    Doubled(size, Pairs(size));
  }

  lemma HalfTwice(size: nat)
    ensures 2 * Pairs(size) <= size
  {}

  lemma Doubled(a: nat, b: nat)
    requires 2 * b <= a
    ensures 2 * a * b <= a * a
  {
    assert 2 * a * b == a * (2 * b);
  }
}
