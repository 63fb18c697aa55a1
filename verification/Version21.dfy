/** Version 21, where the decoder has a wrong alignment position: which codewords it misreads. */
module Version21 {
  import opened Versions
  import opened FunctionCells
  import opened CellCount
  import opened Zigzag
  import opened PathShift

  // ----- the two maps of function modules

  /** The index of the alignment position near x, or -1, if the positions are 6, 28, 50, 72 and last. */
  function IndexNear(last: int, x: int): int {
    if Near(6, x) then 0 else if Near(28, x) then 1 else if Near(50, x) then 2 else if Near(72, x) then 3
    else if Near(last, x) then 4 else -1
  }

  predicate Reserved(last: int, x: int, y: int) {
    var a, b := IndexNear(last, x), IndexNear(last, y);
    || InFinderOrFormat(101, x, y) || InTiming(x, y) || InVersionInfo(21, x, y)
    || (a >= 0 && b >= 0 && (0 < b < 4 || 0 < a < 4 || (a == 4 && b == 4)))
  }

  ghost function Map(last: int): (int, int) -> bool {
    (x, y) => Reserved(last, x, y)
  }

  lemma ReservedIs(p: seq<int>, last: int, x: int, y: int)
    requires p == [6, 28, 50, 72, last] && (last == 92 || last == 94)
    ensures Taken(21, p)(x, y) == Map(last)(x, y)
  {
    hide InAlignment;
    Decided(p, x, y, IndexNear(last, x), IndexNear(last, y));
  }

  lemma Steps()
    ensures PositionsUpTo(4, 94, 22) == [28, 50, 72, 94]
  {
    hide PositionsUpTo;
    PositionAt(4, 94, 22, 0);
    PositionAt(4, 94, 22, 1);
    PositionAt(4, 94, 22, 2);
    PositionAt(4, 94, 22, 3);
  }

  lemma Positions21()
    ensures AlignmentPositions(21) == [6, 28, 50, 72, 94]
  {
    hide PositionsUpTo;
    Steps();
  }

  lemma Size21()
    ensures Size(21) == 101 && IsSize(101) && Pairs(101) == 50
  {}

  /** The paths of encoder and decoder. */
  lemma Paths()
    ensures Cells(Taken(21, AlignmentPositions(21)), 101, 50) == Cells(Map(94), 101, 50)
    ensures Cells(Taken(21, Apat(21)), 101, 50) == Cells(Map(92), 101, 50)
  {
    hide Taken, Map, AlignmentPositions, Apat, Cells;
    Positions21();
    Last21();
    Size21();
    forall x, y | 0 <= x < 101 && 0 <= y < 101
      ensures Taken(21, AlignmentPositions(21))(x, y) == Map(94)(x, y) && Taken(21, Apat(21))(x, y) == Map(92)(x, y)
    {
      ReservedIs(AlignmentPositions(21), 94, x, y);
      ReservedIs(Apat(21), 92, x, y);
    }
    CellsSame(Taken(21, AlignmentPositions(21)), Map(94), 101, 50);
    CellsSame(Taken(21, Apat(21)), Map(92), 101, 50);
  }

  /** The columns through the middle alignment patterns. */
  predicate IsMiddle(x: int) {
    Near(28, x) || Near(50, x) || Near(72, x)
  }

  lemma SameReserved(x: int, y: int)
    requires x < 90 || x > 96
    requires !IsMiddle(x) || y < 90 || y > 96
    ensures Map(94)(x, y) == Map(92)(x, y)
  {}

  // ----- counting the free cells of a column

  ghost function ColumnCount(last: int, x: int, n: nat): nat {
    Num(FreeInColumn(Map(last), x), n)
  }

  lemma ColumnStep(last: int, x: int, n: nat)
    ensures ColumnCount(last, x, n + 1) == ColumnCount(last, x, n) + if Reserved(last, x, n) then 0 else 1
    ensures ColumnCount(last, x, 0) == 0
  {}

  /** The cells of rows a to b are all free or all taken. */
  lemma {:induction false} Stretch(last: int, x: int, a: nat, b: nat, free: bool)
    requires a <= b && forall y | a <= y < b :: Reserved(last, x, y) == !free
    ensures ColumnCount(last, x, b) == ColumnCount(last, x, a) + if free then b - a else 0
    decreases b
  {
    hide Reserved, ColumnCount;
    if a < b {
      Stretch(last, x, a, b - 1, free);
      ColumnStep(last, x, b - 1);
    }
  }

  lemma MiddleColumn(last: int, x: int)
    requires IsMiddle(x) && (last == 92 || last == 94)
    ensures ColumnCount(last, x, 90) == 70 && ColumnCount(last, x, 97) == 72 && ColumnCount(last, x, 101) == 76
  {
    hide ColumnCount;
    ColumnStep(last, x, 0);
    Stretch(last, x, 0, 4, true); Stretch(last, x, 4, 9, false);
    Stretch(last, x, 9, 26, true); Stretch(last, x, 26, 31, false);
    Stretch(last, x, 31, 48, true); Stretch(last, x, 48, 53, false);
    Stretch(last, x, 53, 70, true); Stretch(last, x, 70, 75, false);
    Stretch(last, x, 75, 90, true);
    Stretch(last, x, 90, last - 2, true); Stretch(last, x, last - 2, last + 3, false);
    Stretch(last, x, last + 3, 97, true); Stretch(last, x, 97, 101, true);
  }

  lemma PlainColumn(last: int, x: int, n: nat)
    requires 9 <= x <= 89 && !IsMiddle(x) && (last == 92 || last == 94) && 7 <= n <= 101
    ensures ColumnCount(last, x, n) == n - 1
  {
    hide ColumnCount;
    ColumnStep(last, x, 0);
    Stretch(last, x, 0, 6, true); Stretch(last, x, 6, 7, false); Stretch(last, x, 7, n, true);
  }

  /** The columns at the right edge: fewer cells under the finder than under the version information, and
      fewer through alignment patterns. */
  lemma RightColumn(last: int, x: int)
    requires 90 <= x <= 100 && (last == 92 || last == 94)
    ensures ColumnCount(last, x, 101) == (if x >= 93 then 92 else 94) - (if Near(last, x) then 20 else 0)
  {
    hide ColumnCount;
    var top := if x >= 93 then 9 else 7;
    ColumnStep(last, x, 0);
    if x >= 93 {
      Stretch(last, x, 0, 9, false);
    } else {
      Stretch(last, x, 0, 7, false);
    }
    var near := Near(last, x);
    Stretch(last, x, top, 26, true); Stretch(last, x, 26, 31, !near);
    Stretch(last, x, 31, 48, true); Stretch(last, x, 48, 53, !near);
    Stretch(last, x, 53, 70, true); Stretch(last, x, 70, 75, !near);
    Stretch(last, x, 75, last - 2, true); Stretch(last, x, last - 2, last + 3, !near);
    Stretch(last, x, last + 3, 101, true);
  }

  // ----- where the pairs of columns start

  ghost function CountFrom(last: int, x: int): nat {
    FreeFrom(Map(last), 101, x)
  }

  lemma CountFromStep(last: int, x: int)
    ensures x < 101 ==> CountFrom(last, x) == ColumnCount(last, x, 101) + CountFrom(last, x + 1)
    ensures CountFrom(last, 101) == 0
  {}

  /** Both programs count the same number of cells in the columns from 89 up. */
  lemma RightEdge(last: int)
    requires last == 92 || last == 94
    ensures CountFrom(last, 97) == 368 && CountFrom(last, 89) == 1018
  {
    hide CountFrom, ColumnCount;
    CountFromStep(last, 100); CountFromStep(last, 99); CountFromStep(last, 98); CountFromStep(last, 97);
    CountFromStep(last, 96); CountFromStep(last, 95); CountFromStep(last, 94); CountFromStep(last, 93);
    CountFromStep(last, 92); CountFromStep(last, 91); CountFromStep(last, 90); CountFromStep(last, 89);
    RightColumn(last, 100); RightColumn(last, 99); RightColumn(last, 98); RightColumn(last, 97);
    RightColumn(last, 96); RightColumn(last, 95); RightColumn(last, 94); RightColumn(last, 93);
    RightColumn(last, 92); RightColumn(last, 91); RightColumn(last, 90); PlainColumn(last, 89, 101);
  }

  /** The columns from x up of the five that end at top. */
  function Among(top: int, x: int): nat {
    if x > top then 0 else if x > top - 5 then top - x + 1 else 5
  }

  lemma {:induction false} MiddleEdge(last: int, x: int)
    requires (last == 92 || last == 94) && 24 <= x <= 89
    ensures CountFrom(last, x) == 1018 + 100 * (89 - x) - 24 * (Among(74, x) + Among(52, x) + Among(30, x))
    decreases 89 - x
  {
    hide CountFrom, ColumnCount;
    RightEdge(last);
    if x < 89 {
      MiddleEdge(last, x + 1);
      CountFromStep(last, x);
      if IsMiddle(x) {
        MiddleColumn(last, x);
      } else {
        PlainColumn(last, x, 101);
      }
    }
  }

  lemma ColumnSix(last: int)
    ensures forall y | 0 <= y < 101 :: Map(last)(6, y)
  {}

  lemma RightIs(c: nat)
    requires 1 <= c <= 38
    ensures RightOf(101, c - 1) == 102 - 2 * c
  {}

  /** How many cells come before pair c. */
  lemma PairStart(last: int, c: nat)
    requires (last == 92 || last == 94) && 1 <= c <= 38
    ensures |Cells(Map(last), 101, c)| == CountFrom(last, 101 - 2 * c)
  {
    hide Cells, Map;
    Size21();
    ColumnSix(last);
    CellsCount(Map(last), 101, c);
    RightIs(c);
  }

  // ----- where the paths agree

  /** The bits that the decoder does not find where the encoder put them. */
  predicate IsMisplaced(k: int) {
    || 376 <= k < 1006
    || 2558 <= k < 2562 || 2578 <= k < 2582 || 2881 <= k < 2890
    || 4506 <= k < 4510 || 4790 <= k < 4794 || 4810 <= k < 4819
    || 6718 <= k < 6722 || 6738 <= k < 6742 || 7041 <= k < 7050
  }

  ghost function Misplaced(): int -> bool {
    k => IsMisplaced(k)
  }

  ghost predicate AgreeTo(c: nat) {
    AgreeBut(Cells(Map(94), 101, c), Cells(Map(92), 101, c), Misplaced())
  }

  /** A pair of columns that no alignment pattern but the first and last can touch. */
  lemma PlainPair(c: nat)
    requires c < 50 && (c < 2 || c > 5) && !IsMiddle(RightOf(101, c)) && !IsMiddle(RightOf(101, c) - 1)
    requires AgreeTo(c)
    ensures AgreeTo(c + 1)
  {
    hide Cells, IsMiddle, Map;
    PairPlace(c);
    forall u | 0 <= u < 101 ensures SameRow(Map(94), Map(92), 101, c, u) {
      SameReserved(RightOf(101, c), RowOf(101, c, u));
      SameReserved(RightOf(101, c) - 1, RowOf(101, c, u));
    }
    Resync(Map(94), Map(92), 101, c, 0, 0, Misplaced());
  }

  lemma PairPlace(c: nat)
    requires c < 50
    ensures c < 2 ==> RightOf(101, c) - 1 > 96
    ensures c > 5 ==> RightOf(101, c) < 90
    ensures 6 <= c <= 46 ==> RightOf(101, c) == 100 - 2 * c
    ensures c > 46 ==> RightOf(101, c) < 7
  {}

  /** The row steps of pair c before rows 90 to 96, and after them. */
  function StepsBefore(c: nat): nat { if c % 2 == 0 then 4 else 90 }

  function StepsAfter(c: nat): nat { if c % 2 == 0 then 11 else 97 }

  lemma BandRows(c: nat, u: nat)
    requires u < 101 && (u < StepsBefore(c) || StepsAfter(c) <= u)
    ensures 0 <= RowOf(101, c, u) < 101 && (RowOf(101, c, u) < 90 || RowOf(101, c, u) > 96)
  {}

  /** The free cells of column x in the row steps of a pair before and through the band. */
  function BandStart(c: nat, x: int): nat {
    if c % 2 == 0 then 4 else if IsMiddle(x) then 70 else 89
  }

  function BandEnd(c: nat, x: int): nat {
    if c % 2 == 0 then (if IsMiddle(x) then 6 else 11) else if IsMiddle(x) then 72 else 96
  }

  lemma BandCounts(last: int, c: nat)
    requires (last == 92 || last == 94) && 6 <= c <= 44
    ensures var x := 100 - 2 * c;
            && |PairCells(Map(last), 101, c, StepsBefore(c))| == BandStart(c, x) + BandStart(c, x - 1)
            && |PairCells(Map(last), 101, c, StepsAfter(c))| == BandEnd(c, x) + BandEnd(c, x - 1)
  {
    hide PairCells, Num, Map;
    PairPlace(c);
    var x := 100 - 2 * c;
    ColumnBand(last, x);
    ColumnBand(last, x - 1);
    if c % 2 == 0 {
      PairCellsCountUp(Map(last), 101, c, 4);
      PairCellsCountUp(Map(last), 101, c, 11);
    } else {
      PairCellsCountDown(Map(last), 101, c, 90);
      PairCellsCountDown(Map(last), 101, c, 97);
    }
  }

  lemma ColumnBand(last: int, x: int)
    requires (last == 92 || last == 94) && 9 <= x <= 89
    ensures ColumnCount(last, x, 90) == if IsMiddle(x) then 70 else 89
    ensures ColumnCount(last, x, 97) == if IsMiddle(x) then 72 else 96
    ensures ColumnCount(last, x, 101) == if IsMiddle(x) then 76 else 100
  {
    hide ColumnCount, IsMiddle;
    if IsMiddle(x) {
      MiddleColumn(last, x);
    } else {
      PlainColumn(last, x, 90); PlainColumn(last, x, 97); PlainColumn(last, x, 101);
    }
  }

  /** A pair of columns through middle patterns: the paths part in rows 90 to 96 only. */
  lemma MiddlePair(c: nat)
    requires 6 <= c <= 37 && AgreeTo(c)
    requires IsMiddle(100 - 2 * c) || IsMiddle(99 - 2 * c)
    ensures AgreeTo(c + 1)
  {
    hide Cells, PairCells, IsMiddle, Map, CountFrom, IsMisplaced;
    PairPlace(c);
    forall u | 0 <= u < 101 && (u < StepsBefore(c) || StepsAfter(c) <= u) ensures SameRow(Map(94), Map(92), 101, c, u) {
      BandRows(c, u);
      SameReserved(RightOf(101, c), RowOf(101, c, u));
      SameReserved(RightOf(101, c) - 1, RowOf(101, c, u));
    }
    BandCounts(92, c);
    BandCounts(94, c);
    PairStart(94, c);
    MiddleEdge(94, 101 - 2 * c);
    MisplacedBand(c);
    Resync(Map(94), Map(92), 101, c, StepsBefore(c), StepsAfter(c), Misplaced());
  }

  lemma MisplacedBand(c: nat)
    requires 6 <= c <= 37 && (IsMiddle(100 - 2 * c) || IsMiddle(99 - 2 * c))
    ensures var x := 100 - 2 * c;
            var start := 1018 + 100 * (89 - (x + 1)) - 24 * (Among(74, x + 1) + Among(52, x + 1) + Among(30, x + 1));
            forall k | start + BandStart(c, x) + BandStart(c, x - 1) <= k < start + BandEnd(c, x)
                + BandEnd(c, x - 1) :: IsMisplaced(k)
  {}

  lemma SameBelow(x: int, y: int)
    requires y > 96 || (y > 94 && 89 <= x <= 91)
    ensures Map(94)(x, y) == Map(92)(x, y)
  {}

  /** The four pairs of columns around the last alignment positions. */
  lemma EdgePairs()
    requires AgreeTo(2)
    ensures AgreeTo(6)
  {
    hide Cells, PairCells, Map, RowsFrom, IsMisplaced, CountFrom;
    EdgeParts(92);
    EdgeParts(94);
    forall u | 0 <= u < 4 ensures SameRow(Map(94), Map(92), 101, 2, u) {
      SameBelow(96, 100 - u); SameBelow(95, 100 - u);
    }
    SameRows(Map(94), Map(92), 101, 2, 0, 4);
    AllRows(Map(94), 101, 2, 4); AllRows(Map(92), 101, 2, 4);
    forall u | 95 <= u < 101 ensures SameRow(Map(94), Map(92), 101, 5, u) {
      SameBelow(90, u); SameBelow(89, u);
    }
    SameRows(Map(94), Map(92), 101, 5, 95, 101);
    EdgeIsMisplaced();
  }

  lemma EdgeIsMisplaced()
    ensures forall k | 376 <= k < 1006 :: Misplaced()(k)
  {}

  /** The first 376 and the last 12 of the first 1018 cells. */
  lemma EdgeParts(last: int)
    requires last == 92 || last == 94
    ensures |Cells(Map(last), 101, 2)| == 368 && |PairCells(Map(last), 101, 2, 4)| == 8
    ensures |Cells(Map(last), 101, 6)| == 1018 && |RowsFrom(Map(last), 101, 5, 95, 101)| == 12
    ensures Cells(Map(last), 101, 2) + PairCells(Map(last), 101, 2, 4) <= Cells(Map(last), 101, 6)
    ensures Cells(Map(last), 101, 6)[1006..] == RowsFrom(Map(last), 101, 5, 95, 101)
  {
    hide Cells, PairCells, Map, RowsFrom, CountFrom, Num;
    var m := Map(last);
    PairStart(last, 2);
    PairStart(last, 6);
    RightEdge(last);
    EdgeColumns(last);
    PairCellsCountUp(m, 101, 2, 4);
    PairCellsCountDown(m, 101, 5, 95);
    PairCellsCountDown(m, 101, 5, 101);
    SplitPair(m, 101, 5, 95, 101);
    PairCellsGrow(m, 101, 2, 4, 101);
    Unfolded(m, 101, 2, 0);
    Unfolded(m, 101, 5, 0);
    CellsGrow(m, 101, 3, 6);
    Grown(Cells(m, 101, 2), PairCells(m, 101, 2, 4), PairCells(m, 101, 2, 101), Cells(m, 101, 6));
    assert Cells(m, 101, 6) == Cells(m, 101, 5) + PairCells(m, 101, 5, 95) + RowsFrom(m, 101, 5, 95, 101);
  }

  lemma Grown(a: seq<Cell>, b: seq<Cell>, more: seq<Cell>, all: seq<Cell>)
    requires b <= more && a + more <= all
    ensures a + b <= all
  {}

  lemma EdgeColumns(last: int)
    requires last == 92 || last == 94
    ensures ColumnCount(last, 95, 101) == ColumnCount(last, 95, 97) + 4
        && ColumnCount(last, 96, 101) == ColumnCount(last, 96, 97) + 4
    ensures ColumnCount(last, 89, 101) == ColumnCount(last, 89, 95) + 6
        && ColumnCount(last, 90, 101) == ColumnCount(last, 90, 95) + 6
  {
    hide ColumnCount;
    Stretch(last, 95, 97, 101, true); Stretch(last, 96, 97, 101, true);
    Stretch(last, 89, 95, 101, true); Stretch(last, 90, 95, 101, true);
  }

  /** The paths agree in all but the misplaced bits. */
  lemma {:induction false} PathsAgree(c: nat)
    requires c <= 2 || 6 <= c <= 50
    ensures AgreeTo(c)
    decreases c
  {
    hide AgreeTo;
    if c == 0 {
      NothingYet();
    } else if c == 6 {
      PathsAgree(2);
      EdgePairs();
    } else {
      PathsAgree(c - 1);
      PairPlace(c - 1);
      if IsMiddle(RightOf(101, c - 1)) || IsMiddle(RightOf(101, c - 1) - 1) {
        MiddlePair(c - 1);
      } else {
        PlainPair(c - 1);
      }
    }
  }

  lemma NothingYet()
    ensures AgreeTo(0)
  {}
}
