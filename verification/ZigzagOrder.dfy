/** The order of the zigzag in terms of columns and rows alone. */
module ZigzagOrder {
  import opened Versions
  import opened FunctionCells
  import opened CellCount
  import opened Zigzag
  import opened Matrix
  import opened DataReading

  /** The strip of two columns that x belongs to, counted from the right; the column of the vertical timing pattern
      belongs to none. */
  function Strip(size: nat, x: int): int {
    (size - (if x > 6 then 1 else 2) - x) / 2
  }

  /** Strips are taken from right to left, the first upwards, the next downwards and so on, and in each row the
      right module before the left one. */
  predicate Before(size: nat, a: Cell, b: Cell) {
    var s, t := Strip(size, a.x), Strip(size, b.x);
    || s < t
    || (s == t && (if s % 2 == 0 then a.y > b.y else a.y < b.y))
    || (s == t && a.y == b.y && a.x > b.x)
  }

  predicate AreOrdered(size: nat, cells: seq<Cell>) {
    forall i, j | 0 <= i < j < |cells| :: Before(size, cells[i], cells[j])
  }

  predicate InStrips(size: nat, cells: seq<Cell>, lo: int, hi: int) {
    forall i | 0 <= i < |cells| :: lo <= Strip(size, cells[i].x) < hi
  }

  lemma StripOfPair(size: nat, c: nat, d: nat)
    requires IsSize(size) && c < Pairs(size) && d < 2
    ensures Strip(size, RightOf(size, c) - d) == c
  {
    hide IsSize, Pairs;
    SizeParts(size, size / 4);
  }

  lemma Joined(size: nat, a: seq<Cell>, b: seq<Cell>)
    requires AreOrdered(size, a) && AreOrdered(size, b)
    requires forall i, j | 0 <= i < |a| && 0 <= j < |b| :: Before(size, a[i], b[j])
    ensures AreOrdered(size, a + b)
  {
    hide Before;
    forall i, j | 0 <= i < j < |a + b| ensures Before(size, (a + b)[i], (a + b)[j]) {
      if j < |a| {
        assert Before(size, a[i], a[j]);
      } else if i < |a| {
        assert Before(size, a[i], b[j - |a|]);
      } else {
        assert Before(size, b[i - |a|], b[j - |a|]);
      }
    }
  }

  /** The free modules of one row of a pair. */
  lemma RowOrdered(taken: (int, int) -> bool, size: nat, c: nat, y: int)
    requires IsSize(size) && c < Pairs(size)
    ensures var two := Two(taken, RightOf(size, c), y);
            AreOrdered(size, two) && InStrips(size, two, c, c + 1) && forall j | 0 <= j < |two| :: two[j].y == y
  {
    hide IsSize, Pairs, RightOf, Strip;
    StripOfPair(size, c, 0);
    StripOfPair(size, c, 1);
  }

  lemma {:induction false} PairOrdered(taken: (int, int) -> bool, size: nat, c: nat, v: nat)
    requires IsSize(size) && c < Pairs(size) && v <= size
    ensures AreOrdered(size, PairCells(taken, size, c, v)) && InStrips(size, PairCells(taken, size, c, v), c, c + 1)
  {
    hide IsSize, Pairs, RightOf, Strip, RowOf, Two, AreOrdered;
    if v > 0 {
      var before, two := PairCells(taken, size, c, v - 1), Two(taken, RightOf(size, c), RowOf(size, c, v - 1));
      PairOrdered(taken, size, c, v - 1);
      RowOrdered(taken, size, c, RowOf(size, c, v - 1));
      RowReached(size, c, v - 1);
      forall i, j | 0 <= i < |before| && 0 <= j < |two| ensures Before(size, before[i], two[j]) {
        PairCellsWhere(taken, size, c, v - 1, i);
      }
      Joined(size, before, two);
    } else {
      NoneOrdered(size);
    }
  }

  lemma NoneOrdered(size: nat)
    ensures AreOrdered(size, [])
  {}

  lemma RowReached(size: nat, c: nat, v: nat)
    ensures RowOf(size, c, v) == if c % 2 == 0 then size - 1 - v else v
  {}

  lemma {:induction false} CellsOrdered(taken: (int, int) -> bool, size: nat, c: nat)
    requires IsSize(size) && c <= Pairs(size)
    ensures AreOrdered(size, Cells(taken, size, c)) && InStrips(size, Cells(taken, size, c), 0, c)
  {
    hide IsSize, Pairs, Strip, PairCells, AreOrdered;
    if c > 0 {
      var before, pair := Cells(taken, size, c - 1), PairCells(taken, size, c - 1, size);
      CellsOrdered(taken, size, c - 1);
      PairOrdered(taken, size, c - 1, size);
      forall i, j | 0 <= i < |before| && 0 <= j < |pair| ensures Before(size, before[i], pair[j]) {
        assert Strip(size, before[i].x) < Strip(size, pair[j].x);
      }
      Joined(size, before, pair);
    } else {
      NoneOrdered(size);
    }
  }

  /** Both programs' paths go through the free modules in this order. */
  lemma PathsOrdered(version: nat)
    requires 1 <= version <= 40
    ensures AreOrdered(Size(version), Path(version)) && AreOrdered(Size(version), DecoderPath(version))
  {
    hide Cells, Size, IsSize, Pairs, AreOrdered, Taken;
    SizeIsSize(version);
    CellsOrdered(Taken(version, AlignmentPositions(version)), Size(version), Pairs(Size(version)));
    CellsOrdered(Taken(version, Apat(version)), Size(version), Pairs(Size(version)));
  }
}
