/** What single features of a grid cost. */
module PenaltyWeights {
  import opened Grids
  import opened Penalty

  lemma {:induction false} TotalOfSame(f: int -> int, n: nat, c: int)
    requires forall i | 0 <= i < n :: f(i) == c
    ensures Total(f, n) == n * c
  {
    if n > 0 {
      TotalOfSame(f, n - 1, c);
    }
  }

  // ----- runs

  /** A run of n modules costs n - 2 if it has at least five. */
  lemma RunCost(line: seq<bool>, c: bool)
    requires forall i | 0 <= i < |line| :: line[i] == c
    ensures RunPenalty(line, |line|) == if |line| < 5 then 0 else |line| - 2
  {
    if line != [] {
      OneRun(line, 0, |line|);
      RunLengthIs(line, 0, |line|);
    }
  }

  lemma LightLine(line: seq<bool>)
    requires forall i | 0 <= i < |line| :: !line[i]
    ensures LinePenalty(line) == if |line| < 5 then 0 else |line| - 2
  {
    hide FindersAt;
    RunCost(line, false);
    forall p | 0 <= p < 3 * |line| ensures FindersAt(Padded(line), p) == 0 {
      NoPatternAt(Padded(line), p);
    }
    NoneThere(Padded(line), 0, 3 * |line|);
  }

  // ----- patterns

  const FINDER_LINE: seq<bool> := [true, false, true, true, true, false, true]

  /** A finder pattern between light modules counts twice and costs 40 each time. */
  lemma FinderCost()
    ensures LinePenalty(FINDER_LINE) == 80
  {
    var l := Padded(FINDER_LINE);
    NoRuns(FINDER_LINE);
    BothFinders(l, 1);
    forall p | 0 <= p < 7 ensures FindersAt(l, p) == 0 {
      NoPatternAt(l, p);
    }
    forall p | 8 <= p < 21 ensures FindersAt(l, p) == 0 {
      if p < 13 {
        PatternsApart(l, 7, p);
      } else if p > 13 {
        NoPatternAt(l, p);
      } else {
        LastDark(l);
      }
    }
    NoneThere(l, 0, 7);
    NoneThere(l, 8, 21);
  }

  lemma BothFinders(l: seq<bool>, n: int)
    requires l == Padded(FINDER_LINE) && n == 1
    ensures FindersAt(l, 7) == 2
  {
    assert FinderAt(l, 7, n, 4 * n, n);
    assert FinderAt(l, 7, n, n, 4 * n);
  }

  lemma NoRuns(line: seq<bool>)
    requires line == FINDER_LINE
    ensures RunPenalty(line, 7) == 0
  {
    assert RunLength(line, 6) == 1 && RunLength(line, 5) == 1 && RunLength(line, 4) == 1;
    assert RunLength(line, 3) == 2 && RunLength(line, 2) == 3 && RunLength(line, 1) == 1 && RunLength(line, 0) == 1;
    assert RunPenalty(line, 3) == 0;
    assert RunPenalty(line, 5) == 0;
  }

  lemma LastDark(l: seq<bool>)
    requires l == Padded(FINDER_LINE)
    ensures FindersAt(l, 13) == 0
  {
    forall n: int ensures !FinderAt(l, 13, n, 4 * n, n) && !FinderAt(l, 13, n, n, 4 * n) {
      if n >= 1 && Uniform(l, 13 + 2 * n, 13 + 5 * n, true) {
        UniformAt(l, 13 + 2 * n, 13 + 5 * n, true, 13 + 2 * n);
      }
    }
  }

  /** A dark module ends the light margins of a pattern. */
  ghost predicate HasMargins(l: seq<bool>, p: int, n: int, before: int, after: int) {
    && FinderAt(l, p, n, before, after) && before >= 1 && after >= 1
    && Uniform(l, p - before - 1, p - before, true) && Uniform(l, p + 7 * n + after, p + 7 * n + after + 1, true)
  }

  /** A pattern of unit n counts if one margin has at least four units and the other at least one, and twice if
      both have four. */
  lemma MarginsNeeded(l: seq<bool>, p: int, n: int, before: int, after: int)
    requires HasMargins(l, p, n, before, after)
    ensures FindersAt(l, p) == if before < n || after < n || (before < 4 * n && after < 4 * n) then 0
                               else if before >= 4 * n && after >= 4 * n then 2 else 1
  {
    hide FinderAt, Uniform;
    PatternUnit(l, p, n, before, after);
    forall k: int | FinderAt(l, p, k, 4 * k, k) ensures k == n && before >= 4 * n && after >= n {
      PatternUnit(l, p, k, 4 * k, k);
      WithinMargins(l, p, n, before, after, k, 4 * k, k);
    }
    forall k: int | FinderAt(l, p, k, k, 4 * k) ensures k == n && before >= n && after >= 4 * n {
      PatternUnit(l, p, k, k, 4 * k);
      WithinMargins(l, p, n, before, after, k, k, 4 * k);
    }
    if before >= 4 * n && after >= n { Narrower(l, p, n, before, after, 4 * n, n); }
    if before >= n && after >= 4 * n { Narrower(l, p, n, before, after, n, 4 * n); }
  }

  lemma WithinMargins(l: seq<bool>, p: int, n: int, before: int, after: int, k: int, b: int, a: int)
    requires HasMargins(l, p, n, before, after) && FinderAt(l, p, k, b, a) && a >= k && b >= k
    ensures k == n && b <= before && a <= after
  {
    assert k >= 1 && n >= 1;
    PatternParts(l, p, n, before, after);
    PatternParts(l, p, k, b, a);
    hide FinderAt;
    if k < n { UniformAt(l, p, p + n, true, p + k); }
    if n < k { UniformAt(l, p, p + k, true, p + n); }
    if b > before { UniformAt(l, p - b, p, false, p - before - 1); }
    if a > after { UniformAt(l, p + 7 * n, p + 7 * n + a, false, p + 7 * n + after); }
  }

  lemma Narrower(l: seq<bool>, p: int, n: int, before: int, after: int, b: int, a: int)
    requires FinderAt(l, p, n, before, after) && b <= before && a <= after && 1 <= b && 1 <= a
    ensures FinderAt(l, p, n, b, a)
  {}

  // ----- grids

  /** A grid without dark modules: every row and column is one run, every 2 by 2 square is a block, and the share
      of dark modules is at the lowest level. */
  lemma LightGrid(m: Grid, size: nat)
    requires size >= 5 && forall x, y | 0 <= x < size && 0 <= y < size :: !At(m, x, y)
    ensures Penalty.Penalty(m, size) == 2 * size * (size - 2) + 3 * (size - 1) * (size - 1) + 90
  {
    hide Penalty.Penalty, LinePenalty, Imbalance;
    LightLines(m, size);
    LightBlocks(m, size);
    NothingDark(m, size);
    PenaltyParts(m, size);
    NoneDark(size * size, 0);
    Product(size);
  }

  lemma LightLines(m: Grid, size: nat)
    requires size >= 5 && forall x, y | 0 <= x < size && 0 <= y < size :: !At(m, x, y)
    ensures Total(RowPenalty(m, size), size) == Total(ColumnPenalty(m, size), size) == size * (size - 2)
  {
    hide LinePenalty;
    forall k | 0 <= k < size
      ensures RowPenalty(m, size)(k) == size - 2 && ColumnPenalty(m, size)(k) == size - 2
    {
      LightLine(Row(m, size, k));
      LightLine(Column(m, size, k));
    }
    TotalOfSame(RowPenalty(m, size), size, size - 2);
    TotalOfSame(ColumnPenalty(m, size), size, size - 2);
  }

  lemma LightBlocks(m: Grid, size: nat)
    requires size >= 5 && forall x, y | 0 <= x < size && 0 <= y < size :: !At(m, x, y)
    ensures Total(BlocksInRow(m, size), size - 1) == (size - 1) * (size - 1)
  {
    forall y | 0 <= y < size - 1 ensures BlocksInRow(m, size)(y) == size - 1 {
      TotalOfSame(BlockAt(m, y), size - 1, 1);
    }
    TotalOfSame(BlocksInRow(m, size), size - 1, size - 1);
  }

  lemma NothingDark(m: Grid, size: nat)
    requires forall x, y | 0 <= x < size && 0 <= y < size :: !At(m, x, y)
    ensures Total(DarkInRow(m, size), size) == 0
  {
    forall y | 0 <= y < size ensures DarkInRow(m, size)(y) == 0 {
      TotalOfSame(DarkAt(m, y), size, 0);
    }
    TotalOfSame(DarkInRow(m, size), size, 0);
  }

  lemma Product(size: nat)
    requires size > 0
    ensures size * (size - 2) + size * (size - 2) == 2 * size * (size - 2) && size * size > 0
    ensures 3 * ((size - 1) * (size - 1)) == 3 * (size - 1) * (size - 1) && size * 0 == 0
  {}

  lemma {:induction false} NoneDark(total: int, k: nat)
    requires total > 0 && k <= 9
    ensures Imbalance(0, total, k) == 9
    decreases 9 - k
  {
    hide IsBalanced;
    if k < 9 {
      NotBalanced(total, k);
      NoneDark(total, k + 1);
    }
  }

  lemma NotBalanced(total: int, k: nat)
    requires total > 0 && k < 9
    ensures !IsBalanced(0, total, k)
  {
    assert (45 - 5 * k) * total >= total;
  }

  // ----- chequered grids

  ghost predicate IsChequered(m: Grid, size: nat) {
    forall x, y | 0 <= x < size && 0 <= y < size :: At(m, x, y) == ((x + y) % 2 == 0)
  }

  /** A chequered grid of odd size costs nothing. */
  lemma Chequered(m: Grid, size: nat)
    requires size >= 5 && size % 2 == 1 && IsChequered(m, size)
    ensures Penalty.Penalty(m, size) == 0
  {
    hide Penalty.Penalty, IsChequered, TwiceDark, Imbalance;
    ChequeredLines(m, size);
    ChequeredBlocks(m, size);
    DarkHalf(m, size, size);
    PenaltyParts(m, size);
    SizeSquared(size);
    Balanced(size * size, Total(DarkInRow(m, size), size));
  }

  lemma ChequeredLines(m: Grid, size: nat)
    requires IsChequered(m, size)
    ensures Total(RowPenalty(m, size), size) == Total(ColumnPenalty(m, size), size) == 0
  {
    hide LinePenalty, IsChequered;
    forall k | 0 <= k < size ensures RowPenalty(m, size)(k) == 0 && ColumnPenalty(m, size)(k) == 0 {
      forall i | 0 < i < size
        ensures Row(m, size, k)[i] != Row(m, size, k)[i - 1] && Column(m, size, k)[i] != Column(m, size, k)[i - 1]
      {
        NeighboursDiffer(m, size, i, k);
        NeighboursDiffer(m, size, k, i);
      }
      AlternatingLine(Row(m, size, k));
      AlternatingLine(Column(m, size, k));
    }
    TotalOfSame(RowPenalty(m, size), size, 0);
    TotalOfSame(ColumnPenalty(m, size), size, 0);
  }

  lemma NeighboursDiffer(m: Grid, size: nat, x: int, y: int)
    requires IsChequered(m, size) && 0 <= x < size && 0 <= y < size
    ensures x > 0 ==> At(m, x, y) != At(m, x - 1, y)
    ensures y > 0 ==> At(m, x, y) != At(m, x, y - 1)
  {
    hide At;
    assert At(m, x, y) == ((x + y) % 2 == 0);
    if x > 0 { assert At(m, x - 1, y) == ((x - 1 + y) % 2 == 0); }
    if y > 0 { assert At(m, x, y - 1) == ((x + (y - 1)) % 2 == 0); }
  }

  lemma ChequeredBlocks(m: Grid, size: nat)
    requires size > 0 && IsChequered(m, size)
    ensures Total(BlocksInRow(m, size), size - 1) == 0
  {
    hide IsChequered, At;
    forall y | 0 <= y < size - 1 ensures BlocksInRow(m, size)(y) == 0 {
      forall x | 0 <= x < size - 1 ensures BlockAt(m, y)(x) == 0 {
        NeighboursDiffer(m, size, x + 1, y);
      }
      TotalOfSame(BlockAt(m, y), size - 1, 0);
    }
    TotalOfSame(BlocksInRow(m, size), size - 1, 0);
  }

  /** No two neighbours are equal. */
  lemma AlternatingLine(line: seq<bool>)
    requires forall i | 0 < i < |line| :: line[i] != line[i - 1]
    ensures LinePenalty(line) == 0
  {
    hide FindersAt;
    var l := Padded(line);
    ShortRuns(line, |line|);
    forall p | 0 <= p < 3 * |line| ensures FindersAt(l, p) == 0 {
      NoWideDark(line, l, p);
    }
    NoneThere(l, 0, 3 * |line|);
  }

  lemma {:induction false} ShortRuns(line: seq<bool>, n: nat)
    requires n <= |line| && forall i | 0 < i < |line| :: line[i] != line[i - 1]
    ensures RunPenalty(line, n) == 0
  {
    if n > 0 {
      ShortRuns(line, n - 1);
      assert n < |line| ==> line[n] != line[n - 1];
    }
  }

  lemma NoWideDark(line: seq<bool>, l: seq<bool>, p: int)
    requires l == Padded(line) && forall i | 0 < i < |line| :: line[i] != line[i - 1]
    ensures FindersAt(l, p) == 0
  {
    forall n: int ensures !FinderAt(l, p, n, 4 * n, n) && !FinderAt(l, p, n, n, 4 * n) {
      if n >= 1 && Uniform(l, p + 2 * n, p + 5 * n, true) {
        NotBothDark(line, l, p + 2 * n);
        UniformAt(l, p + 2 * n, p + 5 * n, true, p + 2 * n);
        UniformAt(l, p + 2 * n, p + 5 * n, true, p + 2 * n + 1);
      }
    }
  }

  lemma NotBothDark(line: seq<bool>, l: seq<bool>, q: int)
    requires l == Padded(line) && forall i | 0 < i < |line| :: line[i] != line[i - 1]
    requires 0 <= q && q + 1 < |l|
    ensures !l[q] || !l[q + 1]
  {
    var k := q + 1 - |line|;
    if 0 < k < |line| {
      assert line[k] != line[k - 1];
    }
  }

  lemma {:induction false} DarkInLine(m: Grid, y: int, n: nat, size: nat)
    requires n <= size && 0 <= y < size && IsChequered(m, size)
    ensures 2 * Total(DarkAt(m, y), n) == if n % 2 == 0 then n else if y % 2 == 0 then n + 1 else n - 1
  {
    hide IsChequered, At;
    if n > 0 {
      DarkInLine(m, y, n - 1, size);
      ChequeredAt(m, size, n - 1, y);
    }
  }

  lemma ChequeredAt(m: Grid, size: nat, x: int, y: int)
    requires IsChequered(m, size) && 0 <= x < size && 0 <= y < size
    ensures At(m, x, y) == (x % 2 == y % 2)
  {
    hide At;
    assert At(m, x, y) == ((x + y) % 2 == 0);
  }

  /** Twice the dark modules in the first n rows. */
  function TwiceDark(size: nat, n: nat): int {
    n * size + n % 2
  }

  lemma {:induction false} DarkHalf(m: Grid, size: nat, n: nat)
    requires n <= size && size % 2 == 1 && IsChequered(m, size)
    ensures 2 * Total(DarkInRow(m, size), n) == TwiceDark(size, n)
  {
    hide IsChequered, DarkAt, TwiceDark;
    OneMoreRow(size, n);
    if n > 0 {
      DarkHalf(m, size, n - 1);
      DarkInLine(m, n - 1, size, size);
      assert DarkInRow(m, size)(n - 1) == Total(DarkAt(m, n - 1), size);
    }
  }

  lemma OneMoreRow(size: nat, n: nat)
    ensures TwiceDark(size, 0) == 0
    ensures n > 0 ==> TwiceDark(size, n) == TwiceDark(size, n - 1) + if (n - 1) % 2 == 0 then size + 1 else size - 1
  {
    if n > 0 {
      assert n * size == (n - 1) * size + size;
    }
  }

  lemma Balanced(total: int, dark: int)
    requires total >= 25 && 2 * dark == total + 1
    ensures 0 <= dark <= total && Imbalance(dark, total, 0) == 0
  {}

  lemma SizeSquared(size: nat)
    requires size >= 5 && size % 2 == 1
    ensures size * size >= 25 && TwiceDark(size, size) == size * size + 1
  {
    assert size * size >= 5 * size;
  }
}
