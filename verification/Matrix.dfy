/** What the finished grid of a symbol shows. */
module Matrix {
  import opened Versions
  import opened Grids
  import opened FunctionCells
  import opened CellCount
  import opened Zigzag
  import opened Bytes
  import opened Masks
  import opened Patterns
  import opened Layouts
  import opened Interleaver
  import Penalty

  /** Some of the first n cells of the path is (x, y). */
  ghost predicate OnPath(path: seq<Cell>, n: int, x: int, y: int) {
    exists k :: 0 <= k < n && k < |path| && path[k] == Cell(x, y)
  }

  /** The bit of the cell (x, y) is among the first n bits, and set. */
  ghost predicate BitOn(path: seq<Cell>, bits: seq<bool>, n: int, x: int, y: int) {
    exists k :: 0 <= k < n && k < |path| && k < |bits| && path[k] == Cell(x, y) && bits[k]
  }

  /** The path of the codewords through a symbol. */
  ghost function Path(version: nat): seq<Cell>
    requires 1 <= version <= 40
  {
    AllCells(Taken(version, AlignmentPositions(version)), Size(version))
  }

  lemma SizeIsSize(version: nat)
    requires 1 <= version <= 40
    ensures IsSize(Size(version)) && 21 <= Size(version) <= 177
  {}

  /** The path is as long as the formula says, has no cell twice, and avoids the function modules. */
  lemma PathFacts(version: nat)
    requires 1 <= version <= 40
    ensures |Path(version)| == RawDataModules(version) && NoDuplicates(Path(version))
    ensures forall k | 0 <= k < |Path(version)| ::
              var c := Path(version)[k];
              0 <= c.x < Size(version) && 0 <= c.y < Size(version)
                  && !Taken(version, AlignmentPositions(version))(c.x, c.y)
  {
    hide Cells, Taken, Size, RawDataModules, AlignmentPositions, Pairs, NoDuplicates, IsSize;
    var taken := Taken(version, AlignmentPositions(version));
    SizeIsSize(version);
    FreeCellCount(version);
    CellsOnce(taken, Size(version), Pairs(Size(version)));
    forall k | 0 <= k < |Path(version)|
      ensures var c := Path(version)[k]; 0 <= c.x < Size(version) && 0 <= c.y < Size(version) && !taken(c.x, c.y)
    {
      PathCell(version, k);
    }
  }

  lemma PathCell(version: nat, k: nat)
    requires 1 <= version <= 40 && k < |Path(version)|
    ensures var c := Path(version)[k];
            0 <= c.x < Size(version) && 0 <= c.y < Size(version)
                && !Taken(version, AlignmentPositions(version))(c.x, c.y)
  {
    hide Size, IsSize, Taken, Cells;
    SizeIsSize(version);
    CellsWhere(Taken(version, AlignmentPositions(version)), Size(version), Pairs(Size(version)), k);
  }

  // ----- masking

  ghost function NoMask(): (int, int) -> bool { (x, y) => false }

  ghost function MaskOf(msk: nat): (int, int) -> bool
    requires msk < 8
  {
    (x, y) => x >= 0 && y >= 0 && Inverts(msk, x, y)
  }

  /** m1 is m0 with its modules that are not function modules inverted by the mask. */
  ghost predicate IsMasked(f: Grid, m0: Grid, m1: Grid, size: nat, msk: nat)
    requires msk < 8
  {
    && IsSquare(m1, size)
    && forall x, y | 0 <= x < size && 0 <= y < size ::
         At(m1, x, y) == (At(m0, x, y) != (MaskOf(msk)(x, y) && !At(f, x, y)))
  }

  /** Masking twice is no change. */
  lemma MaskUndone(f: Grid, m0: Grid, m1: Grid, m2: Grid, size: nat, msk: nat)
    requires msk < 8 && IsSquare(m0, size) && IsMasked(f, m0, m1, size, msk) && IsMasked(f, m1, m2, size, msk)
    ensures m2 == m0
  {
    hide At, IsSquare, MaskOf;
    SameGrid(m2, m0, size);
  }

  // ----- whole grids

  /** A module of a symbol: part of the function patterns with the given format word, or a bit of the
      codewords s, inverted by the mask; past the end of s the bits are light. */
  ghost predicate SymbolModule(version: nat, format: bv16, inverted: (int, int) -> bool, s: seq<bv8>, x: int, y: int)
    requires 1 <= version <= 40
  {
    if Taken(version, AlignmentPositions(version))(x, y) then PatternColour(version, format)(x, y)
    else BitOn(Path(version), Bits(s), 8 * |s|, x, y) != inverted(x, y)
  }

  ghost predicate Shows(m: Grid, version: nat, format: bv16, inverted: (int, int) -> bool, s: seq<bv8>)
    requires 1 <= version <= 40
  {
    IsSquare(m, Size(version)) &&
    forall x, y | 0 <= x < Size(version) && 0 <= y < Size(version) ::
        At(m, x, y) == SymbolModule(version, format, inverted, s, x, y)
  }

  ghost function SymbolGrid(version: nat, format: bv16, inverted: (int, int) -> bool, s: seq<bv8>): Grid
    requires 1 <= version <= 40
  {
    seq(Size(version), y => seq(Size(version), x => SymbolModule(version, format, inverted, s, x, y)))
  }

  lemma ShowsIsGrid(m: Grid, version: nat, format: bv16, inverted: (int, int) -> bool, s: seq<bv8>)
    requires 1 <= version <= 40 && Shows(m, version, format, inverted, s)
    ensures m == SymbolGrid(version, format, inverted, s)
  {
    hide SymbolModule;
    SameGrid(m, SymbolGrid(version, format, inverted, s), Size(version));
  }

  /** The function modules are where they should be. */
  ghost predicate IsFunctionMap(f: Grid, version: nat)
    requires 1 <= version <= 40
  {
    IsSquare(f, Size(version)) &&
    forall x, y | 0 <= x < Size(version) && 0 <= y < Size(version) ::
      At(f, x, y) == Taken(version, AlignmentPositions(version))(x, y)
  }

  /** Masking an unmasked grid, and unmasking it. */
  lemma ShowsMasked(f: Grid, m0: Grid, m1: Grid, version: nat, format: bv16, msk: nat, s: seq<bv8>)
    requires 1 <= version <= 40 && msk < 8 && IsFunctionMap(f, version) && IsMasked(f, m0, m1, Size(version), msk)
    ensures Shows(m0, version, format, NoMask(), s) ==> Shows(m1, version, format, MaskOf(msk), s)
    ensures Shows(m0, version, format, MaskOf(msk), s) ==> Shows(m1, version, format, NoMask(), s)
  {
    hide At, IsSquare, Taken, PatternColour, BitOn, Path, AlignmentPositions, Size, MaskOf;
  }

  lemma ColourOfFormat(version: nat, a: bv16, b: bv16, x: int, y: int)
    requires 1 <= version <= 40 && 0 <= x < Size(version) && 0 <= y < Size(version)
    ensures PatternColour(version, b)(x, y) ==
            if FormatCells(Size(version))(x, y) then FormatColour(Size(version), b)(x, y)
            else PatternColour(version, a)(x, y)
    ensures FormatCells(Size(version))(x, y) ==> Taken(version, AlignmentPositions(version))(x, y)
  {
    FinderAndFormatCover(Size(version), x, y);
    assert FormatCells(Size(version))(x, y) ==> !VersionRegion(version)(x, y);
    hide AlignmentPositions, FormatColour, FormatCells, VersionRegion, VersionColour, FinderCells, FindersColour,
      AlignmentsUpTo, AlignmentsColour, TimingColour, VersionWord, InFinderOrFormat, InAlignment, InVersionInfo;
  }

  /** Redrawing the format bits. */
  lemma ShowsFormat(f0: Grid, m0: Grid, f1: Grid, m1: Grid, version: nat, a: bv16, b: bv16,
      inverted: (int, int) -> bool, s: seq<bv8>)
    requires 1 <= version <= 40 && IsFunctionMap(f0, version) && Shows(m0, version, a, inverted, s)
    requires Draws(f0, m0, f1, m1, Size(version), FormatCells(Size(version)), FormatColour(Size(version), b))
    ensures IsFunctionMap(f1, version) && Shows(m1, version, b, inverted, s)
  {
    hide At, IsSquare, Taken, PatternColour, BitOn, Path, AlignmentPositions, Size, FormatCells, FormatColour;
    forall x, y | 0 <= x < Size(version) && 0 <= y < Size(version)
      ensures At(m1, x, y) == SymbolModule(version, b, inverted, s, x, y)
      ensures At(f1, x, y) == Taken(version, AlignmentPositions(version))(x, y)
    {
      ColourOfFormat(version, a, b, x, y);
    }
  }

  /** Drawing codewords on a grid that is light but for its function patterns. */
  lemma ShowsCodewords(f: Grid, m0: Grid, m1: Grid, version: nat, format: bv16, s: seq<bv8>, none: Grid)
    requires 1 <= version <= 40 && 8 * |s| <= RawDataModules(version)
    requires none == Constant(Size(version), false)
    requires Draws(none, none, f, m0, Size(version), Taken(version, AlignmentPositions(version)),
        PatternColour(version, format))
    requires Written(m0, m1, version, s, 8 * |s|)
    ensures IsFunctionMap(f, version) && Shows(m1, version, format, NoMask(), s)
  {
    hide At, IsSquare, Taken, PatternColour, Path, AlignmentPositions, Size, RawDataModules, NoDuplicates;
    PathFacts(version);
    forall x, y | 0 <= x < Size(version) && 0 <= y < Size(version)
      ensures At(m1, x, y) == SymbolModule(version, format, NoMask(), s, x, y)
    {}
  }

  /** The first n bits of s are written along the path. */
  ghost predicate Written(m0: Grid, m1: Grid, version: nat, s: seq<bv8>, n: int)
    requires 1 <= version <= 40
  {
    IsSquare(m1, Size(version)) &&
    forall x, y | 0 <= x < Size(version) && 0 <= y < Size(version) ::
      At(m1, x, y) == if OnPath(Path(version), n, x, y) then BitOn(Path(version), Bits(s), n, x, y) else At(m0, x, y)
  }

  /** One more bit. */
  lemma WrittenStep(m0: Grid, m1: Grid, version: nat, s: seq<bv8>, n: nat, x: int, y: int, v: bool)
    requires 1 <= version <= 40 && Written(m0, m1, version, s, n)
    requires n < |Path(version)| && n < 8 * |s| && Path(version)[n] == Cell(x, y) && v == Bits(s)[n]
    ensures 0 <= x < Size(version) && 0 <= y < Size(version) && IsSquare(m1, Size(version))
    ensures 0 <= y < |m1| && 0 <= x < |m1[y]|
    ensures Written(m0, Put(m1, x, y, v), version, s, n + 1)
  {
    hide Put, At, Path, Size, Bits, OnPath, BitOn, NoDuplicates, Taken, AlignmentPositions, RawDataModules;
    PathFacts(version);
    PathCell(version, n);
    SquareRows(m1, Size(version), x, y);
    forall cx, cy {
      NextOnPath(Path(version), Bits(s), n, cx, cy);
    }
  }

  lemma SquareRows(m: Grid, size: nat, x: int, y: int)
    requires IsSquare(m, size) && 0 <= x < size && 0 <= y < size
    ensures 0 <= y < |m| && 0 <= x < |m[y]|
  {}

  lemma NextOnPath(path: seq<Cell>, bits: seq<bool>, n: nat, x: int, y: int)
    requires NoDuplicates(path) && n < |path| && n < |bits|
    ensures OnPath(path, n + 1, x, y) == (OnPath(path, n, x, y) || path[n] == Cell(x, y))
    ensures BitOn(path, bits, n + 1, x, y) == if path[n] == Cell(x, y) then bits[n] else BitOn(path, bits, n, x, y)
  {}

  // ----- finished symbols

  /** The symbol with codewords s under mask msk. */
  ghost function MaskedSymbol(version: nat, ecl: Ecc, s: seq<bv8>, msk: nat): Grid
    requires 1 <= version <= 40 && msk < 8
  {
    SymbolGrid(version, FormatBits(ecl, msk), MaskOf(msk), s)
  }

  ghost function MaskPenalty(version: nat, ecl: Ecc, s: seq<bv8>, msk: nat): int
    requires 1 <= version <= 40 && msk < 8
  {
    Penalty.Penalty(MaskedSymbol(version, ecl, s, msk), Size(version))
  }

  /** Among the masks below n, msk is the lowest of least penalty. */
  ghost predicate IsBest(version: nat, ecl: Ecc, s: seq<bv8>, msk: nat, n: nat)
    requires 1 <= version <= 40 && n <= 8
  {
    msk < n && forall i | 0 <= i < n ::
      && MaskPenalty(version, ecl, s, msk) <= MaskPenalty(version, ecl, s, i)
      && (i < msk ==> MaskPenalty(version, ecl, s, msk) < MaskPenalty(version, ecl, s, i))
  }

  /** The finished grid for the data: its codewords under the mask, which is the best one if it was
      chosen automatically. */
  ghost predicate IsFinished(m: Grid, version: nat, ecl: Ecc, msk: nat, automatic: bool, data: seq<bv8>)
    requires 1 <= version <= 40 && msk < 8
  {
    exists s :: IsInterleaved(ecl, version, data, s) && m == MaskedSymbol(version, ecl, s, msk)
                && (automatic ==> IsBest(version, ecl, s, msk, 8))
  }

  lemma NextBest(version: nat, ecl: Ecc, s: seq<bv8>, msk: nat, n: nat)
    requires 1 <= version <= 40 && n < 8 && (n > 0 ==> IsBest(version, ecl, s, msk, n))
    ensures n == 0 || MaskPenalty(version, ecl, s, n) < MaskPenalty(version, ecl, s, msk)
            ==> IsBest(version, ecl, s, n, n + 1)
    ensures n > 0 && MaskPenalty(version, ecl, s, n) >= MaskPenalty(version, ecl, s, msk)
            ==> IsBest(version, ecl, s, msk, n + 1)
  {
    hide MaskPenalty;
  }
}
