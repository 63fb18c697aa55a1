/** What a symbol looks like: its patterns as pictures, and the words it carries as the standard prints them. */
module Appearance {
  import opened Versions
  import opened Grids
  import opened FunctionCells
  import opened CellCount
  import opened FormatWord
  import opened Patterns
  import opened Matrix
  import opened WordTables
  import opened Interleaver
  import Penalty

  // ----- pictures

  const FINDER: seq<string> := [
    "#######",
    "#.....#",
    "#.###.#",
    "#.###.#",
    "#.###.#",
    "#.....#",
    "#######"
  ]

  const ALIGNMENT: seq<string> := [
    "#####",
    "#...#",
    "#.#.#",
    "#...#",
    "#####"
  ]

  lemma FinderPicture(r: nat, c: nat)
    requires r < 7 && c < 7
    ensures |FINDER| == 7 && |FINDER[r]| == 7
    ensures FINDER[r][c] == '#' <==> Ring(3, 3, c, r) != 2
  {}

  lemma AlignmentPicture(r: nat, c: nat)
    requires r < 5 && c < 5
    ensures |ALIGNMENT| == 5 && |ALIGNMENT[r]| == 5
    ensures ALIGNMENT[r][c] == '#' <==> Ring(2, 2, c, r) != 1
  {}

  /** The picture is in the grid, with its upper left corner at (left, top). */
  ghost predicate ShowsPicture(m: Grid, left: int, top: int, picture: seq<string>) {
    forall r, c | 0 <= r < |picture| && 0 <= c < |picture[r]| :: ShowsMark(m, left, top, picture, r, c)
  }

  ghost predicate ShowsMark(m: Grid, left: int, top: int, picture: seq<string>, r: nat, c: nat)
    requires r < |picture| && c < |picture[r]|
  {
    At(m, left + c, top + r) == (picture[r][c] == '#')
  }

  // ----- the look of a symbol

  ghost predicate ShowsFinders(m: Grid, size: nat) {
    ShowsPicture(m, 0, 0, FINDER) && ShowsPicture(m, size - 7, 0, FINDER) && ShowsPicture(m, 0, size - 7, FINDER)
  }

  /** Light modules set the finder patterns apart from the rest. */
  ghost predicate ShowsSeparators(m: Grid, size: nat) {
    forall i | 0 <= i < 8 :: IsSeparated(m, size, i)
  }

  /** The modules at distance i from the three corners, in the lines next to the finder patterns. */
  ghost predicate IsSeparated(m: Grid, size: nat, i: int) {
    && !At(m, 7, i) && !At(m, i, 7)
    && !At(m, size - 8, i) && !At(m, size - 1 - i, 7)
    && !At(m, 7, size - 1 - i) && !At(m, i, size - 8)
  }

  /** Between the finder patterns dark and light modules alternate, a dark one first. */
  ghost predicate ShowsTiming(m: Grid, size: nat) {
    forall i | 8 <= i < size - 8 :: At(m, i, 6) == (i % 2 == 0) && At(m, 6, i) == (i % 2 == 0)
  }

  ghost predicate ShowsAlignments(m: Grid, positions: seq<int>) {
    forall a, b | 0 <= a < |positions| && 0 <= b < |positions| && !IsCorner(a, b, |positions|) ::
      ShowsPicture(m, positions[a] - 2, positions[b] - 2, ALIGNMENT)
  }

  /** Both copies of the format word, bit by bit, and the module that is always dark. */
  ghost predicate ShowsFormatWord(m: Grid, size: nat, word: bv16) {
    (forall i | 0 <= i < 15 :: ShowsFormatBit(m, size, word, i)) && At(m, 8, size - 8)
  }

  /** The column of bit i in the copy around the upper left finder pattern. */
  function FormatColumn(i: nat): nat
    requires i < 15
  {
    if i < 8 then 8 else [7, 5, 4, 3, 2, 1, 0][i - 8]
  }

  function FormatRow(i: nat): nat
    requires i < 15
  {
    if i < 8 then [0, 1, 2, 3, 4, 5, 7, 8][i] else 8
  }

  ghost predicate ShowsFormatBit(m: Grid, size: nat, word: bv16, i: nat)
    requires i < 15
  {
    && At(m, FormatColumn(i), FormatRow(i)) == Shares16(word, OneBit16(i))
    && (if i < 8 then At(m, size - 1 - i, 8) else At(m, 8, size - 15 + i)) == Shares16(word, OneBit16(i))
  }

  /** Both copies of the version word, bit by bit. */
  ghost predicate ShowsVersionWord(m: Grid, size: nat, word: bv32) {
    forall i | 0 <= i < 18 :: ShowsVersionBit(m, size, word, i)
  }

  ghost predicate ShowsVersionBit(m: Grid, size: nat, word: bv32, i: nat)
    requires i < 18
  {
    && At(m, size - 11 + i % 3, i / 3) == Shares32(word, OneBit32(i))
    && At(m, i / 3, size - 11 + i % 3) == Shares32(word, OneBit32(i))
  }

  ghost predicate LooksLikeSymbol(m: Grid, version: nat, format: bv16)
    requires 1 <= version <= 40
  {
    && ShowsFinders(m, Size(version)) && ShowsSeparators(m, Size(version)) && ShowsTiming(m, Size(version))
    && ShowsAlignments(m, AlignmentPositions(version))
    && ShowsFormatWord(m, Size(version), format)
    && (version >= 7 ==> ShowsVersionWord(m, Size(version), VersionTable(version)))
  }

  // ----- colours of the patterns

  /** The function modules have the colours that are drawn. */
  ghost predicate WearsPatterns(m: Grid, version: nat, format: bv16)
    requires 1 <= version <= 40
  {
    forall x, y | 0 <= x < Size(version) && 0 <= y < Size(version)
        && IsFunctionCell(version, AlignmentPositions(version), x, y) ::
      At(m, x, y) == PatternColour(version, format)(x, y)
  }

  lemma ColourAt(version: nat, format: bv16, x: int, y: int)
    requires 1 <= version <= 40 && 0 <= x < Size(version) && 0 <= y < Size(version)
    ensures var p := AlignmentPositions(version);
            PatternColour(version, format)(x, y) ==
            if VersionRegion(version)(x, y) then VersionColour(Size(version), VersionWord(version as bv32))(x, y)
            else if FormatCells(Size(version))(x, y) then FormatColour(Size(version), format)(x, y)
            else if InAlignment(p, x, y) then OnDarkRing(p, x, y)
            else if FinderCells(Size(version))(x, y) then FindersColour(Size(version))(x, y)
            else TimingColour()(x, y)
  {
    hide AlignmentPositions, CoveredBefore, InAlignment, OnDarkRing, FinderCells, FindersColour, FormatCells,
      FormatColour, VersionRegion, VersionColour, VersionWord, TimingColour;
    NextRow(AlignmentPositions(version), 0, x, y);
  }

  // ----- finder patterns

  /** No other pattern reaches the corners with the finder patterns. */
  lemma FindersApart(version: nat, p: seq<int>, x: int, y: int)
    requires 1 <= version <= 40 && WellSpaced(version, p) && 0 <= x < Size(version) && 0 <= y < Size(version)
    requires FinderCells(Size(version))(x, y)
    ensures !InAlignment(p, x, y) && !FormatCells(Size(version))(x, y) && !VersionRegion(version)(x, y)
  {
    var size := Size(version);
    assert InSquare(3, 3, 4, x, y) || InSquare(size - 4, 3, 4, x, y) || InSquare(3, size - 4, 4, x, y);
    forall a, b | 0 <= a < |p| && 0 <= b < |p| && Near(p[a], x) && Near(p[b], y) ensures IsCorner(a, b, |p|) {
      EndNear(version, p, a, x);
      EndNear(version, p, b, y);
    }
  }

  /** A position near either end of the line is the first or the last one. */
  lemma EndNear(version: nat, p: seq<int>, a: int, x: int)
    requires WellSpaced(version, p) && 0 <= a < |p| && Near(p[a], x)
    ensures x < 9 ==> a == 0
    ensures x >= Size(version) - 9 ==> a == |p| - 1
  {}

  lemma FinderColours(m: Grid, version: nat, format: bv16, x: int, y: int)
    requires 1 <= version <= 40 && WearsPatterns(m, version, format)
    requires 0 <= x < Size(version) && 0 <= y < Size(version) && FinderCells(Size(version))(x, y)
    ensures At(m, x, y) == FindersColour(Size(version))(x, y)
  {
    hide AlignmentPositions, FindersColour, WellSpaced, FormatCells, VersionRegion, FinderCells, InAlignment,
      PatternColour, InFinderOrFormat, InTiming, InVersionInfo, At;
    AlignmentWellSpaced(version);
    FindersApart(version, AlignmentPositions(version), x, y);
    FinderAndFormatCover(Size(version), x, y);
    ColourAt(version, format, x, y);
  }

  predicate IsFinderCorner(size: nat, left: int, top: int) {
    (left == 0 && top == 0) || (left == size - 7 && top == 0) || (left == 0 && top == size - 7)
  }

  lemma FindersColourAt(size: nat, x: int, y: int)
    ensures FinderCells(size)(x, y) <==>
            InSquare(3, 3, 4, x, y) || InSquare(size - 4, 3, 4, x, y) || InSquare(3, size - 4, 4, x, y)
    ensures FindersColour(size)(x, y) ==
            if InSquare(3, 3, 4, x, y) then IsDarkRing(Ring(3, 3, x, y))
            else if InSquare(size - 4, 3, 4, x, y) then IsDarkRing(Ring(size - 4, 3, x, y))
            else IsDarkRing(Ring(3, size - 4, x, y))
  {
    hide InSquare, Ring;
    assert FinderColour(3, 3)(x, y) == IsDarkRing(Ring(3, 3, x, y));
    assert FinderColour(size - 4, 3)(x, y) == IsDarkRing(Ring(size - 4, 3, x, y));
    assert FinderColour(3, size - 4)(x, y) == IsDarkRing(Ring(3, size - 4, x, y));
  }

  predicate IsDarkRing(ring: int) {
    ring != 2 && ring != 4
  }

  lemma FinderShape(size: nat, left: int, top: int, r: nat, c: nat)
    requires size >= 21 && IsFinderCorner(size, left, top) && r < 7 && c < 7
    ensures FinderCells(size)(left + c, top + r)
    ensures FindersColour(size)(left + c, top + r) == (Ring(3, 3, c, r) != 2)
  {
    FindersColourAt(size, left + c, top + r);
    hide FindersColour, FinderCells;
  }

  lemma FinderShown(m: Grid, version: nat, format: bv16, left: int, top: int)
    requires 1 <= version <= 40 && WearsPatterns(m, version, format) && IsFinderCorner(Size(version), left, top)
    ensures ShowsPicture(m, left, top, FINDER)
  {
    hide WearsPatterns, At, FINDER, FinderCells, FindersColour, Ring;
    FinderHeight();
    forall r: nat, c: nat | r < 7 && c < 7
      ensures |FINDER| == 7 && |FINDER[r]| == 7 && ShowsMark(m, left, top, FINDER, r, c)
    {
      FinderPicture(r, c);
      FinderShape(Size(version), left, top, r, c);
      FinderColours(m, version, format, left + c, top + r);
    }
  }

  lemma FinderHeight()
    ensures |FINDER| == 7 && forall r | 0 <= r < 7 :: |FINDER[r]| == 7
  {}

  predicate IsSeparator(size: nat, x: int, y: int) {
    || (x == 7 && 0 <= y < 8) || (y == 7 && 0 <= x < 8)
    || (x == size - 8 && 0 <= y < 8) || (y == 7 && size - 8 <= x < size)
    || (x == 7 && size - 8 <= y < size) || (y == size - 8 && 0 <= x < 8)
  }

  lemma SeparatorShape(size: nat, x: int, y: int)
    requires size >= 21 && IsSeparator(size, x, y)
    ensures 0 <= x < size && 0 <= y < size && FinderCells(size)(x, y) && !FindersColour(size)(x, y)
  {
    FindersColourAt(size, x, y);
    hide FindersColour, FinderCells;
  }

  lemma SeparatorLight(m: Grid, version: nat, format: bv16, x: int, y: int)
    requires 1 <= version <= 40 && WearsPatterns(m, version, format) && IsSeparator(Size(version), x, y)
    ensures !At(m, x, y)
  {
    hide WearsPatterns, At, FinderCells, FindersColour;
    SeparatorShape(Size(version), x, y);
    FinderColours(m, version, format, x, y);
  }

  lemma SeparatorsShown(m: Grid, version: nat, format: bv16)
    requires 1 <= version <= 40 && WearsPatterns(m, version, format)
    ensures ShowsSeparators(m, Size(version))
  {
    hide WearsPatterns, At;
    var size := Size(version);
    forall i | 0 <= i < 8 ensures IsSeparated(m, size, i) {
      SeparatorLight(m, version, format, 7, i); SeparatorLight(m, version, format, i, 7);
      SeparatorLight(m, version, format, size - 8, i); SeparatorLight(m, version, format, size - 1 - i, 7);
      SeparatorLight(m, version, format, 7, size - 1 - i); SeparatorLight(m, version, format, i, size - 8);
    }
  }

  // ----- alignment patterns

  lemma {:induction false} EvenUpTo(count: nat, last: int, step: int)
    requires last % 2 == 0 && step % 2 == 0
    ensures forall a | 0 <= a < count :: PositionsUpTo(count, last, step)[a] % 2 == 0
  {
    if count > 0 {
      EvenUpTo(count - 1, last - step, step);
    }
  }

  /** All positions are even. */
  lemma PositionsEven(version: nat)
    requires 1 <= version <= 40
    ensures forall a | 0 <= a < |AlignmentPositions(version)| :: AlignmentPositions(version)[a] % 2 == 0
  {
    if version > 1 {
      EvenUpTo(AlignmentCount(version) - 1, Size(version) - 7, AlignmentStep(version));
    }
  }

  /** Alignment patterns stay clear of format and version bits. */
  lemma AlignmentsApart(version: nat, p: seq<int>, a: int, b: int, x: int, y: int)
    requires 1 <= version <= 40 && WellSpaced(version, p) && Covers(p, a, b, x, y)
    requires 0 <= x < Size(version) && 0 <= y < Size(version)
    ensures !FormatCells(Size(version))(x, y) && !VersionRegion(version)(x, y)
  {
    EndNear(version, p, a, x);
    EndNear(version, p, b, y);
    if a < |p| - 1 { Gap(version, p, a); }
    if b < |p| - 1 { Gap(version, p, b); }
  }

  lemma Gap(version: nat, p: seq<int>, a: int)
    requires WellSpaced(version, p) && 0 <= a < |p| - 1
    ensures p[a] <= Size(version) - 7 - (if version >= 7 then 16 else 12)
  {
    assert p[|p| - 1] - p[a] >= (if version >= 7 then 16 else 12) * (|p| - 1 - a);
  }

  lemma AlignmentColours(m: Grid, version: nat, format: bv16, a: int, b: int, x: int, y: int)
    requires 1 <= version <= 40 && WearsPatterns(m, version, format)
    requires 0 <= x < Size(version) && 0 <= y < Size(version) && Covers(AlignmentPositions(version), a, b, x, y)
    ensures At(m, x, y) <==> Ring(AlignmentPositions(version)[a], AlignmentPositions(version)[b], x, y) != 1
  {
    hide AlignmentPositions, WellSpaced, FormatCells, VersionRegion, FinderCells, Ring, OnDarkRing, CoveredBefore,
      PatternColour, InFinderOrFormat, InTiming, InVersionInfo, At;
    var p := AlignmentPositions(version);
    AlignmentWellSpaced(version);
    AlignmentsApart(version, p, a, b, x, y);
    assert InAlignment(p, x, y);
    ColourAt(version, format, x, y);
    NextAlignment(version, p, a, b, x, y);
  }

  lemma AlignmentShown(m: Grid, version: nat, format: bv16, a: nat, b: nat)
    requires 1 <= version <= 40 && WearsPatterns(m, version, format)
    requires var n := |AlignmentPositions(version)|; a < n && b < n && !IsCorner(a, b, n)
    ensures ShowsPicture(m, AlignmentPositions(version)[a] - 2, AlignmentPositions(version)[b] - 2, ALIGNMENT)
  {
    hide WearsPatterns, At, ALIGNMENT, AlignmentPositions, WellSpaced, IsCorner, Ring;
    var p := AlignmentPositions(version);
    AlignmentWellSpaced(version);
    PositionInside(version, p, a);
    PositionInside(version, p, b);
    AlignmentHeight();
    var left, top := p[a] - 2, p[b] - 2;
    forall r: nat, c: nat | r < 5 && c < 5
      ensures |ALIGNMENT| == 5 && |ALIGNMENT[r]| == 5 && ShowsMark(m, left, top, ALIGNMENT, r, c)
    {
      AlignmentPicture(r, c);
      AlignmentColours(m, version, format, a, b, left + c, top + r);
      RingMoves(p[a], p[b], r, c);
    }
  }

  lemma RingMoves(cx: int, cy: int, r: int, c: int)
    ensures Ring(cx, cy, cx - 2 + c, cy - 2 + r) == Ring(2, 2, c, r)
  {}

  lemma AlignmentsShown(m: Grid, version: nat, format: bv16)
    requires 1 <= version <= 40 && WearsPatterns(m, version, format)
    ensures ShowsAlignments(m, AlignmentPositions(version))
  {
    hide WearsPatterns, ShowsPicture, AlignmentPositions, IsCorner;
    var p := AlignmentPositions(version);
    forall a, b | 0 <= a < |p| && 0 <= b < |p| && !IsCorner(a, b, |p|)
      ensures ShowsPicture(m, p[a] - 2, p[b] - 2, ALIGNMENT)
    {
      AlignmentShown(m, version, format, a, b);
    }
  }

  lemma PositionInside(version: nat, p: seq<int>, a: int)
    requires 1 <= version <= 40 && WellSpaced(version, p) && 0 <= a < |p|
    ensures 6 <= p[a] <= Size(version) - 7
  {
    if a > 0 { assert p[a] - p[0] >= (if version >= 7 then 16 else 12) * a; }
    if a < |p| - 1 { Gap(version, p, a); }
  }

  lemma AlignmentHeight()
    ensures |ALIGNMENT| == 5 && forall r | 0 <= r < 5 :: |ALIGNMENT[r]| == 5
  {}

  // ----- timing patterns

  /** Where an alignment pattern crosses a timing pattern, it has the same colours. */
  lemma TimingColours(m: Grid, version: nat, format: bv16, x: int, y: int)
    requires 1 <= version <= 40 && WearsPatterns(m, version, format)
    requires (8 <= x < Size(version) - 8 && y == 6) || (8 <= y < Size(version) - 8 && x == 6)
    ensures At(m, x, y) == ((if y == 6 then x else y) % 2 == 0)
  {
    hide AlignmentPositions, FindersColour, WellSpaced, InAlignment, OnDarkRing, PatternColour, At, VersionColour,
      FormatColour, VersionWord;
    var p := AlignmentPositions(version);
    AlignmentWellSpaced(version);
    assert InTiming(x, y);
    ColourAt(version, format, x, y);
    TimingOnly(version, x, y);
    if InAlignment(p, x, y) {
      var a, b := CoveredBy(p, x, y);
      AlignmentColours(m, version, format, a, b, x, y);
      EndNear(version, p, if y == 6 then b else a, 6);
      First(version, p);
      PositionsEven(version);
    }
  }

  lemma TimingOnly(version: nat, x: int, y: int)
    requires 1 <= version
    requires (8 <= x < Size(version) - 8 && y == 6) || (8 <= y < Size(version) - 8 && x == 6)
    ensures !VersionRegion(version)(x, y) && !FormatCells(Size(version))(x, y) && !FinderCells(Size(version))(x, y)
    ensures TimingColour()(x, y) == ((if y == 6 then x else y) % 2 == 0)
  {
    FindersColourAt(Size(version), x, y);
    assert FormatCells(Size(version))(x, y) == (FirstFormatCell(x, y) || SecondFormatCell(Size(version), x, y));
    hide FindersColour, FinderCells;
  }

  lemma First(version: nat, p: seq<int>)
    requires WellSpaced(version, p) && p != []
    ensures p[0] == 6
  {}

  lemma CoveredBy(p: seq<int>, x: int, y: int) returns (a: int, b: int)
    requires InAlignment(p, x, y)
    ensures Covers(p, a, b, x, y)
  {
    a, b :| 0 <= a < |p| && 0 <= b < |p| && !IsCorner(a, b, |p|) && Near(p[a], x) && Near(p[b], y);
  }

  lemma TimingShown(m: Grid, version: nat, format: bv16)
    requires 1 <= version <= 40 && WearsPatterns(m, version, format)
    ensures ShowsTiming(m, Size(version))
  {
    hide WearsPatterns, At;
    forall i | 8 <= i < Size(version) - 8 ensures At(m, i, 6) == (i % 2 == 0) && At(m, 6, i) == (i % 2 == 0) {
      TimingColours(m, version, format, i, 6);
      TimingColours(m, version, format, 6, i);
    }
  }

  // ----- format and version bits

  lemma FormatColours(m: Grid, version: nat, format: bv16, x: int, y: int)
    requires 1 <= version <= 40 && WearsPatterns(m, version, format)
    requires 0 <= x < Size(version) && 0 <= y < Size(version) && FormatCells(Size(version))(x, y)
    ensures At(m, x, y) == FormatColour(Size(version), format)(x, y)
  {
    hide AlignmentPositions, InAlignment, PatternColour, At, VersionColour, VersionWord, FormatColour;
    FinderAndFormatCover(Size(version), x, y);
    ColourAt(version, format, x, y);
  }

  lemma FormatShown(m: Grid, version: nat, format: bv16)
    requires 1 <= version <= 40 && WearsPatterns(m, version, format)
    ensures ShowsFormatWord(m, Size(version), format)
  {
    hide WearsPatterns, At, Bit16, Shares16, OneBit16, FormatCells, FormatColour;
    var size := Size(version);
    forall i | 0 <= i < 15 ensures ShowsFormatBit(m, size, format, i) {
      BitMeans16(format, i);
      var x, y := FirstFormatX(i), FirstFormatY(i);
      FirstFormatAt(x, y, i);
      FirstCopyColour(size, format, x, y);
      FormatColours(m, version, format, x, y);
      x, y := if i < 8 then size - 1 - i else 8, if i < 8 then 8 else size - 15 + i;
      SecondCopyColour(size, format, x, y);
      FormatColours(m, version, format, x, y);
    }
    AlwaysDark(size, format);
    FormatColours(m, version, format, 8, size - 8);
  }

  lemma AlwaysDark(size: nat, bits: bv16)
    requires size >= 21
    ensures FormatCells(size)(8, size - 8) && FormatColour(size, bits)(8, size - 8)
  {
    assert SecondFormatColour(size, bits)(8, size - 8);
  }

  lemma VersionColours(m: Grid, version: nat, format: bv16, x: int, y: int)
    requires 7 <= version <= 40 && WearsPatterns(m, version, format)
    requires 0 <= x < Size(version) && 0 <= y < Size(version) && VersionCell(Size(version), x, y)
    ensures At(m, x, y) == Bit32(VersionTable(version), VersionBit(Size(version), x, y))
  {
    hide AlignmentPositions, InAlignment, PatternColour, At, VersionTable, VersionWord, Bit32;
    VersionTabulated(version);
    assert InVersionInfo(version, x, y);
    ColourAt(version, format, x, y);
  }

  lemma VersionShown(m: Grid, version: nat, format: bv16)
    requires 7 <= version <= 40 && WearsPatterns(m, version, format)
    ensures ShowsVersionWord(m, Size(version), VersionTable(version))
  {
    hide WearsPatterns, At, Bit32, Shares32, OneBit32, VersionTable;
    var size, word := Size(version), VersionTable(version);
    forall i | 0 <= i < 18 ensures ShowsVersionBit(m, size, word, i) {
      BitMeans32(word, i);
      VersionColours(m, version, format, size - 11 + i % 3, i / 3);
      VersionColours(m, version, format, i / 3, size - 11 + i % 3);
    }
  }

  // ----- grids that have been drawn

  lemma WearingLooks(m: Grid, version: nat, format: bv16)
    requires 1 <= version <= 40 && WearsPatterns(m, version, format)
    ensures LooksLikeSymbol(m, version, format)
  {
    hide WearsPatterns, ShowsPicture, ShowsSeparators, ShowsTiming, ShowsAlignments, ShowsFormatWord, ShowsVersionWord,
      VersionTable, AlignmentPositions, Size;
    FinderShown(m, version, format, 0, 0);
    FinderShown(m, version, format, Size(version) - 7, 0);
    FinderShown(m, version, format, 0, Size(version) - 7);
    SeparatorsShown(m, version, format);
    TimingShown(m, version, format);
    AlignmentsShown(m, version, format);
    FormatShown(m, version, format);
    if version >= 7 {
      VersionShown(m, version, format);
    }
  }

  /** Drawing all function patterns gives a grid this look. */
  lemma DrawnLooks(f0: Grid, m0: Grid, f1: Grid, m1: Grid, version: nat, format: bv16)
    requires 1 <= version <= 40
    requires Draws(f0, m0, f1, m1, Size(version), Taken(version, AlignmentPositions(version)),
                   PatternColour(version, format))
    ensures LooksLikeSymbol(m1, version, format)
  {
    hide AlignmentPositions, PatternColour, At, IsSquare, IsFunctionCell, LooksLikeSymbol, Size;
    assert WearsPatterns(m1, version, format);
    WearingLooks(m1, version, format);
  }

  /** A finished symbol, masked and with its codewords, has this look, with the published word for its format. */
  lemma FinishedLooks(m: Grid, version: nat, ecl: Ecc, msk: nat, automatic: bool, data: seq<bv8>)
    requires 1 <= version <= 40 && msk < 8 && IsFinished(m, version, ecl, msk, automatic, data)
    ensures LooksLikeSymbol(m, version, FormatTable(ecl, msk))
  {
    hide AlignmentPositions, PatternColour, IsBest, IsInterleaved, IsFunctionCell, LooksLikeSymbol, FormatTable,
      FormatBits, WearsPatterns, SymbolGrid;
    var s :| IsInterleaved(ecl, version, data, s) && m == MaskedSymbol(version, ecl, s, msk);
    FormatTabulated(ecl, msk);
    GridWears(m, version, FormatBits(ecl, msk), MaskOf(msk), s);
    WearingLooks(m, version, FormatBits(ecl, msk));
  }

  lemma GridWears(m: Grid, version: nat, format: bv16, inverted: (int, int) -> bool, s: seq<bv8>)
    requires 1 <= version <= 40 && m == SymbolGrid(version, format, inverted, s)
    ensures WearsPatterns(m, version, format)
  {
    hide AlignmentPositions, PatternColour, BitOn, Path, IsFunctionCell, Size;
    forall x, y | 0 <= x < Size(version) && 0 <= y < Size(version)
        && IsFunctionCell(version, AlignmentPositions(version), x, y)
      ensures At(m, x, y) == PatternColour(version, format)(x, y)
    {
      assert m[y][x] == SymbolModule(version, format, inverted, s, x, y);
    }
  }

  // ----- and the penalty sees it

  /** The rows and columns through the middle of the finder patterns have the dark and light runs that the
      penalty score looks for. */
  lemma FindersSeen(m: Grid, size: nat)
    requires size >= 21 && ShowsFinders(m, size) && ShowsSeparators(m, size)
    ensures Penalty.FinderAt(Penalty.Row(m, size, 3), 0, 1, 0, 1)
    ensures Penalty.FinderAt(Penalty.Row(m, size, 3), size - 7, 1, 1, 0)
    ensures Penalty.FinderAt(Penalty.Row(m, size, size - 4), 0, 1, 0, 1)
    ensures Penalty.FinderAt(Penalty.Column(m, size, 3), 0, 1, 0, 1)
    ensures Penalty.FinderAt(Penalty.Column(m, size, 3), size - 7, 1, 1, 0)
    ensures Penalty.FinderAt(Penalty.Column(m, size, size - 4), 0, 1, 0, 1)
  {
    hide At, ShowsPicture, Penalty.FinderAt;
    MiddleShown(m, 0, 0);
    MiddleShown(m, size - 7, 0);
    MiddleShown(m, 0, size - 7);
    SeparatorMeans(m, size);
    LineSeen(Penalty.Row(m, size, 3), 0, 0, 1);
    LineSeen(Penalty.Row(m, size, 3), size - 7, 1, 0);
    LineSeen(Penalty.Row(m, size, size - 4), 0, 0, 1);
    LineSeen(Penalty.Column(m, size, 3), 0, 0, 1);
    LineSeen(Penalty.Column(m, size, 3), size - 7, 1, 0);
    LineSeen(Penalty.Column(m, size, size - 4), 0, 0, 1);
  }

  lemma SeparatorMeans(m: Grid, size: nat)
    requires size >= 21 && ShowsSeparators(m, size)
    ensures !At(m, 7, 3) && !At(m, size - 8, 3) && !At(m, 7, size - 4)
    ensures !At(m, 3, 7) && !At(m, 3, size - 8) && !At(m, size - 4, 7)
  {
    hide At;
    assert IsSeparated(m, size, 3);
  }

  lemma LineSeen(l: seq<bool>, p: nat, before: nat, after: nat)
    requires before <= 1 && after <= 1 && before <= p && p + 7 + after <= |l|
    requires l[p] && !l[p + 1] && l[p + 2] && l[p + 3] && l[p + 4] && !l[p + 5] && l[p + 6]
    requires (before == 1 ==> !l[p - 1]) && (after == 1 ==> !l[p + 7])
    ensures Penalty.FinderAt(l, p, 1, before, after)
  {}

  /** The middle row and column of the picture. */
  lemma MiddleShown(m: Grid, left: int, top: int)
    requires ShowsPicture(m, left, top, FINDER)
    ensures IsMiddle(m, left, top, 0) && IsMiddle(m, left, top, 1) && IsMiddle(m, left, top, 2)
    ensures IsMiddle(m, left, top, 3) && IsMiddle(m, left, top, 4) && IsMiddle(m, left, top, 5)
    ensures IsMiddle(m, left, top, 6)
  {
    hide At;
    forall c: nat | c < 7 ensures IsMiddle(m, left, top, c) {
      FinderPicture(3, c);
      FinderPicture(c, 3);
      assert ShowsMark(m, left, top, FINDER, 3, c) && ShowsMark(m, left, top, FINDER, c, 3);
    }
  }

  ghost predicate IsMiddle(m: Grid, left: int, top: int, c: int) {
    At(m, left + c, top + 3) == At(m, left + 3, top + c) == (c != 1 && c != 5)
  }
}
