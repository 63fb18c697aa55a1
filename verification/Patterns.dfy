/** The function patterns of a symbol: where they are and what they look like. */
module Patterns {
  import opened Versions
  import opened Grids
  import opened FunctionCells
  import opened CellCount
  import opened Zigzag
  import opened FormatWord

  // ----- drawing

  /** What drawing does: the modules of a region become function modules and take the given
      colours, and all others stay as they are. */
  ghost predicate Draws(f0: Grid, m0: Grid, f1: Grid, m1: Grid, size: nat,
                        region: (int, int) -> bool, colour: (int, int) -> bool) {
    && IsSquare(f0, size) && IsSquare(m0, size) && IsSquare(f1, size) && IsSquare(m1, size)
    && (forall x, y | 0 <= x < size && 0 <= y < size :: At(f1, x, y) == (At(f0, x, y) || region(x, y)))
    && (forall x, y | 0 <= x < size && 0 <= y < size ::
          At(m1, x, y) == if region(x, y) then colour(x, y) else At(m0, x, y))
  }

  ghost function Union(r1: (int, int) -> bool, r2: (int, int) -> bool): (int, int) -> bool {
    (x, y) => r1(x, y) || r2(x, y)
  }

  /** Colours c1, under the colours c2 of region r2. */
  ghost function Under(c1: (int, int) -> bool, r2: (int, int) -> bool, c2: (int, int) -> bool): (int, int) -> bool {
    (x, y) => if r2(x, y) then c2(x, y) else c1(x, y)
  }

  /** Drawing twice is drawing once, with the later colours on top. */
  lemma DrawsThen(f0: Grid, m0: Grid, f1: Grid, m1: Grid, f2: Grid, m2: Grid, size: nat,
                  r1: (int, int) -> bool, c1: (int, int) -> bool, r2: (int, int) -> bool, c2: (int, int) -> bool)
    requires Draws(f0, m0, f1, m1, size, r1, c1) && Draws(f1, m1, f2, m2, size, r2, c2)
    ensures Draws(f0, m0, f2, m2, size, Union(r1, r2), Under(c1, r2, c2))
  {
    hide At, IsSquare;
  }

  /** Only the cells of the symbol matter. */
  lemma DrawsSame(f0: Grid, m0: Grid, f1: Grid, m1: Grid, size: nat,
                  r1: (int, int) -> bool, c1: (int, int) -> bool, r2: (int, int) -> bool, c2: (int, int) -> bool)
    requires Draws(f0, m0, f1, m1, size, r1, c1)
    requires forall x, y | 0 <= x < size && 0 <= y < size :: r1(x, y) == r2(x, y)
    requires forall x, y | 0 <= x < size && 0 <= y < size && r1(x, y) :: c1(x, y) == c2(x, y)
    ensures Draws(f0, m0, f1, m1, size, r2, c2)
  {
    hide At, IsSquare;
  }

  /** Drawing one more module. */
  lemma DrawsStep(f0: Grid, m0: Grid, f1: Grid, m1: Grid, size: nat,
                  r1: (int, int) -> bool, r2: (int, int) -> bool, c: (int, int) -> bool, x: int, y: int)
    requires Draws(f0, m0, f1, m1, size, r1, c) && 0 <= x < size && 0 <= y < size
    requires forall cx, cy | 0 <= cx < size && 0 <= cy < size :: r2(cx, cy) == (r1(cx, cy) || (cx == x && cy == y))
    ensures 0 <= y < |f1| && 0 <= x < |f1[y]| && 0 <= y < |m1| && 0 <= x < |m1[y]|
    ensures Draws(f0, m0, Put(f1, x, y, true), Put(m1, x, y, c(x, y)), size, r2, c)
  {
    assert IsSquare(f1, size) && IsSquare(m1, size);
    hide Put, At, IsSquare;
  }

  /** Drawing nothing. */
  lemma DrawsNothing(f: Grid, m: Grid, size: nat, r: (int, int) -> bool, c: (int, int) -> bool)
    requires IsSquare(f, size) && IsSquare(m, size)
    requires forall x, y | 0 <= x < size && 0 <= y < size :: !r(x, y)
    ensures Draws(f, m, f, m, size, r, c)
  {}

  ghost function Timing(n: int): (int, int) -> bool { (x, y) => (x == 6 && y < n) || (y == 6 && x < n) }

  /** Both lines before i, and the column's module at i. */
  ghost function ColumnFirst(i: int): (int, int) -> bool { (x, y) => (x == 6 && y < i + 1) || (y == 6 && x < i) }

  ghost function TimingColour(): (int, int) -> bool { (x, y) => if x == 6 then y % 2 == 0 else x % 2 == 0 }

  ghost function SquareAt(cx: int, cy: int, radius: int): (int, int) -> bool {
    (x, y) => InSquare(cx, cy, radius, x, y)
  }

  predicate InSquare(cx: int, cy: int, radius: int, x: int, y: int) {
    -radius <= x - cx <= radius && -radius <= y - cy <= radius
  }

  /** The square around (cx, cy), up to offset (dx, dy) in reading order. */
  ghost function SquareUpTo(cx: int, cy: int, radius: int, dx: int, dy: int): (int, int) -> bool {
    (x, y) => InSquare(cx, cy, radius, x, y) && (y - cy < dy || (y - cy == dy && x - cx < dx))
  }

  function Ring(cx: int, cy: int, x: int, y: int): int {
    Max(Abs(x - cx), Abs(y - cy))
  }

  ghost function FinderColour(cx: int, cy: int): (int, int) -> bool {
    (x, y) => Ring(cx, cy, x, y) != 2 && Ring(cx, cy, x, y) != 4
  }

  ghost function AlignmentColour(cx: int, cy: int): (int, int) -> bool {
    (x, y) => Ring(cx, cy, x, y) != 1
  }

  ghost function FinderCells(size: int): (int, int) -> bool {
    (x, y) => InSquare(3, 3, 4, x, y) || InSquare(size - 4, 3, 4, x, y) || InSquare(3, size - 4, 4, x, y)
  }

  ghost function FindersColour(size: int): (int, int) -> bool {
    (x, y) => if InSquare(3, 3, 4, x, y) then FinderColour(3, 3)(x, y)
              else if InSquare(size - 4, 3, 4, x, y) then FinderColour(size - 4, 3)(x, y)
              else FinderColour(3, size - 4)(x, y)
  }

  // ----- alignment patterns

  ghost predicate Covers(positions: seq<int>, a: int, b: int, x: int, y: int) {
    && 0 <= a < |positions| && 0 <= b < |positions| && !IsCorner(a, b, |positions|)
    && Near(positions[a], x) && Near(positions[b], y)
  }

  /** The alignment patterns drawn before index (i, j) in reading order. */
  ghost function AlignmentsUpTo(positions: seq<int>, i: int, j: int): (int, int) -> bool {
    (x, y) => CoveredBefore(positions, i, j, x, y)
  }

  ghost predicate CoveredBefore(positions: seq<int>, i: int, j: int, x: int, y: int) {
    exists a, b :: Covers(positions, a, b, x, y) && (a < i || (a == i && b < j))
  }

  ghost function AlignmentsColour(positions: seq<int>): (int, int) -> bool {
    (x, y) => OnDarkRing(positions, x, y)
  }

  ghost predicate OnDarkRing(positions: seq<int>, x: int, y: int) {
    exists a, b :: Covers(positions, a, b, x, y) && Ring(positions[a], positions[b], x, y) != 1
  }

  /** Patterns are far apart: a module belongs to one at most. */
  lemma CoveredOnce(version: nat, positions: seq<int>, a: int, b: int, c: int, d: int, x: int, y: int)
    requires WellSpaced(version, positions) && Covers(positions, a, b, x, y) && Covers(positions, c, d, x, y)
    ensures a == c && b == d
  {
    hide WellSpaced, IsCorner;
    if a < c { FarApart(version, positions, a, c); }
    if c < a { FarApart(version, positions, c, a); }
    if b < d { FarApart(version, positions, b, d); }
    if d < b { FarApart(version, positions, d, b); }
  }

  lemma FarApart(version: nat, positions: seq<int>, a: int, b: int)
    requires WellSpaced(version, positions) && 0 <= a < b < |positions|
    ensures positions[b] - positions[a] >= 12
  {}

  /** One more pattern is drawn, unless it is a corner. */
  lemma NextAlignment(version: nat, positions: seq<int>, i: nat, j: nat, x: int, y: int)
    requires WellSpaced(version, positions) && i < |positions| && j < |positions|
    ensures CoveredBefore(positions, i, j + 1, x, y) ==
            (CoveredBefore(positions, i, j, x, y) || Covers(positions, i, j, x, y))
    ensures Covers(positions, i, j, x, y) ==>
              OnDarkRing(positions, x, y) == (Ring(positions[i], positions[j], x, y) != 1)
    ensures Covers(positions, i, j, x, y) == (!IsCorner(i, j, |positions|)
        && InSquare(positions[i], positions[j], 2, x, y))
  {
    hide WellSpaced, IsCorner, Ring;
    if Covers(positions, i, j, x, y) {
      forall a, b | Covers(positions, a, b, x, y) ensures a == i && b == j {
        CoveredOnce(version, positions, a, b, i, j, x, y);
      }
    }
  }

  lemma NextRow(positions: seq<int>, i: nat, x: int, y: int)
    ensures CoveredBefore(positions, i, |positions|, x, y) == CoveredBefore(positions, i + 1, 0, x, y)
    ensures !CoveredBefore(positions, 0, 0, x, y)
    ensures CoveredBefore(positions, |positions|, 0, x, y) == InAlignment(positions, x, y)
  {
    hide IsCorner, Near;
    if InAlignment(positions, x, y) {
      var a, b :| 0 <= a < |positions| && 0 <= b < |positions| && !IsCorner(a, b, |positions|)
        && Near(positions[a], x) && Near(positions[b], y);
      assert Covers(positions, a, b, x, y);
    }
  }

  lemma NoAlignments(f: Grid, m: Grid, size: nat, p: seq<int>)
    requires IsSquare(f, size) && IsSquare(m, size)
    ensures Draws(f, m, f, m, size, AlignmentsUpTo(p, 0, 0), AlignmentsColour(p))
  {
    hide CoveredBefore, OnDarkRing, IsSquare, Draws;
    forall x, y {
      NextRow(p, 0, x, y);
    }
    DrawsNothing(f, m, size, AlignmentsUpTo(p, 0, 0), AlignmentsColour(p));
  }

  lemma AlignmentSkipped(f0: Grid, m0: Grid, f: Grid, m: Grid, version: nat, p: seq<int>, i: nat, j: nat)
    requires WellSpaced(version, p) && i < |p| && j < |p| && IsCorner(i, j, |p|)
    requires Draws(f0, m0, f, m, Size(version), AlignmentsUpTo(p, i, j), AlignmentsColour(p))
    ensures Draws(f0, m0, f, m, Size(version), AlignmentsUpTo(p, i, j + 1), AlignmentsColour(p))
  {
    hide CoveredBefore, OnDarkRing, Covers, Ring, Draws, WellSpaced, IsCorner, Size;
    forall x, y {
      NextAlignment(version, p, i, j, x, y);
    }
    DrawsSame(f0, m0, f, m, Size(version), AlignmentsUpTo(p, i, j), AlignmentsColour(p), AlignmentsUpTo(p, i, j + 1),
              AlignmentsColour(p));
  }

  lemma AlignmentDrawn(f0: Grid, m0: Grid, f: Grid, m: Grid, f1: Grid, m1: Grid, version: nat, p: seq<int>, i: nat,
      j: nat)
    requires WellSpaced(version, p) && i < |p| && j < |p| && !IsCorner(i, j, |p|)
    requires Draws(f0, m0, f, m, Size(version), AlignmentsUpTo(p, i, j), AlignmentsColour(p))
    requires Draws(f, m, f1, m1, Size(version), SquareAt(p[i], p[j], 2), AlignmentColour(p[i], p[j]))
    ensures Draws(f0, m0, f1, m1, Size(version), AlignmentsUpTo(p, i, j + 1), AlignmentsColour(p))
  {
    hide CoveredBefore, OnDarkRing, Covers, Ring, Draws, WellSpaced, IsCorner, InSquare, Size;
    var r, c := AlignmentsUpTo(p, i, j), AlignmentsColour(p);
    var s, d := SquareAt(p[i], p[j], 2), AlignmentColour(p[i], p[j]);
    forall x, y {
      NextAlignment(version, p, i, j, x, y);
    }
    DrawsThen(f0, m0, f, m, f1, m1, Size(version), r, c, s, d);
    DrawsSame(f0, m0, f1, m1, Size(version), Union(r, s), Under(c, s, d), AlignmentsUpTo(p, i, j + 1), c);
  }

  lemma AlignmentRow(f0: Grid, m0: Grid, f: Grid, m: Grid, size: nat, p: seq<int>, i: nat)
    requires Draws(f0, m0, f, m, size, AlignmentsUpTo(p, i, |p|), AlignmentsColour(p))
    ensures Draws(f0, m0, f, m, size, AlignmentsUpTo(p, i + 1, 0), AlignmentsColour(p))
  {
    hide CoveredBefore, OnDarkRing, Draws;
    forall x, y {
      NextRow(p, i, x, y);
    }
    DrawsSame(f0, m0, f, m, size, AlignmentsUpTo(p, i, |p|), AlignmentsColour(p), AlignmentsUpTo(p, i + 1, 0),
              AlignmentsColour(p));
  }

  // ----- format bits

  /** The cells of the first copy, up to bit i. */
  ghost function FirstFormatUpTo(i: int): (int, int) -> bool {
    (x, y) => FirstFormatCell(x, y) && FirstFormatBit(x, y) < i
  }

  /** The column of bit i of the first copy. */
  function FirstFormatX(i: int): int {
    if i < 8 then 8 else if i == 8 then 7 else 14 - i
  }

  function FirstFormatY(i: int): int {
    if i < 6 then i else if i < 8 then i + 1 else 8
  }

  lemma FirstFormatAll(i: int)
    requires 0 <= i < 15
    ensures forall x, y | 0 <= x && 0 <= y ::
              (FirstFormatCell(x, y) && FirstFormatBit(x, y) == i) == (x == FirstFormatX(i) && y == FirstFormatY(i))
  {
    forall x, y | 0 <= x && 0 <= y
      ensures (FirstFormatCell(x, y) && FirstFormatBit(x, y) == i) == (x == FirstFormatX(i) && y == FirstFormatY(i))
    {
      FirstFormatAt(x, y, i);
    }
  }

  lemma FirstFormatAt(x: int, y: int, i: int)
    requires 0 <= i < 15 && 0 <= x && 0 <= y
    ensures FirstFormatCell(x, y) && FirstFormatBit(x, y) == i <==> x == FirstFormatX(i) && y == FirstFormatY(i)
  {}

  predicate FirstFormatCell(x: int, y: int) {
    (x == 8 && y < 9 && y != 6) || (y == 8 && x < 9 && x != 6)
  }

  /** Which bit of the first copy a cell holds. */
  function FirstFormatBit(x: int, y: int): int {
    if x == 8 then (if y < 6 then y else y - 1) else if x == 7 then 8 else 14 - x
  }

  ghost function SecondFormatUpTo(size: int, i: int): (int, int) -> bool {
    (x, y) => SecondFormatCell(size, x, y) && SecondFormatBit(size, x, y) < i
  }

  predicate SecondFormatCell(size: int, x: int, y: int) {
    (y == 8 && x >= size - 8) || (x == 8 && y >= size - 8)
  }

  /** Which bit of the second copy a cell holds; the always dark one counts as bit 15. */
  function SecondFormatBit(size: int, x: int, y: int): int {
    if y == 8 then size - 1 - x else if y == size - 8 then 15 else y - (size - 15)
  }

  ghost function FirstFormatColour(bits: bv16): (int, int) -> bool {
    (x, y) => FirstFormatCell(x, y) && x >= 0 && y >= 0 && Bit16(bits, FirstFormatBit(x, y))
  }

  ghost function SecondFormatColour(size: nat, bits: bv16): (int, int) -> bool {
    (x, y) => SecondFormatCell(size, x, y) && x < size && y < size &&
      (SecondFormatBit(size, x, y) == 15 || Bit16(bits, SecondFormatBit(size, x, y)))
  }

  ghost function FormatCells(size: int): (int, int) -> bool {
    (x, y) => FirstFormatCell(x, y) || SecondFormatCell(size, x, y)
  }

  ghost function FormatColour(size: nat, bits: bv16): (int, int) -> bool {
    (x, y) => if SecondFormatCell(size, x, y) then SecondFormatColour(size, bits)(x, y)
              else FirstFormatColour(bits)(x, y)
  }

  lemma FirstCopyColour(size: nat, bits: bv16, x: int, y: int)
    requires size >= 21 && 0 <= x && 0 <= y && FirstFormatCell(x, y)
    ensures FormatCells(size)(x, y) && FormatColour(size, bits)(x, y) == Bit16(bits, FirstFormatBit(x, y))
  {
    hide Bit16;
    assert FirstFormatColour(bits)(x, y) == Bit16(bits, FirstFormatBit(x, y));
    assert !SecondFormatCell(size, x, y);
  }

  lemma SecondCopyColour(size: nat, bits: bv16, x: int, y: int)
    requires size >= 21 && x < size && y < size && SecondFormatCell(size, x, y) && SecondFormatBit(size, x, y) < 15
    ensures FormatCells(size)(x, y) && FormatColour(size, bits)(x, y) == Bit16(bits, SecondFormatBit(size, x, y))
  {
    hide Bit16;
    assert SecondFormatColour(size, bits)(x, y) == Bit16(bits, SecondFormatBit(size, x, y));
  }

  /** The format bits as drawn: level and mask with check bits, under a fixed mask. */
  function FormatBits(ecl: Ecc, msk: nat): bv16
    requires msk < 8
  {
    Xor(FormatCode(FormatData(ecl, msk)), 0x5412)
  }

  function FormatData(ecl: Ecc, msk: nat): bv16
    requires msk < 8
  {
    (8 * ecl.FormatBits() + msk) as bv16
  }

  // ----- version bits

  function VersionStep(rem: bv32): bv32 {
    (rem << (1 as bv32)) ^ ((rem >> (11 as bv32)) * 0x1F25)
  }

  function VersionRemainder(rem: bv32, n: nat): bv32
    decreases n
  {
    if n == 0 then rem else VersionRemainder(VersionStep(rem), n - 1)
  }

  /** The version in the upper six bits, the remainder in the lower twelve. */
  function VersionWord(version: bv32): bv32 {
    JoinVersion(version, VersionRemainder(version, 12))
  }

  function JoinVersion(version: bv32, rem: bv32): bv32 {
    (version << (12 as bv32)) | rem
  }

  method ComputeVersionWord(version: bv32) returns (bits: bv32)
    ensures bits == VersionWord(version)
  {
    var rem := version;
    hide VersionStep, JoinVersion;
    for i := 0 to 12
      invariant VersionRemainder(rem, 12 - i) == VersionRemainder(version, 12)
    {
      rem := VersionStep(rem);
    }
    assert rem == VersionRemainder(version, 12);
    bits := JoinVersion(version, rem);
  }

  predicate Bit32(u: bv32, j: nat) {
    if j == 0 then u & 1 == 1 else Bit32(u >> (1 as bv32), j - 1)
  }

  ghost function VersionUpTo(size: int, i: int): (int, int) -> bool {
    (x, y) => VersionCell(size, x, y) && VersionBit(size, x, y) < i
  }

  /** The cells of the first i bits, and the upper right one of bit i. */
  ghost function VersionHalf(size: int, i: int): (int, int) -> bool {
    (x, y) => VersionCell(size, x, y) && (VersionBit(size, x, y) < i || (VersionBit(size, x, y) == i && y < 6))
  }

  predicate VersionCell(size: int, x: int, y: int) {
    (size - 11 <= x < size - 8 && 0 <= y < 6) || (0 <= x < 6 && size - 11 <= y < size - 8)
  }

  function VersionBit(size: int, x: int, y: int): int {
    if y < 6 then x - (size - 11) + 3 * y else y - (size - 11) + 3 * x
  }

  ghost function VersionColour(size: int, bits: bv32): (int, int) -> bool {
    (x, y) => size >= 21 && VersionCell(size, x, y) && Bit32(bits, VersionBit(size, x, y))
  }

  // ----- all function patterns

  ghost function VersionRegion(version: nat): (int, int) -> bool {
    (x, y) => version >= 7 && VersionCell(Size(version), x, y)
  }

  ghost function PatternRegion(version: nat): (int, int) -> bool
    requires 1 <= version <= 40
  {
    var size, positions := Size(version), AlignmentPositions(version);
    Union(Union(Union(Union(Timing(size), FinderCells(size)), AlignmentsUpTo(positions, |positions|, 0)),
        FormatCells(size)),
          VersionRegion(version))
  }

  /** The colours of all function modules: version bits over format bits over alignment patterns over
      finder patterns over timing patterns. */
  ghost function PatternColour(version: nat, format: bv16): (int, int) -> bool
    requires 1 <= version <= 40
  {
    var size, positions := Size(version), AlignmentPositions(version);
    Under(Under(Under(Under(TimingColour(), FinderCells(size), FindersColour(size)),
                      AlignmentsUpTo(positions, |positions|, 0), AlignmentsColour(positions)),
                FormatCells(size), FormatColour(size, format)),
          VersionRegion(version), VersionColour(Size(version), VersionWord(version as bv32)))
  }

  lemma FinderAndFormatCover(size: nat, x: int, y: int)
    requires 21 <= size && 0 <= x < size && 0 <= y < size
    ensures InFinderOrFormat(size, x, y) || InTiming(x, y) <==>
            FinderCells(size)(x, y) || FormatCells(size)(x, y) || Timing(size)(x, y)
    ensures FinderCells(size)(x, y) ==> InFinderOrFormat(size, x, y)
  {
    assert Timing(size)(x, y) == InTiming(x, y);
    assert FormatCells(size)(x, y) == (FirstFormatCell(x, y) || SecondFormatCell(size, x, y));
    assert FinderCells(size)(x, y) == (InSquare(3, 3, 4, x, y) || InSquare(size - 4, 3, 4, x, y)
        || InSquare(3, size - 4, 4, x, y));
    hide Timing, FormatCells, FinderCells;
  }

  lemma VersionCover(version: nat, x: int, y: int)
    requires 1 <= version && 0 <= x < Size(version) && 0 <= y < Size(version)
    ensures VersionRegion(version)(x, y) ==> InVersionInfo(version, x, y)
    ensures InVersionInfo(version, x, y) ==> VersionRegion(version)(x, y) || FinderCells(Size(version))(x, y)
  {}

  /** The drawn modules are exactly the ones the decoder skips, given the same positions. */
  lemma PatternsCover(version: nat, x: int, y: int)
    requires 1 <= version <= 40 && 0 <= x < Size(version) && 0 <= y < Size(version)
    ensures PatternRegion(version)(x, y) == IsFunctionCell(version, AlignmentPositions(version), x, y)
  {
    hide AlignmentPositions, InAlignment, CoveredBefore, Timing, FinderCells, FormatCells, VersionRegion,
      InFinderOrFormat, InTiming, InVersionInfo;
    NextRow(AlignmentPositions(version), 0, x, y);
    FinderAndFormatCover(Size(version), x, y);
    VersionCover(version, x, y);
  }

  lemma AllPatterns(f0: Grid, m0: Grid, f1: Grid, m1: Grid, version: nat, bits: bv16, r: (int, int) -> bool,
      c: (int, int) -> bool)
    requires 1 <= version <= 40
    requires Draws(f0, m0, f1, m1, Size(version), r, c)
    requires r == PatternRegion(version) && c == PatternColour(version, bits)
    ensures Draws(f0, m0, f1, m1, Size(version), Taken(version, AlignmentPositions(version)), c)
  {
    hide *;
    var taken, size := Taken(version, AlignmentPositions(version)), Size(version);
    forall x, y | 0 <= x < size && 0 <= y < size ensures r(x, y) == taken(x, y) {
      PatternsCover(version, x, y);
      TakenDef(version, x, y);
    }
    DrawsSame(f0, m0, f1, m1, size, r, c, taken, c);
  }

  lemma TakenDef(version: nat, x: int, y: int)
    requires 1 <= version <= 40
    ensures Taken(version, AlignmentPositions(version))(x, y) == IsFunctionCell(version, AlignmentPositions(version),
        x, y)
  {
    hide AlignmentPositions, IsFunctionCell;
  }

  function Abs(i: int): int { if i < 0 then -i else i }

  function Max(i: int, j: int): int { if i < j then j else i }
}
