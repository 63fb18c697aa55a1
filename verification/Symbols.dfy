/** The encoder's symbol: a grid of modules, and which of them are function modules. */
module Symbols {
  import opened Versions
  import opened Grids
  import opened FunctionCells
  import opened CellCount
  import opened Zigzag
  import opened Bytes
  import opened Masks
  import opened FormatWord
  import opened Patterns
  import opened Matrix
  import opened WordTables
  import opened Appearance
  import opened Interleaver
  import opened Layouts
  import Penalty

  class QrCode {
    const version: nat
    const ecl: Ecc
    const size: nat
    var modules: Grid
    var isFunction: Grid
    var mask: nat

    ghost predicate Valid()
      reads this`modules, this`isFunction
    {
      1 <= version <= 40 && size == Size(version) && IsSquare(modules, size) && IsSquare(isFunction, size)
    }

    method SetFunctionModule(x: int, y: int, isDark: bool)
      requires Valid() && 0 <= x < size && 0 <= y < size
      modifies this`modules, this`isFunction
      ensures Valid()
      ensures modules == Put(old(modules), x, y, isDark) && isFunction == Put(old(isFunction), x, y, true)
    {
      modules := Put(modules, x, y, isDark);
      isFunction := Put(isFunction, x, y, true);
    }

    method DrawTimingPatterns()
      requires Valid()
      modifies this`modules, this`isFunction
      ensures Valid()
      ensures Draws(old(isFunction), old(modules), isFunction, modules, size, Timing(size), TimingColour())
    {
      hide Put, At, IsSquare, Draws;
      DrawsNothing(isFunction, modules, size, Timing(0), TimingColour());
      for i := 0 to size
        invariant Valid()
        invariant Draws(old(isFunction), old(modules), isFunction, modules, size, Timing(i), TimingColour())
      {
        DrawsStep(old(isFunction), old(modules), isFunction, modules, size, Timing(i), ColumnFirst(i), TimingColour(),
            6, i);
        SetFunctionModule(6, i, i % 2 == 0);
        DrawsStep(old(isFunction), old(modules), isFunction, modules, size, ColumnFirst(i), Timing(i + 1),
            TimingColour(), i, 6);
        SetFunctionModule(i, 6, i % 2 == 0);
      }
    }

    method DrawFinderPattern(x: int, y: int)
      requires Valid()
      modifies this`modules, this`isFunction
      ensures Valid()
      ensures Draws(old(isFunction), old(modules), isFunction, modules, size, SquareAt(x, y, 4), FinderColour(x, y))
    {
      hide Put, At, IsSquare, Draws;
      ghost var f0, m0, colour := isFunction, modules, FinderColour(x, y);
      DrawsNothing(f0, m0, size, SquareUpTo(x, y, 4, -4, -4), colour);
      for dy := -4 to 5
        invariant Valid() && Draws(f0, m0, isFunction, modules, size, SquareUpTo(x, y, 4, -4, dy), colour)
      {
        for dx := -4 to 5
          invariant Valid() && Draws(f0, m0, isFunction, modules, size, SquareUpTo(x, y, 4, dx, dy), colour)
        {
          var dist := Max(Abs(dx), Abs(dy));
          var xx, yy := x + dx, y + dy;
          ghost var here, next := SquareUpTo(x, y, 4, dx, dy), SquareUpTo(x, y, 4, dx + 1, dy);
          if 0 <= xx < size && 0 <= yy < size {
            DrawsStep(f0, m0, isFunction, modules, size, here, next, colour, xx, yy);
            SetFunctionModule(xx, yy, dist != 2 && dist != 4);
          } else {
            DrawsSame(f0, m0, isFunction, modules, size, here, colour, next, colour);
          }
        }
        DrawsSame(f0, m0, isFunction, modules, size, SquareUpTo(x, y, 4, 5, dy), colour,
            SquareUpTo(x, y, 4, -4, dy + 1), colour);
      }
      DrawsSame(f0, m0, isFunction, modules, size, SquareUpTo(x, y, 4, -4, 5), colour, SquareAt(x, y, 4), colour);
    }

    method DrawAlignmentPattern(x: int, y: int)
      requires Valid() && 2 <= x < size - 2 && 2 <= y < size - 2
      modifies this`modules, this`isFunction
      ensures Valid()
      ensures Draws(old(isFunction), old(modules), isFunction, modules, size, SquareAt(x, y, 2), AlignmentColour(x, y))
    {
      hide Put, At, IsSquare, Draws;
      ghost var f0, m0, colour := isFunction, modules, AlignmentColour(x, y);
      DrawsNothing(f0, m0, size, SquareUpTo(x, y, 2, -2, -2), colour);
      for dy := -2 to 3
        invariant Valid() && Draws(f0, m0, isFunction, modules, size, SquareUpTo(x, y, 2, -2, dy), colour)
      {
        for dx := -2 to 3
          invariant Valid() && Draws(f0, m0, isFunction, modules, size, SquareUpTo(x, y, 2, dx, dy), colour)
        {
          DrawsStep(f0, m0, isFunction, modules, size, SquareUpTo(x, y, 2, dx, dy), SquareUpTo(x, y, 2, dx + 1, dy),
                    colour, x + dx, y + dy);
          SetFunctionModule(x + dx, y + dy, Max(Abs(dx), Abs(dy)) != 1);
        }
        DrawsSame(f0, m0, isFunction, modules, size, SquareUpTo(x, y, 2, 3, dy), colour,
            SquareUpTo(x, y, 2, -2, dy + 1), colour);
      }
      DrawsSame(f0, m0, isFunction, modules, size, SquareUpTo(x, y, 2, -2, 3), colour, SquareAt(x, y, 2), colour);
    }

    method DrawFirstFormatCopy(bits: bv16)
      requires Valid()
      modifies this`modules, this`isFunction
      ensures Valid()
      ensures Draws(old(isFunction), old(modules), isFunction, modules, size, FirstFormatUpTo(15),
          FirstFormatColour(bits))
    {
      hide Bit16, Put, At, IsSquare, Draws, FirstFormatCell, FirstFormatBit, Size;
      ghost var f0, m0, colour := isFunction, modules, FirstFormatColour(bits);
      SizeIsSize(version);
      NoFormatYet(f0, m0, size, colour);
      for i := 0 to 6
        invariant Valid() && Draws(f0, m0, isFunction, modules, size, FirstFormatUpTo(i), colour)
      {
        FirstFormatAll(i);
        DrawsStep(f0, m0, isFunction, modules, size, FirstFormatUpTo(i), FirstFormatUpTo(i + 1), colour, 8, i);
        SetFunctionModule(8, i, Bit16(bits, i));
      }
      FirstFormatAll(6);
      DrawsStep(f0, m0, isFunction, modules, size, FirstFormatUpTo(6), FirstFormatUpTo(7), colour, 8, 7);
      SetFunctionModule(8, 7, Bit16(bits, 6));
      FirstFormatAll(7);
      DrawsStep(f0, m0, isFunction, modules, size, FirstFormatUpTo(7), FirstFormatUpTo(8), colour, 8, 8);
      SetFunctionModule(8, 8, Bit16(bits, 7));
      FirstFormatAll(8);
      DrawsStep(f0, m0, isFunction, modules, size, FirstFormatUpTo(8), FirstFormatUpTo(9), colour, 7, 8);
      SetFunctionModule(7, 8, Bit16(bits, 8));
      for i := 9 to 15
        invariant Valid() && Draws(f0, m0, isFunction, modules, size, FirstFormatUpTo(i), colour)
      {
        FirstFormatAll(i);
        DrawsStep(f0, m0, isFunction, modules, size, FirstFormatUpTo(i), FirstFormatUpTo(i + 1), colour, 14 - i, 8);
        SetFunctionModule(14 - i, 8, Bit16(bits, i));
      }
    }

    method DrawSecondFormatCopy(bits: bv16)
      requires Valid()
      modifies this`modules, this`isFunction
      ensures Valid()
      ensures Draws(old(isFunction), old(modules), isFunction, modules, size, SecondFormatUpTo(size, 16),
          SecondFormatColour(size, bits))
    {
      hide Bit16, Put, At, IsSquare, Draws;
      ghost var f0, m0, colour := isFunction, modules, SecondFormatColour(size, bits);
      DrawsNothing(f0, m0, size, SecondFormatUpTo(size, 0), colour);
      for i := 0 to 8
        invariant Valid() && Draws(f0, m0, isFunction, modules, size, SecondFormatUpTo(size, i), colour)
      {
        DrawsStep(f0, m0, isFunction, modules, size, SecondFormatUpTo(size, i), SecondFormatUpTo(size, i + 1), colour,
            size - 1 - i, 8);
        SetFunctionModule(size - 1 - i, 8, Bit16(bits, i));
      }
      for i := 8 to 15
        invariant Valid() && Draws(f0, m0, isFunction, modules, size, SecondFormatUpTo(size, i), colour)
      {
        DrawsStep(f0, m0, isFunction, modules, size, SecondFormatUpTo(size, i), SecondFormatUpTo(size, i + 1), colour,
            8, size - 15 + i);
        SetFunctionModule(8, size - 15 + i, Bit16(bits, i));
      }
      DrawsStep(f0, m0, isFunction, modules, size, SecondFormatUpTo(size, 15), SecondFormatUpTo(size, 16), colour, 8,
          size - 8);
      SetFunctionModule(8, size - 8, true);
    }

    /** Draws both copies of the format bits for the given mask. */
    method DrawFormatBits(msk: nat)
      requires Valid() && msk < 8
      modifies this`modules, this`isFunction
      ensures Valid()
      ensures Draws(old(isFunction), old(modules), isFunction, modules, size, FormatCells(size),
          FormatColour(size, FormatBits(ecl, msk)))
    {
      hide FormatCode, Xor, Bit16, FormatData, Draws;
      var code := ComputeFormatCode(FormatData(ecl, msk));
      var bits := Xor(code, 0x5412);
      DrawFirstFormatCopy(bits);
      ghost var f1, m1 := isFunction, modules;
      DrawSecondFormatCopy(bits);
      DrawsThen(old(isFunction), old(modules), f1, m1, isFunction, modules, size,
                FirstFormatUpTo(15), FirstFormatColour(bits), SecondFormatUpTo(size, 16),
                    SecondFormatColour(size, bits));
      DrawsSame(old(isFunction), old(modules), isFunction, modules, size,
                Union(FirstFormatUpTo(15), SecondFormatUpTo(size, 16)),
                Under(FirstFormatColour(bits), SecondFormatUpTo(size, 16), SecondFormatColour(size, bits)),
                FormatCells(size), FormatColour(size, bits));
    }

    method DrawVersion()
      requires Valid()
      modifies this`modules, this`isFunction
      ensures Valid()
      ensures Draws(old(isFunction), old(modules), isFunction, modules, size, VersionRegion(version),
                    VersionColour(size, VersionWord(version as bv32)))
    {
      hide Bit32, VersionWord, Put, At, IsSquare, Draws;
      if version < 7 {
        DrawsNothing(isFunction, modules, size, VersionRegion(version),
            VersionColour(size, VersionWord(version as bv32)));
        return;
      }
      var bits := ComputeVersionWord(version as bv32);
      ghost var f0, m0, colour := isFunction, modules, VersionColour(size, bits);
      DrawsNothing(f0, m0, size, VersionUpTo(size, 0), colour);
      for i := 0 to 18
        invariant Valid() && Draws(f0, m0, isFunction, modules, size, VersionUpTo(size, i), colour)
      {
        var bit := Bit32(bits, i);
        var a := size - 11 + i % 3;
        var b := i / 3;
        DrawsStep(f0, m0, isFunction, modules, size, VersionUpTo(size, i), VersionHalf(size, i), colour, a, b);
        SetFunctionModule(a, b, bit);
        DrawsStep(f0, m0, isFunction, modules, size, VersionHalf(size, i), VersionUpTo(size, i + 1), colour, b, a);
        SetFunctionModule(b, a, bit);
      }
      DrawsSame(f0, m0, isFunction, modules, size, VersionUpTo(size, 18), colour, VersionRegion(version), colour);
    }

    method DrawAlignmentPatterns()
      requires Valid()
      modifies this`modules, this`isFunction
      ensures Valid()
      ensures var positions := AlignmentPositions(version);
              Draws(old(isFunction), old(modules), isFunction, modules, size,
                    AlignmentsUpTo(positions, |positions|, 0), AlignmentsColour(positions))
    {
      hide Put, At, IsSquare, AlignmentPositions, AlignmentsUpTo, AlignmentsColour, Draws, IsCorner;
      AlignmentWellSpaced(version);
      var p := GetAlignmentPatternPositions(version);
      ghost var f0, m0, colour := isFunction, modules, AlignmentsColour(p);
      NoAlignments(isFunction, modules, size, p);
      for i := 0 to |p|
        invariant Valid()
        invariant Draws(f0, m0, isFunction, modules, size, AlignmentsUpTo(p, i, 0), colour)
      {
        for j := 0 to |p|
          invariant Valid()
          invariant Draws(f0, m0, isFunction, modules, size, AlignmentsUpTo(p, i, j), colour)
        {
          ghost var f, m := isFunction, modules;
          if !IsCorner(i, j, |p|) {
            DrawAlignmentPattern(p[i], p[j]);
            AlignmentDrawn(f0, m0, f, m, isFunction, modules, version, p, i, j);
          } else {
            AlignmentSkipped(f0, m0, f, m, version, p, i, j);
          }
        }
        AlignmentRow(f0, m0, isFunction, modules, size, p, i);
      }
    }

    method DrawFinderPatterns()
      requires Valid()
      modifies this`modules, this`isFunction
      ensures Valid()
      ensures Draws(old(isFunction), old(modules), isFunction, modules, size, FinderCells(size), FindersColour(size))
    {
      hide Put, At, IsSquare, Ring;
      DrawFinderPattern(3, 3);
      DrawFinderPattern(size - 4, 3);
      DrawFinderPattern(3, size - 4);
    }

    /** Draws everything but the codewords. */
    method DrawFunctionPatterns()
      requires Valid()
      modifies this`modules, this`isFunction
      ensures Valid()
      ensures Draws(old(isFunction), old(modules), isFunction, modules, size,
                    Taken(version, AlignmentPositions(version)), PatternColour(version, FormatBits(ecl, 0)))
      ensures LooksLikeSymbol(modules, version, FormatTable(ecl, 0))
    {
      ghost var f, m := isFunction, modules;
      assert 1 <= version <= 40 && size == Size(version);
      hide *;
      ghost var p := AlignmentPositions(version);
      ghost var r, c := Timing(size), TimingColour();
      DrawTimingPatterns();
      ghost var f1, m1 := isFunction, modules;
      DrawFinderPatterns();
      DrawsThen(f, m, f1, m1, isFunction, modules, size, r, c, FinderCells(size), FindersColour(size));
      r, c := Union(r, FinderCells(size)), Under(c, FinderCells(size), FindersColour(size));
      f1, m1 := isFunction, modules;
      DrawAlignmentPatterns();
      DrawsThen(f, m, f1, m1, isFunction, modules, size, r, c, AlignmentsUpTo(p, |p|, 0), AlignmentsColour(p));
      r, c := Union(r, AlignmentsUpTo(p, |p|, 0)), Under(c, AlignmentsUpTo(p, |p|, 0), AlignmentsColour(p));
      f1, m1 := isFunction, modules;
      DrawFormatBits(0);
      ghost var bits := FormatBits(ecl, 0);
      DrawsThen(f, m, f1, m1, isFunction, modules, size, r, c, FormatCells(size), FormatColour(size, bits));
      r, c := Union(r, FormatCells(size)), Under(c, FormatCells(size), FormatColour(size, bits));
      f1, m1 := isFunction, modules;
      DrawVersion();
      ghost var word := VersionColour(size, VersionWord(version as bv32));
      DrawsThen(f, m, f1, m1, isFunction, modules, size, r, c, VersionRegion(version), word);
      AllPatterns(f, m, isFunction, modules, version, bits, Union(r, VersionRegion(version)),
          Under(c, VersionRegion(version), word));
      DrawnLooks(f, m, isFunction, modules, version, bits);
      FormatTabulated(ecl, 0);
    }

    /** Writes bits of the data, from bit i on, along one pair of columns. */
    method DrawColumnPair(right: int, data: seq<bv8>, start: nat, ghost c: nat, ghost m0: Grid) returns (i: nat)
      requires Valid() && IsFunctionMap(isFunction, version)
      requires c < Pairs(size) && right == RightOf(size, c) && DirectionAgrees(right, c)
      requires start == Least(VisitedCount(Taken(version, AlignmentPositions(version)), size, c, 0, 0), 8 * |data|)
      requires Written(m0, modules, version, data, start)
      modifies this`modules
      ensures Valid() && Written(m0, modules, version, data, i)
      ensures i == Least(VisitedCount(Taken(version, AlignmentPositions(version)), size, c + 1, 0, 0), 8 * |data|)
    {
      hide Written, VisitedCount, RightOf, RowOf, Pairs, IsFunctionMap, Taken, AlignmentPositions,
        At, Put, IsSquare, BitAt, Bits, Size, AllCells, IsSize;
      SizeIsSize(version);
      ghost var taken := Taken(version, AlignmentPositions(version));
      i := start;
      for vert := 0 to size
        invariant Valid() && Written(m0, modules, version, data, i)
        invariant i == Least(VisitedCount(taken, size, c, vert, 0), 8 * |data|)
      {
        for j := 0 to 2
          invariant Valid() && Written(m0, modules, version, data, i)
          invariant i == Least(VisitedCount(taken, size, c, vert, j), 8 * |data|)
        {
          var x := right - j;
          var upward := (right + 1) / 2 % 2 == 0;
          var y := if upward then size - 1 - vert else vert;
          NextCell(taken, size, c, vert, j);
          RowIs(size, c, vert, y);
          IsFunctionAt(isFunction, version, x, y);
          if !At(isFunction, x, y) && i < |data| * 8 {
            BitsAt(data, i);
            WrittenStep(m0, modules, version, data, i, x, y, BitAt(data[i / 8], i % 8));
            modules := Put(modules, x, y, BitAt(data[i / 8], i % 8));
            i := i + 1;
          }
        }
        WalkFacts(taken, size, c, vert);
      }
      WalkFacts(taken, size, c, 0);
    }

    /** Writes the codeword bits along the zigzag, in the modules that are not function modules. */
    method DrawCodewords(data: seq<bv8>)
      requires Valid() && IsFunctionMap(isFunction, version)
      requires |data| == RawDataModules(version) / 8
      modifies this`modules
      ensures Valid() && Written(old(modules), modules, version, data, 8 * |data|)
    {
      hide Written, VisitedCount, RightOf, Pairs, IsFunctionMap, Taken, AlignmentPositions, At, IsSquare, Size,
        RawDataModules, RightBefore, DirectionAgrees, AllCells, IsSize;
      SizeIsSize(version);
      RoomOnPath(version, data);
      ghost var taken := Taken(version, AlignmentPositions(version));
      var i := 0;
      var right := size - 1;
      ghost var c := 0;
      RightCounter(size, 0);
      WalkFacts(taken, size, 0, 0);
      NothingWritten(modules, version, data);
      while right >= 1
        invariant Valid() && c <= Pairs(size)
        invariant right == RightBefore(size, c)
        invariant i == Least(VisitedCount(taken, size, c, 0, 0), 8 * |data|)
            && Written(old(modules), modules, version, data, i)
        decreases right
      {
        RightCounter(size, c);
        if right == 6 {
          right := 5;
        }
        i := DrawColumnPair(right, data, i, c, old(modules));
        c := c + 1;
        right := right - 2;
      }
      RightCounter(size, c);
      WalkFacts(taken, size, c, 0);
    }

    /** Inverts the modules that the mask selects and that are not function modules. */
    method ApplyMask(msk: nat)
      requires Valid() && msk < 8
      modifies this`modules
      ensures Valid() && IsMasked(isFunction, old(modules), modules, size, msk)
    {
      hide At, Put, IsSquare, Inverts;
      for y := 0 to size
        invariant Valid()
        invariant forall cx, cy | 0 <= cx < size && 0 <= cy < size :: At(modules, cx, cy) ==
                    (At(old(modules), cx, cy) != (cy < y && MaskOf(msk)(cx, cy) && !At(isFunction, cx, cy)))
      {
        for x := 0 to size
          invariant Valid()
          invariant forall cx, cy | 0 <= cx < size && 0 <= cy < size :: At(modules, cx, cy) ==
                      (At(old(modules), cx, cy) !=
                       ((cy < y || (cy == y && cx < x)) && MaskOf(msk)(cx, cy) && !At(isFunction, cx, cy)))
        {
          SquareBounds(modules, size, x, y);
          var invert := Inverts(msk, x, y);
          modules := Put(modules, x, y, At(modules, x, y) != (invert && !At(isFunction, x, y)));
        }
      }
    }

    /** Tries all masks and picks the lowest of those with the least penalty; the grid ends unmasked. */
    method ChooseMask(ghost s: seq<bv8>) returns (msk: nat)
      requires Valid() && IsFunctionMap(isFunction, version) && Shows(modules, version, FormatBits(ecl, 0), NoMask(), s)
      modifies this`modules, this`isFunction
      ensures Valid() && IsFunctionMap(isFunction, version) && Shows(modules, version, FormatBits(ecl, 7), NoMask(), s)
      ensures msk < 8 && IsBest(version, ecl, s, msk, 8)
    {
      hide IsFunctionMap, Shows, FormatBits, NoMask, MaskOf, IsBest, IsSquare, IsMasked, Draws, FormatCells,
          FormatColour,
        MaskPenalty, Size;
      msk := 0;
      var minPenalty := Penalty.LONG_MAX;
      for i := 0 to 8
        invariant Valid() && IsFunctionMap(isFunction, version)
        invariant Shows(modules, version, FormatBits(ecl, if i == 0 then 0 else i - 1), NoMask(), s)
        invariant msk < 8 && (i > 0 ==> IsBest(version, ecl, s, msk, i))
        invariant minPenalty == if i == 0 then Penalty.LONG_MAX else MaskPenalty(version, ecl, s, msk)
      {
        ghost var before := modules;
        ApplyMask(i);
        ShowsMasked(isFunction, before, modules, version, FormatBits(ecl, if i == 0 then 0 else i - 1), i, s);
        ghost var f, m := isFunction, modules;
        DrawFormatBits(i);
        ShowsFormat(f, m, isFunction, modules, version, FormatBits(ecl, if i == 0 then 0 else i - 1),
            FormatBits(ecl, i), MaskOf(i), s);
        OddSize(version);
        var penalty := Penalty.GetPenaltyScore(modules, size);
        ScoreIs(modules, version, ecl, s, i);
        NextBest(version, ecl, s, msk, i);
        if penalty < minPenalty {
          msk := i;
          minPenalty := penalty;
        }
        before := modules;
        ApplyMask(i);
        ShowsMasked(isFunction, before, modules, version, FormatBits(ecl, i), i, s);
      }
    }

    /** Draws a symbol for the data. The mask is given, or chosen by penalty if msk is -1. */
    constructor (ver: nat, ecl: Ecc, dataCodewords: seq<bv8>, msk: int)
      requires 1 <= ver <= 40 && -1 <= msk < 8 && |dataCodewords| == NumDataCodewords(ecl, ver)
      ensures version == ver && this.ecl == ecl && size == Size(ver) && mask < 8
      ensures msk >= 0 ==> mask == msk
      ensures IsFinished(modules, ver, ecl, mask, msk == -1, dataCodewords)
      ensures LooksLikeSymbol(modules, ver, FormatTable(ecl, mask))
    {
      hide *;
      version := ver;
      this.ecl := ecl;
      size := 4 * ver + 17;
      mask := 0;
      modules := Constant(4 * ver + 17, false);
      isFunction := Constant(4 * ver + 17, false);
      new;
      ghost var none := modules;
      StartsValid(this, ver);
      DrawFunctionPatterns();
      ghost var f, m := isFunction, modules;
      var allCodewords := AddEccAndInterleave(dataCodewords, ecl, ver);
      FunctionMapOf(none, f, m, version, PatternColour(version, FormatBits(ecl, 0)));
      DrawCodewords(allCodewords);
      ShowsCodewords(f, m, modules, version, FormatBits(ecl, 0), allCodewords, none);
      var chosen := msk;
      ghost var drawn := FormatBits(ecl, 0);
      if chosen == -1 {
        chosen := ChooseMask(allCodewords);
        drawn := FormatBits(ecl, 7);
      }
      mask := chosen;
      f, m := isFunction, modules;
      ApplyMask(chosen);
      ShowsMasked(f, m, modules, version, drawn, chosen, allCodewords);
      m := modules;
      DrawFormatBits(chosen);
      ShowsFormat(f, m, isFunction, modules, version, drawn, FormatBits(ecl, chosen), MaskOf(chosen), allCodewords);
      FinishedMeans(modules, version, ecl, chosen, msk == -1, dataCodewords, allCodewords);
      FinishedLooks(modules, version, ecl, chosen, msk == -1, dataCodewords);
      isFunction := [];
    }
  }

  lemma NoFormatYet(f: Grid, m: Grid, size: nat, c: (int, int) -> bool)
    requires IsSquare(f, size) && IsSquare(m, size)
    ensures Draws(f, m, f, m, size, FirstFormatUpTo(0), c)
  {
    hide At, IsSquare, Draws;
    DrawsNothing(f, m, size, FirstFormatUpTo(0), c);
  }

  lemma StartsValid(q: QrCode, ver: nat)
    requires 1 <= ver <= 40 && q.version == ver && q.size == 4 * ver + 17
    requires q.modules == q.isFunction == Constant(4 * ver + 17, false)
    ensures q.Valid() && q.size == Size(q.version) && q.modules == Constant(Size(ver), false)
  {}

  lemma OddSize(version: nat)
    ensures Size(version) % 2 == 1
  {
    Odd(2 * version + 8);
  }

  lemma Odd(k: nat)
    ensures (2 * k + 1) % 2 == 1
  {}

  lemma ScoreIs(m: Grid, version: nat, ecl: Ecc, s: seq<bv8>, msk: nat)
    requires 1 <= version <= 40 && msk < 8 && Shows(m, version, FormatBits(ecl, msk), MaskOf(msk), s)
    ensures MaskPenalty(version, ecl, s, msk) == Penalty.Penalty(m, Size(version)) < Penalty.LONG_MAX
  {
    hide Shows, SymbolGrid, Penalty.Penalty;
    ShowsIsGrid(m, version, FormatBits(ecl, msk), MaskOf(msk), s);
    SizeIsSize(version);
    Penalty.PenaltyBound(m, Size(version));
  }

  lemma FunctionMapOf(none: Grid, f: Grid, m: Grid, version: nat, c: (int, int) -> bool)
    requires 1 <= version <= 40 && none == Constant(Size(version), false)
    requires Draws(none, none, f, m, Size(version), Taken(version, AlignmentPositions(version)), c)
    ensures IsFunctionMap(f, version)
  {
    hide At, IsSquare, Taken, AlignmentPositions, Size;
  }

  lemma FinishedMeans(m: Grid, version: nat, ecl: Ecc, msk: nat, automatic: bool, data: seq<bv8>, s: seq<bv8>)
    requires 1 <= version <= 40 && msk < 8 && IsInterleaved(ecl, version, data, s)
    requires Shows(m, version, FormatBits(ecl, msk), MaskOf(msk), s)
    requires automatic ==> IsBest(version, ecl, s, msk, 8)
    ensures IsFinished(m, version, ecl, msk, automatic, data)
  {
    hide Shows, SymbolGrid, IsBest, IsInterleaved;
    ShowsIsGrid(m, version, FormatBits(ecl, msk), MaskOf(msk), s);
  }

  lemma SquareBounds(m: Grid, size: nat, x: int, y: int)
    requires IsSquare(m, size) && 0 <= x < size && 0 <= y < size
    ensures y < |m| && x < |m[y]|
  {}

  function Least(a: int, b: int): int { if a < b then a else b }

  lemma NothingWritten(m: Grid, version: nat, data: seq<bv8>)
    requires 1 <= version <= 40 && IsSquare(m, Size(version))
    ensures Written(m, m, version, data, 0)
  {
    hide At, Path;
  }

  lemma RoomOnPath(version: nat, data: seq<bv8>)
    requires 1 <= version <= 40 && |data| == RawDataModules(version) / 8
    ensures 8 * |data| <= |Path(version)|
  {
    hide RawDataModules, Path, NoDuplicates;
    PathFacts(version);
  }

  lemma RowIs(size: nat, c: nat, v: nat, y: int)
    requires y == if c % 2 == 0 then size - 1 - v else v
    ensures y == RowOf(size, c, v)
  {}

  lemma IsFunctionAt(f: Grid, version: nat, x: int, y: int)
    requires 1 <= version <= 40 && IsFunctionMap(f, version) && 0 <= x < Size(version) && 0 <= y < Size(version)
    ensures At(f, x, y) == Taken(version, AlignmentPositions(version))(x, y)
  {
    hide At, Taken, AlignmentPositions, Size;
  }

  lemma BitsAt(data: seq<bv8>, i: nat)
    requires i < 8 * |data|
    ensures i / 8 < |data| && BitAt(data[i / 8], i % 8) == Bits(data)[i]
  {
    hide BitAt;
  }
}
