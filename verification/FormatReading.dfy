/** How the decoder reads the format word of a symbol. */
module FormatReading {
  import opened Versions
  import opened Grids
  import opened CellBitmap
  import opened FormatWord
  import opened Patterns
  import opened Results

  /** The decoder's tables of the cells of the first copy, by bit. */
  function FormatXs(i: int): int {
    match i
    case 0 => 8 case 1 => 8 case 2 => 8 case 3 => 8 case 4 => 8 case 5 => 8 case 6 => 8 case 7 => 8
    case 8 => 7 case 9 => 5 case 10 => 4 case 11 => 3 case 12 => 2 case 13 => 1 case _ => 0
  }

  function FormatYs(i: int): int {
    match i
    case 0 => 0 case 1 => 1 case 2 => 2 case 3 => 3 case 4 => 4 case 5 => 5 case 6 => 7 case 7 => 8
    case 8 => 8 case 9 => 8 case 10 => 8 case 11 => 8 case 12 => 8 case 13 => 8 case _ => 8
  }

  /** The column of bit j in the chosen copy. */
  function BitX(size: int, second: bool, j: int): int {
    if second then (if j < 8 then size - 1 - j else 8) else FormatXs(j)
  }

  function BitY(size: int, second: bool, j: int): int {
    if second then (if j < 8 then 8 else size - 15 + j) else FormatYs(j)
  }

  /** The decoder looks for every bit where the encoder drew it. */
  lemma BitPlaces(size: int, j: int)
    requires size >= 21 && 0 <= j < 15
    ensures FirstFormatCell(BitX(size, false, j), BitY(size, false, j))
        && FirstFormatBit(BitX(size, false, j), BitY(size, false, j)) == j
    ensures SecondFormatCell(size, BitX(size, true, j), BitY(size, true, j))
            && SecondFormatBit(size, BitX(size, true, j), BitY(size, true, j)) == j
    ensures forall second :: 0 <= BitX(size, second, j) < size && 0 <= BitY(size, second, j) < size
  {}

  ghost predicate HoldsFormat(u: bv16, g: Grid, size: int, second: bool) {
    Fits(u, 15) && forall j | 0 <= j < 15 :: Bit16(u, j) == At(g, BitX(size, second, j), BitY(size, second, j))
  }

  /** The upper n bits are in place. */
  ghost predicate HoldsUpper(u: bv16, g: Grid, size: int, second: bool, n: nat) {
    n <= 15 && Fits(u, n) &&
    forall k | 0 <= k < n :: Bit16(u, k) == At(g, BitX(size, second, 15 - n + k), BitY(size, second, 15 - n + k))
  }

  lemma DoubleBelow(u: bv16, m: bv16)
    requires Below(m, 0x8000) && Below(u, m)
    ensures Below(Double(u), Double(m))
  {}

  lemma DoubleOneBelow(u: bv16, m: bv16)
    requires Below(m, 0x8000) && Below(u, m)
    ensures Below(Double(u) | 1, Double(m))
  {}

  lemma SmallBelow(u: bv16, m: bv16)
    requires Below(m, 0x8000) && Below(u, m)
    ensures u < 0x8000
  {}

  lemma AppendBelow(u: bv16, b: bool, m: bv16)
    requires Below(m, 0x8000) && Below(u, m)
    ensures Below(Append(u, b), Double(m))
  {
    hide Below, Double;
    if b { DoubleOneBelow(u, m); } else { DoubleBelow(u, m); }
  }

  lemma MaskBelow(n: nat)
    requires n < 15
    ensures Below(Mask16(n), 0x8000)
  {
    hide Mask16;
    MaskSize(n);
  }

  lemma AppendFits(u: bv16, b: bool, n: nat)
    requires n < 15 && Fits(u, n)
    ensures Fits(Append(u, b), n + 1) && u < 0x8000
  {
    hide Below, Double, Mask16, Append;
    MaskBelow(n);
    MaskParts(n);
    AppendBelow(u, b, Mask16(n));
    SmallBelow(u, Mask16(n));
  }

  lemma ReadsOne(u: bv16, g: Grid, size: int, second: bool, n: nat, b: bool)
    requires n < 15 && HoldsUpper(u, g, size, second, n) && b == At(g, BitX(size, second, 14 - n),
        BitY(size, second, 14 - n))
    ensures HoldsUpper(Append(u, b), g, size, second, n + 1)
  {
    hide Bit16, Append, At, BitX, BitY, Fits;
    AppendFits(u, b, n);
    forall k | 0 <= k < n + 1
      ensures Bit16(Append(u, b), k) == At(g, BitX(size, second, 14 - n + k), BitY(size, second, 14 - n + k))
    {
      AppendBit(u, b, if k == 0 then 0 else k - 1);
    }
  }

  /** The upper n bits of the word that a copy shows. */
  ghost function UpperBits(g: Grid, size: int, second: bool, n: nat): bv16 {
    if n == 0 then 0
    else Append(UpperBits(g, size, second, n - 1), At(g, BitX(size, second, 15 - n), BitY(size, second, 15 - n)))
  }

  ghost function ShownWord(g: Grid, size: int, second: bool): bv16 {
    UpperBits(g, size, second, 15)
  }

  lemma {:induction false} UpperBitsHold(g: Grid, size: int, second: bool, n: nat)
    requires n <= 15
    ensures HoldsUpper(UpperBits(g, size, second, n), g, size, second, n)
  {
    hide Append, HoldsUpper, At, BitX, BitY;
    if n > 0 {
      UpperBitsHold(g, size, second, n - 1);
      ReadsOne(UpperBits(g, size, second, n - 1), g, size, second, n - 1,
               At(g, BitX(size, second, 15 - n), BitY(size, second, 15 - n)));
    } else {
      NothingRead(g, size, second);
    }
  }

  lemma NothingRead(g: Grid, size: int, second: bool)
    ensures HoldsUpper(0, g, size, second, 0)
  {}

  /** Its bits are the 15 cells of the copy. */
  lemma ShownWordHolds(g: Grid, size: int, second: bool)
    ensures HoldsFormat(ShownWord(g, size, second), g, size, second)
  {
    hide HoldsFormat, HoldsUpper, UpperBits;
    UpperBitsHold(g, size, second, 15);
    AllRead(ShownWord(g, size, second), g, size, second);
  }

  /** Reads the 15 cells of the first or second copy. */
  method ReadFormatCells(code: Code, second: bool) returns (format: bv16)
    requires code.Valid() && 21 <= code.size <= MAX_GRID_SIZE
    ensures format == ShownWord(code.Grid(), code.size, second)
  {
    hide Append, At, BitX, BitY, Code.Grid, FormatXs, FormatYs;
    ghost var g := code.Grid();
    format := 0;
    if second {
      for i := 0 to 7
        invariant format == UpperBits(g, code.size, true, i)
      {
        SecondPlace(code.size, 14 - i);
        var bit := code.GridBit(8, code.size - 1 - i);
        format := Append(format, bit);
      }
      for i := 0 to 8
        invariant format == UpperBits(g, code.size, true, 7 + i)
      {
        SecondPlace(code.size, 7 - i);
        var bit := code.GridBit(code.size - 8 + i, 8);
        format := Append(format, bit);
      }
    } else {
      var i := 15;
      while i > 0
        invariant 0 <= i <= 15 && format == UpperBits(g, code.size, false, 15 - i)
      {
        i := i - 1;
        FirstPlace(code.size, i);
        var bit := code.GridBit(FormatXs(i), FormatYs(i));
        format := Append(format, bit);
      }
    }
  }

  lemma FirstPlace(size: int, i: int)
    requires 0 <= i < 15 && size >= 21
    ensures BitX(size, false, i) == FormatXs(i) && BitY(size, false, i) == FormatYs(i)
    ensures 0 <= FormatXs(i) < size && 0 <= FormatYs(i) < size
  {}

  lemma SecondPlace(size: int, i: int)
    requires 0 <= i < 15 && size >= 21
    ensures BitX(size, true, i) == (if i < 8 then size - 1 - i else 8)
        && BitY(size, true, i) == (if i < 8 then 8 else size - 15 + i)
  {}

  lemma AllRead(u: bv16, g: Grid, size: int, second: bool)
    requires HoldsUpper(u, g, size, second, 15)
    ensures HoldsFormat(u, g, size, second)
  {
    hide Bit16, At, BitX, BitY, Fits;
    forall j | 0 <= j < 15 ensures Bit16(u, j) == At(g, BitX(size, second, j), BitY(size, second, j)) {
      assert 15 - 15 + j == j;
    }
  }

  // ----- what a format word says

  function LevelOf(f: bv16): nat { ((f >> (10 as bv16)) >> (3 as bv16)) as nat }

  function MaskNumber(f: bv16): nat { ((f >> (10 as bv16)) & 7) as nat }

  lemma FieldRanges(f: bv16)
    requires Fits(f, 15)
    ensures LevelOf(f) < 4 && MaskNumber(f) < 8
  {
    Fits15(f);
    SmallFields(f);
  }

  lemma SmallFields(f: bv16)
    requires f < 0x8000
    ensures LevelOf(f) < 4 && MaskNumber(f) < 8
  {
    hide Fits, FormatCode;
    assert (f >> (10 as bv16)) >> (3 as bv16) < 4;
    assert (f >> (10 as bv16)) & 7 < 8;
  }

  function DataLevel(d: bv16): nat { (d >> (3 as bv16)) as nat }

  function DataMask(d: bv16): nat { (d & 7) as nat }

  lemma LowParts(msk: nat)
    requires msk < 8
    ensures var d := FormatData(Low, msk); d < 32 && DataLevel(d) == 1 && DataMask(d) == msk
  {}

  lemma MediumParts(msk: nat)
    requires msk < 8
    ensures var d := FormatData(Medium, msk); d < 32 && DataLevel(d) == 0 && DataMask(d) == msk
  {}

  lemma QuartileParts(msk: nat)
    requires msk < 8
    ensures var d := FormatData(Quartile, msk); d < 32 && DataLevel(d) == 3 && DataMask(d) == msk
  {}

  lemma HighParts(msk: nat)
    requires msk < 8
    ensures var d := FormatData(High, msk); d < 32 && DataLevel(d) == 2 && DataMask(d) == msk
  {}

  lemma CodeFields(ecl: Ecc, msk: nat)
    requires msk < 8
    ensures FormatData(ecl, msk) < 32
    ensures LevelOf(FormatCode(FormatData(ecl, msk))) == ecl.FormatBits()
    ensures MaskNumber(FormatCode(FormatData(ecl, msk))) == msk
  {
    hide FormatCode, FormatData;
    DataParts(ecl, msk);
    FormatCodeParts(FormatData(ecl, msk));
  }

  lemma DataParts(ecl: Ecc, msk: nat)
    requires msk < 8
    ensures FormatData(ecl, msk) < 32 && DataLevel(FormatData(ecl, msk)) == ecl.FormatBits()
        && DataMask(FormatData(ecl, msk)) == msk
  {
    hide FormatData, DataLevel, DataMask;
    match ecl
    case Low => LowParts(msk);
    case Medium => MediumParts(msk);
    case Quartile => QuartileParts(msk);
    case High => HighParts(msk);
  }

  // ----- tolerating wrong cells

  /** In how many of the first n cells the copy differs from the given bits. */
  ghost function FormatDistance(g: Grid, size: int, second: bool, bits: bv16, n: nat): nat {
    if n == 0 then 0
    else FormatDistance(g, size, second, bits, n - 1) +
         (if At(g, BitX(size, second, n - 1), BitY(size, second, n - 1)) == Bit16(bits, n - 1) then 0 else 1)
  }

  lemma {:induction false} DistanceIsWrongBits(u: bv16, w: bv16, c: bv16, g: Grid, size: int, second: bool, n: nat)
    requires HoldsFormat(u, g, size, second) && n <= 15
    ensures FormatDistance(g, size, second, Xor(w, c), n) == |WrongBits(Xor(u, c), w, n)|
  {
    hide Xor, Bit16, At, BitX, BitY, Fits;
    if n > 0 {
      DistanceIsWrongBits(u, w, c, g, size, second, n - 1);
      XorBit(u, c, n - 1);
      XorBit(w, c, n - 1);
    }
  }

  /** At most three cells of the copy are wrong. */
  ghost predicate NearFormat(g: Grid, size: int, second: bool, ecl: Ecc, msk: nat)
    requires msk < 8
  {
    FormatDistance(g, size, second, FormatBits(ecl, msk), 15) <= 3
  }

  lemma Unmasked(u: bv16)
    requires Fits(u, 15)
    ensures Fits(Xor(u, 0x5412), 15)
  {
    hide Fits;
    Fits15(u);
    Fits15(Xor(u, 0x5412));
    XorSmall(u, 0x5412);
  }

  /** What the decoder makes of one copy. */
  ghost function FormatOf(g: Grid, size: int, second: bool): bv16 {
    FixedFormat(Xor(ShownWord(g, size, second), 0x5412))
  }

  /** The copy cannot be corrected. */
  ghost predicate FormatLost(g: Grid, size: int, second: bool) {
    !Vanishes(FormatOf(g, size, second))
  }

  /** What the decoder takes for the format: the first copy, or the second if the first is lost. */
  ghost function AnyFormat(g: Grid, size: int): bv16 {
    FormatOf(g, size, FormatLost(g, size, false))
  }

  /** The format that the decoder gets from the grid has the given level and mask. */
  ghost predicate ReadsFormat(g: Grid, size: int, ecl: Ecc, msk: nat) {
    && !(FormatLost(g, size, false) && FormatLost(g, size, true))
    && LevelOf(AnyFormat(g, size)) == ecl.FormatBits() && MaskNumber(AnyFormat(g, size)) == msk
  }

  /** Up to three wrong cells in a copy do no harm. */
  lemma NearIsRead(g: Grid, size: int, second: bool, ecl: Ecc, msk: nat)
    requires msk < 8 && NearFormat(g, size, second, ecl, msk)
    ensures FormatOf(g, size, second) == FormatCode(FormatData(ecl, msk)) && !FormatLost(g, size, second)
    ensures LevelOf(FormatOf(g, size, second)) == ecl.FormatBits() && MaskNumber(FormatOf(g, size, second)) == msk
  {
    hide ShownWord, HoldsFormat, NearFormat, FormatCode, FormatData, Xor, WrongBits, IsFormatCode, Vanishes,
      FixedFormat, Fits, LevelOf, MaskNumber;
    var u := ShownWord(g, size, second);
    ShownWordHolds(g, size, second);
    HeldFits(u, g, size, second);
    Unmasked(u);
    NearIsCorrected(u, g, size, second, ecl, msk);
    FixedIsNearest(Xor(u, 0x5412), FormatCode(FormatData(ecl, msk)));
    CodeFields(ecl, msk);
  }

  /** A near second copy serves when the first is lost. */
  lemma NearReads(g: Grid, size: int, ecl: Ecc, msk: nat)
    requires msk < 8
    requires NearFormat(g, size, false, ecl, msk) || (FormatLost(g, size, false) && NearFormat(g, size, true, ecl, msk))
    ensures ReadsFormat(g, size, ecl, msk)
  {
    hide NearFormat, FormatOf, FormatLost, FormatCode, LevelOf, MaskNumber;
    NearIsRead(g, size, !NearFormat(g, size, false, ecl, msk), ecl, msk);
  }

  /** Reads level and mask from one copy of the format bits. */
  method ReadFormat(code: Code, data: QuircData, second: bool) returns (outcome: DecodeError)
    requires code.Valid() && 21 <= code.size <= MAX_GRID_SIZE
    modifies data`eccLevel, data`mask
    ensures outcome == if FormatLost(code.Grid(), code.size, second) then FormatEcc else Success
    ensures outcome == Success ==> data.eccLevel == LevelOf(FormatOf(code.Grid(), code.size, second)) < 4
    ensures outcome == Success ==> data.mask == MaskNumber(FormatOf(code.Grid(), code.size, second)) < 8
    ensures forall ecl, msk | msk < 8 && NearFormat(code.Grid(), code.size, second, ecl, msk) ::
              outcome == Success && data.eccLevel == ecl.FormatBits() && data.mask == msk
  {
    hide *;
    var format := ReadFormatCells(code, second);
    ghost var g, size := code.Grid(), code.size;
    ShownWordHolds(g, size, second);
    HeldFits(format, g, size, second);
    Unmasked(format);
    format := Xor(format, 0x5412);
    var result, fixed := CorrectFormat(format);
    LostMeans(g, size, second);
    forall ecl, msk | msk < 8 && NearFormat(g, size, second, ecl, msk)
      ensures result.Success? && LevelOf(fixed) == ecl.FormatBits() && MaskNumber(fixed) == msk
    {
      NearIsRead(g, size, second, ecl, msk);
    }
    if result.FormatEcc? {
      return FormatEcc;
    }
    FieldRanges(fixed);
    data.eccLevel := LevelOf(fixed);
    data.mask := MaskNumber(fixed);
    return Success;
  }

  lemma LostMeans(g: Grid, size: int, second: bool)
    ensures FormatOf(g, size, second) == FixedFormat(Xor(ShownWord(g, size, second), 0x5412))
    ensures FormatLost(g, size, second) <==> !Vanishes(FormatOf(g, size, second))
  {
    hide ShownWord, Xor, FixedFormat, Vanishes;
  }

  lemma HeldFits(u: bv16, g: Grid, size: int, second: bool)
    requires HoldsFormat(u, g, size, second)
    ensures Fits(u, 15)
  {
    hide Fits;
  }

  lemma NearIsCorrected(u: bv16, g: Grid, size: int, second: bool, ecl: Ecc, msk: nat)
    requires HoldsFormat(u, g, size, second) && msk < 8 && NearFormat(g, size, second, ecl, msk)
    ensures IsFormatCode(FormatCode(FormatData(ecl, msk)))
    ensures |WrongBits(Xor(u, 0x5412), FormatCode(FormatData(ecl, msk)), 15)| <= 3
  {
    hide FormatCode, FormatData, Xor, HoldsFormat, FormatDistance, IsFormatCode, WrongBits;
    CodeFields(ecl, msk);
    EncoderWordIsCode(FormatData(ecl, msk));
    DistanceIsWrongBits(u, FormatCode(FormatData(ecl, msk)), 0x5412, g, size, second, 15);
  }
}
