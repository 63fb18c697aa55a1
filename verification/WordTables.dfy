/** The words that carry format and version, as the standard prints them. */
module WordTables {
  import opened Versions
  import opened FormatWord
  import opened Patterns

  // ----- single bits

  /** The word with nothing but bit i. */
  function OneBit16(i: nat): bv16
    requires i < 15
  {
    match i
    case 0 => 0x1 case 1 => 0x2 case 2 => 0x4 case 3 => 0x8
    case 4 => 0x10 case 5 => 0x20 case 6 => 0x40 case 7 => 0x80
    case 8 => 0x100 case 9 => 0x200 case 10 => 0x400 case 11 => 0x800
    case 12 => 0x1000 case 13 => 0x2000 case _ => 0x4000
  }

  function OneBit32(i: nat): bv32
    requires i < 18
  {
    match i
    case 0 => 0x1 case 1 => 0x2 case 2 => 0x4 case 3 => 0x8
    case 4 => 0x10 case 5 => 0x20 case 6 => 0x40 case 7 => 0x80
    case 8 => 0x100 case 9 => 0x200 case 10 => 0x400 case 11 => 0x800
    case 12 => 0x1000 case 13 => 0x2000 case 14 => 0x4000 case 15 => 0x8000
    case 16 => 0x10000 case _ => 0x20000
  }

  predicate Shares16(u: bv16, m: bv16) { u & m != 0 }

  predicate Shares32(u: bv32, m: bv32) { u & m != 0 }

  function Rest32(u: bv32): bv32 { u >> (1 as bv32) }

  function Double32(u: bv32): bv32 { u << (1 as bv32) }

  lemma OneBitDoubles16(i: nat)
    requires 0 < i < 15
    ensures OneBit16(i) == Double(OneBit16(i - 1)) && OneBit16(i - 1) < 0x8000
  {}

  lemma HalfMask16(u: bv16, m: bv16)
    requires m < 0x8000
    ensures Shares16(Rest(u), m) <==> Shares16(u, Double(m))
  {}

  lemma OneBitDoubles32(i: nat)
    requires 0 < i < 18
    ensures OneBit32(i) == Double32(OneBit32(i - 1)) && OneBit32(i - 1) < 0x8000_0000
  {}

  lemma HalfMask32(u: bv32, m: bv32)
    requires m < 0x8000_0000
    ensures Shares32(Rest32(u), m) <==> Shares32(u, Double32(m))
  {}

  /** Bits are counted from the low end. */
  lemma {:induction false} BitMeans16(u: bv16, i: nat)
    requires i < 15
    ensures Bit16(u, i) <==> Shares16(u, OneBit16(i))
    decreases i
  {
    hide Rest, IsOdd, OneBit16, Double, Shares16;
    if i == 0 {
      LowBit16(u);
    } else {
      BitMeans16(Rest(u), i - 1);
      OneBitDoubles16(i);
      HalfMask16(u, OneBit16(i - 1));
    }
  }

  lemma LowBit16(u: bv16)
    ensures IsOdd(u) <==> Shares16(u, OneBit16(0))
  {}

  lemma {:induction false} BitMeans32(u: bv32, i: nat)
    requires i < 18
    ensures Bit32(u, i) <==> Shares32(u, OneBit32(i))
    decreases i
  {
    hide Bit32, Rest32, OneBit32, Double32, Shares32;
    Unfold32(u, i);
    if i > 0 {
      BitMeans32(Rest32(u), i - 1);
      OneBitDoubles32(i);
      HalfMask32(u, OneBit32(i - 1));
    }
  }

  lemma Unfold32(u: bv32, i: nat)
    ensures i == 0 ==> (Bit32(u, i) <==> Shares32(u, OneBit32(0)))
    ensures i > 0 ==> (Bit32(u, i) <==> Bit32(Rest32(u), i - 1))
  {}

  // ----- the divisions, a few steps at a time

  function Steps5(r: bv16): bv16 { BchStep(BchStep(BchStep(BchStep(BchStep(r))))) }

  lemma FiveSteps(r: bv16, n: nat)
    ensures Bch(r, n + 5) == Bch(Steps5(r), n)
  {
    hide BchStep;
    assert Bch(r, n + 5) == Bch(BchStep(BchStep(r)), n + 3);
    assert Bch(BchStep(BchStep(r)), n + 3) == Bch(BchStep(BchStep(BchStep(BchStep(r)))), n + 1);
  }

  lemma TenSteps(r: bv16)
    ensures Bch(r, 10) == Steps5(Steps5(r))
  {
    hide BchStep, Steps5;
    FiveSteps(r, 5); FiveSteps(Steps5(r), 0);
  }

  function Steps3(r: bv32): bv32 { VersionStep(VersionStep(VersionStep(r))) }

  lemma ThreeSteps(r: bv32, n: nat)
    ensures VersionRemainder(r, n + 3) == VersionRemainder(Steps3(r), n)
  {
    hide VersionStep;
    assert VersionRemainder(r, n + 3) == VersionRemainder(VersionStep(r), n + 2);
  }

  function Steps12(r: bv32): bv32 { Steps3(Steps3(Steps3(Steps3(r)))) }

  lemma TwelveSteps(r: bv32)
    ensures VersionRemainder(r, 12) == Steps12(r)
  {
    hide VersionStep, Steps3;
    var a := Steps3(r);
    var b := Steps3(a);
    ThreeSteps(r, 9); ThreeSteps(a, 6); ThreeSteps(b, 3); ThreeSteps(Steps3(b), 0);
  }

  // ----- format words

  /** The 15 bits for each level and mask (annex C of ISO/IEC 18004). */
  function FormatTable(ecl: Ecc, msk: nat): bv16
    requires msk < 8
  {
    match ecl
    case Low => Eighth(msk, 0x77C4, 0x72F3, 0x7DAA, 0x789D, 0x662F, 0x6318, 0x6C41, 0x6976)
    case Medium => Eighth(msk, 0x5412, 0x5125, 0x5E7C, 0x5B4B, 0x45F9, 0x40CE, 0x4F97, 0x4AA0)
    case Quartile => Eighth(msk, 0x355F, 0x3068, 0x3F31, 0x3A06, 0x24B4, 0x2183, 0x2EDA, 0x2BED)
    case High => Eighth(msk, 0x1689, 0x13BE, 0x1CE7, 0x19D0, 0x0762, 0x0255, 0x0D0C, 0x083B)
  }

  function Eighth(k: nat, a: bv16, b: bv16, c: bv16, d: bv16, e: bv16, f: bv16, g: bv16, h: bv16): bv16
    requires k < 8
  {
    match k case 0 => a case 1 => b case 2 => c case 3 => d case 4 => e case 5 => f case 6 => g case _ => h
  }

  predicate IsFormatWord(data: bv16, word: bv16) {
    Xor(JoinFormat(data, Steps5(Steps5(data))), 0x5412) == word
  }

  lemma LowWords0()
    ensures IsFormatWord(8, 0x77C4) && IsFormatWord(9, 0x72F3)
    ensures IsFormatWord(10, 0x7DAA) && IsFormatWord(11, 0x789D)
  {}

  lemma LowWords4()
    ensures IsFormatWord(12, 0x662F) && IsFormatWord(13, 0x6318)
    ensures IsFormatWord(14, 0x6C41) && IsFormatWord(15, 0x6976)
  {}

  lemma MediumWords0()
    ensures IsFormatWord(0, 0x5412) && IsFormatWord(1, 0x5125)
    ensures IsFormatWord(2, 0x5E7C) && IsFormatWord(3, 0x5B4B)
  {}

  lemma MediumWords4()
    ensures IsFormatWord(4, 0x45F9) && IsFormatWord(5, 0x40CE)
    ensures IsFormatWord(6, 0x4F97) && IsFormatWord(7, 0x4AA0)
  {}

  lemma QuartileWords0()
    ensures IsFormatWord(24, 0x355F) && IsFormatWord(25, 0x3068)
    ensures IsFormatWord(26, 0x3F31) && IsFormatWord(27, 0x3A06)
  {}

  lemma QuartileWords4()
    ensures IsFormatWord(28, 0x24B4) && IsFormatWord(29, 0x2183)
    ensures IsFormatWord(30, 0x2EDA) && IsFormatWord(31, 0x2BED)
  {}

  lemma HighWords0()
    ensures IsFormatWord(16, 0x1689) && IsFormatWord(17, 0x13BE)
    ensures IsFormatWord(18, 0x1CE7) && IsFormatWord(19, 0x19D0)
  {}

  lemma HighWords4()
    ensures IsFormatWord(20, 0x0762) && IsFormatWord(21, 0x0255)
    ensures IsFormatWord(22, 0x0D0C) && IsFormatWord(23, 0x083B)
  {}

  /** The format bits of the encoder are the published ones. */
  lemma FormatTabulated(ecl: Ecc, msk: nat)
    requires msk < 8
    ensures FormatBits(ecl, msk) == FormatTable(ecl, msk)
  {
    hide JoinFormat, Bch, Xor, Steps5, IsFormatWord, FormatData, FormatTable;
    FormatWordOf(ecl, msk);
    TenSteps(FormatData(ecl, msk));
    IsFormatMeans(FormatData(ecl, msk), FormatTable(ecl, msk));
  }

  lemma IsFormatMeans(data: bv16, word: bv16)
    requires IsFormatWord(data, word)
    ensures Xor(JoinFormat(data, Steps5(Steps5(data))), 0x5412) == word
  {
    hide Xor, JoinFormat, Steps5;
  }

  lemma FormatWordOf(ecl: Ecc, msk: nat)
    requires msk < 8
    ensures IsFormatWord(FormatData(ecl, msk), FormatTable(ecl, msk))
  {
    hide IsFormatWord, FormatData;
    match ecl
    case Low => LowData(msk); LowWords0(); LowWords4();
    case Medium => MediumData(msk); MediumWords0(); MediumWords4();
    case Quartile => QuartileData(msk); QuartileWords0(); QuartileWords4();
    case High => HighData(msk); HighWords0(); HighWords4();
  }

  lemma LowData(msk: nat)
    requires msk < 8
    ensures FormatData(Low, msk) == Eighth(msk, 8, 9, 10, 11, 12, 13, 14, 15)
  {}

  lemma MediumData(msk: nat)
    requires msk < 8
    ensures FormatData(Medium, msk) == Eighth(msk, 0, 1, 2, 3, 4, 5, 6, 7)
  {}

  lemma QuartileData(msk: nat)
    requires msk < 8
    ensures FormatData(Quartile, msk) == Eighth(msk, 24, 25, 26, 27, 28, 29, 30, 31)
  {}

  lemma HighData(msk: nat)
    requires msk < 8
    ensures FormatData(High, msk) == Eighth(msk, 16, 17, 18, 19, 20, 21, 22, 23)
  {}

  // ----- version words

  /** The 18 bits for each version from 7 on (annex D of ISO/IEC 18004). */
  function VersionTable(version: nat): bv32
    requires 7 <= version <= 40
  {
    match version
    case 7 => 0x07C94 case 8 => 0x085BC case 9 => 0x09A99 case 10 => 0x0A4D3
    case 11 => 0x0BBF6 case 12 => 0x0C762 case 13 => 0x0D847 case 14 => 0x0E60D
    case 15 => 0x0F928 case 16 => 0x10B78 case 17 => 0x1145D case 18 => 0x12A17
    case 19 => 0x13532 case 20 => 0x149A6 case 21 => 0x15683 case 22 => 0x168C9
    case 23 => 0x177EC case 24 => 0x18EC4 case 25 => 0x191E1 case 26 => 0x1AFAB
    case 27 => 0x1B08E case 28 => 0x1CC1A case 29 => 0x1D33F case 30 => 0x1ED75
    case 31 => 0x1F250 case 32 => 0x209D5 case 33 => 0x216F0 case 34 => 0x228BA
    case 35 => 0x2379F case 36 => 0x24B0B case 37 => 0x2542E case 38 => 0x26A64
    case 39 => 0x27541 case _ => 0x28C69
  }

  function VersionNumber(version: nat): bv32
    requires 7 <= version <= 40
  {
    match version
    case 7 => 7 case 8 => 8 case 9 => 9 case 10 => 10 case 11 => 11 case 12 => 12 case 13 => 13 case 14 => 14
    case 15 => 15 case 16 => 16 case 17 => 17 case 18 => 18 case 19 => 19 case 20 => 20 case 21 => 21 case 22 => 22
    case 23 => 23 case 24 => 24 case 25 => 25 case 26 => 26 case 27 => 27 case 28 => 28 case 29 => 29 case 30 => 30
    case 31 => 31 case 32 => 32 case 33 => 33 case 34 => 34 case 35 => 35 case 36 => 36 case 37 => 37 case 38 => 38
    case 39 => 39 case _ => 40
  }

  lemma Number7(version: nat)
    requires 7 <= version < 13
    ensures version as bv32 == VersionNumber(version)
  {}

  lemma Number13(version: nat)
    requires 13 <= version < 19
    ensures version as bv32 == VersionNumber(version)
  {}

  lemma Number19(version: nat)
    requires 19 <= version < 25
    ensures version as bv32 == VersionNumber(version)
  {}

  lemma Number25(version: nat)
    requires 25 <= version < 31
    ensures version as bv32 == VersionNumber(version)
  {}

  lemma Number31(version: nat)
    requires 31 <= version < 37
    ensures version as bv32 == VersionNumber(version)
  {}

  lemma Number37(version: nat)
    requires 37 <= version < 41
    ensures version as bv32 == VersionNumber(version)
  {}

  predicate IsVersionWord(v: bv32, word: bv32) {
    JoinVersion(v, Steps12(v)) == word
  }

  lemma Versions7()
    ensures IsVersionWord(7, 0x07C94) && IsVersionWord(8, 0x085BC)
    ensures IsVersionWord(9, 0x09A99) && IsVersionWord(10, 0x0A4D3)
  {}

  lemma Versions11()
    ensures IsVersionWord(11, 0x0BBF6) && IsVersionWord(12, 0x0C762)
    ensures IsVersionWord(13, 0x0D847) && IsVersionWord(14, 0x0E60D)
  {}

  lemma Versions15()
    ensures IsVersionWord(15, 0x0F928) && IsVersionWord(16, 0x10B78)
    ensures IsVersionWord(17, 0x1145D) && IsVersionWord(18, 0x12A17)
  {}

  lemma Versions19()
    ensures IsVersionWord(19, 0x13532) && IsVersionWord(20, 0x149A6)
    ensures IsVersionWord(21, 0x15683) && IsVersionWord(22, 0x168C9)
  {}

  lemma Versions23()
    ensures IsVersionWord(23, 0x177EC) && IsVersionWord(24, 0x18EC4)
    ensures IsVersionWord(25, 0x191E1) && IsVersionWord(26, 0x1AFAB)
  {}

  lemma Versions27()
    ensures IsVersionWord(27, 0x1B08E) && IsVersionWord(28, 0x1CC1A)
    ensures IsVersionWord(29, 0x1D33F) && IsVersionWord(30, 0x1ED75)
  {}

  lemma Versions31()
    ensures IsVersionWord(31, 0x1F250) && IsVersionWord(32, 0x209D5)
    ensures IsVersionWord(33, 0x216F0) && IsVersionWord(34, 0x228BA)
  {}

  lemma Versions35()
    ensures IsVersionWord(35, 0x2379F) && IsVersionWord(36, 0x24B0B)
    ensures IsVersionWord(37, 0x2542E) && IsVersionWord(38, 0x26A64)
  {}

  lemma Versions39()
    ensures IsVersionWord(39, 0x27541) && IsVersionWord(40, 0x28C69)
  {}

  /** The version bits of the encoder are the published ones. */
  lemma VersionTabulated(version: nat)
    requires 7 <= version <= 40
    ensures VersionWord(version as bv32) == VersionTable(version)
  {
    hide JoinVersion, VersionRemainder, Steps12, IsVersionWord, VersionTable, VersionNumber;
    var v := VersionNumber(version);
    NumberIs(version);
    VersionWordOf(version);
    TwelveSteps(v);
    IsVersionMeans(v, VersionTable(version));
  }

  lemma NumberIs(version: nat)
    requires 7 <= version <= 40
    ensures version as bv32 == VersionNumber(version)
  {
    hide VersionNumber;
    if version < 13 { Number7(version); }
    else if version < 19 { Number13(version); }
    else if version < 25 { Number19(version); }
    else if version < 31 { Number25(version); }
    else if version < 37 { Number31(version); }
    else { Number37(version); }
  }

  lemma IsVersionMeans(v: bv32, word: bv32)
    requires IsVersionWord(v, word)
    ensures JoinVersion(v, Steps12(v)) == word
  {
    hide JoinVersion, Steps12;
  }

  lemma VersionWords7(version: nat)
    requires 7 <= version < 11
    ensures IsVersionWord(VersionNumber(version), VersionTable(version))
  {
    hide IsVersionWord;
    Versions7();
    assert version == 7 || version == 8 || version == 9 || version == 10;
  }

  lemma VersionWords11(version: nat)
    requires 11 <= version < 15
    ensures IsVersionWord(VersionNumber(version), VersionTable(version))
  {
    hide IsVersionWord;
    Versions11();
    assert version == 11 || version == 12 || version == 13 || version == 14;
  }

  lemma VersionWords15(version: nat)
    requires 15 <= version < 19
    ensures IsVersionWord(VersionNumber(version), VersionTable(version))
  {
    hide IsVersionWord;
    Versions15();
    assert version == 15 || version == 16 || version == 17 || version == 18;
  }

  lemma VersionWords19(version: nat)
    requires 19 <= version < 23
    ensures IsVersionWord(VersionNumber(version), VersionTable(version))
  {
    hide IsVersionWord;
    Versions19();
    assert version == 19 || version == 20 || version == 21 || version == 22;
  }

  lemma VersionWords23(version: nat)
    requires 23 <= version < 27
    ensures IsVersionWord(VersionNumber(version), VersionTable(version))
  {
    hide IsVersionWord;
    Versions23();
    assert version == 23 || version == 24 || version == 25 || version == 26;
  }

  lemma VersionWords27(version: nat)
    requires 27 <= version < 31
    ensures IsVersionWord(VersionNumber(version), VersionTable(version))
  {
    hide IsVersionWord;
    Versions27();
    assert version == 27 || version == 28 || version == 29 || version == 30;
  }

  lemma VersionWords31(version: nat)
    requires 31 <= version < 35
    ensures IsVersionWord(VersionNumber(version), VersionTable(version))
  {
    hide IsVersionWord;
    Versions31();
    assert version == 31 || version == 32 || version == 33 || version == 34;
  }

  lemma VersionWords35(version: nat)
    requires 35 <= version < 39
    ensures IsVersionWord(VersionNumber(version), VersionTable(version))
  {
    hide IsVersionWord;
    Versions35();
    assert version == 35 || version == 36 || version == 37 || version == 38;
  }

  lemma VersionWords39(version: nat)
    requires 39 <= version < 41
    ensures IsVersionWord(VersionNumber(version), VersionTable(version))
  {
    hide IsVersionWord;
    Versions39();
    assert version == 39 || version == 40;
  }

  lemma VersionWordOf(version: nat)
    requires 7 <= version <= 40
    ensures IsVersionWord(VersionNumber(version), VersionTable(version))
  {
    hide IsVersionWord, VersionTable, VersionNumber;
    if version < 11 { VersionWords7(version); }
    else if version < 15 { VersionWords11(version); }
    else if version < 19 { VersionWords15(version); }
    else if version < 23 { VersionWords19(version); }
    else if version < 27 { VersionWords23(version); }
    else if version < 31 { VersionWords27(version); }
    else if version < 35 { VersionWords31(version); }
    else if version < 39 { VersionWords35(version); }
    else { VersionWords39(version); }
  }
}
