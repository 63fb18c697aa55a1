/** The tables of both programs: the encoder's block counts and check bytes per block, and the
    decoder's version database. */
module Versions {
  datatype Ecc = Low | Medium | Quartile | High {
    /** The two-bit level number in the format word; it indexes the decoder's database. */
    function FormatBits(): nat {
      match this
      case Low => 1
      case Medium => 0
      case Quartile => 3
      case High => 2
    }
  }

  // ----- encoder

  function EccPerBlockLow(ver: nat): nat
    requires 1 <= ver <= 40
  {
    match ver
    case 1 => 7 case 2 => 10 case 3 => 15 case 4 => 20 case 5 => 26 case 6 => 18 case 7 => 20 case 8 => 24
    case 9 => 30 case 10 => 18 case 11 => 20 case 12 => 24 case 13 => 26 case 14 => 30 case 15 => 22 case 16 => 24
    case 17 => 28 case 18 => 30 case 19 => 28 case 20 => 28 case 21 => 28 case 22 => 28 case 23 => 30 case 24 => 30
    case 25 => 26 case 26 => 28 case 27 => 30 case 28 => 30 case 29 => 30 case 30 => 30 case 31 => 30 case 32 => 30
    case 33 => 30 case 34 => 30 case 35 => 30 case 36 => 30 case 37 => 30 case 38 => 30 case 39 => 30 case _ => 30
  }

  function EccPerBlockMedium(ver: nat): nat
    requires 1 <= ver <= 40
  {
    match ver
    case 1 => 10 case 2 => 16 case 3 => 26 case 4 => 18 case 5 => 24 case 6 => 16 case 7 => 18 case 8 => 22
    case 9 => 22 case 10 => 26 case 11 => 30 case 12 => 22 case 13 => 22 case 14 => 24 case 15 => 24 case 16 => 28
    case 17 => 28 case 18 => 26 case 19 => 26 case 20 => 26 case 21 => 26 case 22 => 28 case 23 => 28 case 24 => 28
    case 25 => 28 case 26 => 28 case 27 => 28 case 28 => 28 case 29 => 28 case 30 => 28 case 31 => 28 case 32 => 28
    case 33 => 28 case 34 => 28 case 35 => 28 case 36 => 28 case 37 => 28 case 38 => 28 case 39 => 28 case _ => 28
  }

  function EccPerBlockQuartile(ver: nat): nat
    requires 1 <= ver <= 40
  {
    match ver
    case 1 => 13 case 2 => 22 case 3 => 18 case 4 => 26 case 5 => 18 case 6 => 24 case 7 => 18 case 8 => 22
    case 9 => 20 case 10 => 24 case 11 => 28 case 12 => 26 case 13 => 24 case 14 => 20 case 15 => 30 case 16 => 24
    case 17 => 28 case 18 => 28 case 19 => 26 case 20 => 30 case 21 => 28 case 22 => 30 case 23 => 30 case 24 => 30
    case 25 => 30 case 26 => 28 case 27 => 30 case 28 => 30 case 29 => 30 case 30 => 30 case 31 => 30 case 32 => 30
    case 33 => 30 case 34 => 30 case 35 => 30 case 36 => 30 case 37 => 30 case 38 => 30 case 39 => 30 case _ => 30
  }

  function EccPerBlockHigh(ver: nat): nat
    requires 1 <= ver <= 40
  {
    match ver
    case 1 => 17 case 2 => 28 case 3 => 22 case 4 => 16 case 5 => 22 case 6 => 28 case 7 => 26 case 8 => 26
    case 9 => 24 case 10 => 28 case 11 => 24 case 12 => 28 case 13 => 22 case 14 => 24 case 15 => 24 case 16 => 30
    case 17 => 28 case 18 => 28 case 19 => 26 case 20 => 28 case 21 => 30 case 22 => 24 case 23 => 30 case 24 => 30
    case 25 => 30 case 26 => 30 case 27 => 30 case 28 => 30 case 29 => 30 case 30 => 30 case 31 => 30 case 32 => 30
    case 33 => 30 case 34 => 30 case 35 => 30 case 36 => 30 case 37 => 30 case 38 => 30 case 39 => 30 case _ => 30
  }

  function NumBlocksLow(ver: nat): nat
    requires 1 <= ver <= 40
  {
    match ver
    case 1 => 1 case 2 => 1 case 3 => 1 case 4 => 1 case 5 => 1 case 6 => 2 case 7 => 2 case 8 => 2
    case 9 => 2 case 10 => 4 case 11 => 4 case 12 => 4 case 13 => 4 case 14 => 4 case 15 => 6 case 16 => 6
    case 17 => 6 case 18 => 6 case 19 => 7 case 20 => 8 case 21 => 8 case 22 => 9 case 23 => 9 case 24 => 10
    case 25 => 12 case 26 => 12 case 27 => 12 case 28 => 13 case 29 => 14 case 30 => 15 case 31 => 16 case 32 => 17
    case 33 => 18 case 34 => 19 case 35 => 19 case 36 => 20 case 37 => 21 case 38 => 22 case 39 => 24 case _ => 25
  }

  function NumBlocksMedium(ver: nat): nat
    requires 1 <= ver <= 40
  {
    match ver
    case 1 => 1 case 2 => 1 case 3 => 1 case 4 => 2 case 5 => 2 case 6 => 4 case 7 => 4 case 8 => 4
    case 9 => 5 case 10 => 5 case 11 => 5 case 12 => 8 case 13 => 9 case 14 => 9 case 15 => 10 case 16 => 10
    case 17 => 11 case 18 => 13 case 19 => 14 case 20 => 16 case 21 => 17 case 22 => 17 case 23 => 18 case 24 => 20
    case 25 => 21 case 26 => 23 case 27 => 25 case 28 => 26 case 29 => 28 case 30 => 29 case 31 => 31 case 32 => 33
    case 33 => 35 case 34 => 37 case 35 => 38 case 36 => 40 case 37 => 43 case 38 => 45 case 39 => 47 case _ => 49
  }

  function NumBlocksQuartile(ver: nat): nat
    requires 1 <= ver <= 40
  {
    match ver
    case 1 => 1 case 2 => 1 case 3 => 2 case 4 => 2 case 5 => 4 case 6 => 4 case 7 => 6 case 8 => 6
    case 9 => 8 case 10 => 8 case 11 => 8 case 12 => 10 case 13 => 12 case 14 => 16 case 15 => 12 case 16 => 17
    case 17 => 16 case 18 => 18 case 19 => 21 case 20 => 20 case 21 => 23 case 22 => 23 case 23 => 25 case 24 => 27
    case 25 => 29 case 26 => 34 case 27 => 34 case 28 => 35 case 29 => 38 case 30 => 40 case 31 => 43 case 32 => 45
    case 33 => 48 case 34 => 51 case 35 => 53 case 36 => 56 case 37 => 59 case 38 => 62 case 39 => 65 case _ => 68
  }

  function NumBlocksHigh(ver: nat): nat
    requires 1 <= ver <= 40
  {
    match ver
    case 1 => 1 case 2 => 1 case 3 => 2 case 4 => 4 case 5 => 4 case 6 => 4 case 7 => 5 case 8 => 6
    case 9 => 8 case 10 => 8 case 11 => 11 case 12 => 11 case 13 => 16 case 14 => 16 case 15 => 18 case 16 => 16
    case 17 => 19 case 18 => 21 case 19 => 25 case 20 => 25 case 21 => 25 case 22 => 34 case 23 => 30 case 24 => 32
    case 25 => 35 case 26 => 37 case 27 => 40 case 28 => 42 case 29 => 45 case 30 => 48 case 31 => 51 case 32 => 54
    case 33 => 57 case 34 => 60 case 35 => 63 case 36 => 66 case 37 => 70 case 38 => 74 case 39 => 77 case _ => 81
  }

  function EccPerBlock(ecl: Ecc, ver: nat): nat
    requires 1 <= ver <= 40
  {
    match ecl
    case Low => EccPerBlockLow(ver)
    case Medium => EccPerBlockMedium(ver)
    case Quartile => EccPerBlockQuartile(ver)
    case High => EccPerBlockHigh(ver)
  }

  function NumBlocks(ecl: Ecc, ver: nat): nat
    requires 1 <= ver <= 40
  {
    match ecl
    case Low => NumBlocksLow(ver)
    case Medium => NumBlocksMedium(ver)
    case Quartile => NumBlocksQuartile(ver)
    case High => NumBlocksHigh(ver)
  }

  /** The number of modules that hold codeword bits, remainder bits included. */
  function RawDataModules(ver: nat): int
    requires 1 <= ver <= 40
  {
    var result := (16 * ver + 128) * ver + 64;
    if ver < 2 then result else
      var numAlign := ver / 7 + 2;
      result - ((25 * numAlign - 10) * numAlign - 55) - (if ver >= 7 then 36 else 0)
  }

  function NumDataCodewords(ecl: Ecc, ver: nat): int
    requires 1 <= ver <= 40
  {
    RawDataModules(ver) / 8 - EccPerBlock(ecl, ver) * NumBlocks(ecl, ver)
  }

  // ----- decoder

  /** Block size, data words per block and number of blocks, for the short blocks. */
  datatype RsParams = RsParams(bs: nat, dw: nat, ns: nat)

  datatype VersionInfo = VersionInfo(dataBytes: nat, ecc0: RsParams, ecc1: RsParams, ecc2: RsParams, ecc3: RsParams) {
    function Params(level: nat): RsParams
      requires level < 4
    {
      if level == 0 then ecc0 else if level == 1 then ecc1 else if level == 2 then ecc2 else ecc3
    }
  }

  function VersionDb(ver: nat): VersionInfo
    requires 1 <= ver <= 40
  {
    if ver <= 10 then Versions1(ver) else if ver <= 20 then Versions11(ver)
    else if ver <= 30 then Versions21(ver) else Versions31(ver)
  }

  function Versions1(ver: nat): VersionInfo
    requires 1 <= ver <= 10
  {
    match ver
    case 1 => VersionInfo(26, RsParams(26, 16, 1), RsParams(26, 19, 1), RsParams(26, 9, 1), RsParams(26, 13, 1))
    case 2 => VersionInfo(44, RsParams(44, 28, 1), RsParams(44, 34, 1), RsParams(44, 16, 1), RsParams(44, 22, 1))
    case 3 => VersionInfo(70, RsParams(70, 44, 1), RsParams(70, 55, 1), RsParams(35, 13, 2), RsParams(35, 17, 2))
    case 4 => VersionInfo(100, RsParams(50, 32, 2), RsParams(100, 80, 1), RsParams(25, 9, 4), RsParams(50, 24, 2))
    case 5 => VersionInfo(134, RsParams(67, 43, 2), RsParams(134, 108, 1), RsParams(33, 11, 2), RsParams(33, 15, 2))
    case 6 => VersionInfo(172, RsParams(43, 27, 4), RsParams(86, 68, 2), RsParams(43, 15, 4), RsParams(43, 19, 4))
    case 7 => VersionInfo(196, RsParams(49, 31, 4), RsParams(98, 78, 2), RsParams(39, 13, 4), RsParams(32, 14, 2))
    case 8 => VersionInfo(242, RsParams(60, 38, 2), RsParams(121, 97, 2), RsParams(40, 14, 4), RsParams(40, 18, 4))
    case 9 => VersionInfo(292, RsParams(58, 36, 3), RsParams(146, 116, 2), RsParams(36, 12, 4), RsParams(36, 16, 4))
    case _ => VersionInfo(346, RsParams(69, 43, 4), RsParams(86, 68, 2), RsParams(43, 15, 6), RsParams(43, 19, 6))
  }

  function Versions11(ver: nat): VersionInfo
    requires 11 <= ver <= 20
  {
    match ver
    case 11 => VersionInfo(404, RsParams(80, 50, 1), RsParams(101, 81, 4), RsParams(36, 12, 3), RsParams(50, 22, 4))
    case 12 => VersionInfo(466, RsParams(58, 36, 6), RsParams(116, 92, 2), RsParams(42, 14, 7), RsParams(46, 20, 4))
    case 13 => VersionInfo(532, RsParams(59, 37, 8), RsParams(133, 107, 4), RsParams(33, 11, 12), RsParams(44, 20, 8))
    case 14 => VersionInfo(581, RsParams(64, 40, 4), RsParams(145, 115, 3), RsParams(36, 12, 11), RsParams(36, 16, 11))
    case 15 => VersionInfo(655, RsParams(65, 41, 5), RsParams(109, 87, 5), RsParams(36, 12, 11), RsParams(54, 24, 5))
    case 16 => VersionInfo(733, RsParams(73, 45, 7), RsParams(122, 98, 5), RsParams(45, 15, 3), RsParams(43, 19, 15))
    case 17 => VersionInfo(815, RsParams(74, 46, 10), RsParams(135, 107, 1), RsParams(42, 14, 2), RsParams(50, 22, 1))
    case 18 => VersionInfo(901, RsParams(69, 43, 9), RsParams(150, 120, 5), RsParams(42, 14, 2), RsParams(50, 22, 17))
    case 19 => VersionInfo(991, RsParams(70, 44, 3), RsParams(141, 113, 3), RsParams(39, 13, 9), RsParams(47, 21, 17))
    case _ => VersionInfo(1085, RsParams(67, 41, 3), RsParams(135, 107, 3), RsParams(43, 15, 15), RsParams(54, 24, 15))
  }

  function Versions21(ver: nat): VersionInfo
    requires 21 <= ver <= 30
  {
    match ver
    case 21 => VersionInfo(1156, RsParams(68, 42, 17), RsParams(144, 116, 4), RsParams(46, 16, 19),
        RsParams(50, 22, 17))
    case 22 => VersionInfo(1258, RsParams(74, 46, 17), RsParams(139, 111, 2), RsParams(37, 13, 34), RsParams(54, 24, 7))
    case 23 => VersionInfo(1364, RsParams(75, 47, 4), RsParams(151, 121, 4), RsParams(45, 15, 16), RsParams(54, 24, 11))
    case 24 => VersionInfo(1474, RsParams(73, 45, 6), RsParams(147, 117, 6), RsParams(46, 16, 30), RsParams(54, 24, 11))
    case 25 => VersionInfo(1588, RsParams(75, 47, 8), RsParams(132, 106, 8), RsParams(45, 15, 22), RsParams(54, 24, 7))
    case 26 => VersionInfo(1706, RsParams(74, 46, 19), RsParams(142, 114, 10), RsParams(46, 16, 33),
        RsParams(50, 22, 28))
    case 27 => VersionInfo(1828, RsParams(73, 45, 22), RsParams(152, 122, 8), RsParams(45, 15, 12), RsParams(53, 23, 8))
    case 28 => VersionInfo(1921, RsParams(73, 45, 3), RsParams(147, 117, 3), RsParams(45, 15, 11), RsParams(54, 24, 4))
    case 29 => VersionInfo(2051, RsParams(73, 45, 21), RsParams(146, 116, 7), RsParams(45, 15, 19), RsParams(53, 23, 1))
    case _ => VersionInfo(2185, RsParams(75, 47, 19), RsParams(145, 115, 5), RsParams(45, 15, 23), RsParams(54, 24, 15))
  }

  function Versions31(ver: nat): VersionInfo
    requires 31 <= ver <= 40
  {
    match ver
    case 31 => VersionInfo(2323, RsParams(74, 46, 2), RsParams(145, 115, 13), RsParams(45, 15, 23),
        RsParams(54, 24, 42))
    case 32 => VersionInfo(2465, RsParams(74, 46, 10), RsParams(145, 115, 17), RsParams(45, 15, 19),
        RsParams(54, 24, 10))
    case 33 => VersionInfo(2611, RsParams(74, 46, 14), RsParams(145, 115, 17), RsParams(45, 15, 11),
        RsParams(54, 24, 29))
    case 34 => VersionInfo(2761, RsParams(74, 46, 14), RsParams(145, 115, 13), RsParams(46, 16, 59),
        RsParams(54, 24, 44))
    case 35 => VersionInfo(2876, RsParams(75, 47, 12), RsParams(151, 121, 12), RsParams(45, 15, 22),
        RsParams(54, 24, 39))
    case 36 => VersionInfo(3034, RsParams(75, 47, 6), RsParams(151, 121, 6), RsParams(45, 15, 2), RsParams(54, 24, 46))
    case 37 => VersionInfo(3196, RsParams(74, 46, 29), RsParams(152, 122, 17), RsParams(45, 15, 24),
        RsParams(54, 24, 49))
    case 38 => VersionInfo(3362, RsParams(74, 46, 13), RsParams(152, 122, 4), RsParams(45, 15, 42),
        RsParams(54, 24, 48))
    case 39 => VersionInfo(3532, RsParams(75, 47, 40), RsParams(147, 117, 20), RsParams(45, 15, 10),
        RsParams(54, 24, 43))
    case _ => VersionInfo(3706, RsParams(75, 47, 18), RsParams(148, 118, 19), RsParams(45, 15, 20),
        RsParams(54, 24, 34))
  }

  /** The alignment positions of the database, up to the terminating 0. */
  function Apat(ver: nat): seq<int>
    requires 1 <= ver <= 40
  {
    match ver
    case 1 => []
    case 2 => [6, 18]
    case 3 => [6, 22]
    case 4 => [6, 26]
    case 5 => [6, 30]
    case 6 => [6, 34]
    case 7 => [6, 22, 38]
    case 8 => [6, 24, 42]
    case 9 => [6, 26, 46]
    case 10 => [6, 28, 50]
    case 11 => [6, 30, 54]
    case 12 => [6, 32, 58]
    case 13 => [6, 34, 62]
    case 14 => [6, 26, 46, 66]
    case 15 => [6, 26, 48, 70]
    case 16 => [6, 26, 50, 74]
    case 17 => [6, 30, 54, 78]
    case 18 => [6, 30, 56, 82]
    case 19 => [6, 30, 58, 86]
    case 20 => [6, 34, 62, 90]
    case 21 => [6, 28, 50, 72, 92]
    case 22 => [6, 26, 50, 74, 98]
    case 23 => [6, 30, 54, 78, 102]
    case 24 => [6, 28, 54, 80, 106]
    case 25 => [6, 32, 58, 84, 110]
    case 26 => [6, 30, 58, 86, 114]
    case 27 => [6, 34, 62, 90, 118]
    case 28 => [6, 26, 50, 74, 98, 122]
    case 29 => [6, 30, 54, 78, 102, 126]
    case 30 => [6, 26, 52, 78, 104, 130]
    case 31 => [6, 30, 56, 82, 108, 134]
    case 32 => [6, 34, 60, 86, 112, 138]
    case 33 => [6, 30, 58, 86, 114, 142]
    case 34 => [6, 34, 62, 90, 118, 146]
    case 35 => [6, 30, 54, 78, 102, 126, 150]
    case 36 => [6, 24, 50, 76, 102, 128, 154]
    case 37 => [6, 28, 54, 80, 106, 132, 158]
    case 38 => [6, 32, 58, 84, 110, 136, 162]
    case 39 => [6, 26, 54, 82, 110, 138, 166]
    case _ => [6, 30, 58, 86, 114, 142, 170]
  }

  lemma TablesAgree1() ensures AgreesAll(1) && AgreesAll(2) {}
  lemma TablesAgree3() ensures AgreesAll(3) && AgreesAll(4) {}
  lemma TablesAgree5() ensures AgreesAll(5) && AgreesAll(6) {}
  lemma TablesAgree7() ensures AgreesAll(7) && AgreesAll(8) {}
  lemma TablesAgree9() ensures AgreesAll(9) && AgreesAll(10) {}
  lemma TablesAgree11() ensures AgreesAll(11) && AgreesAll(12) {}
  lemma TablesAgree13() ensures AgreesAll(13) && AgreesAll(14) {}
  lemma TablesAgree15() ensures AgreesAll(15) && AgreesAll(16) {}
  lemma TablesAgree17() ensures AgreesAll(17) && AgreesAll(18) {}
  lemma TablesAgree19() ensures AgreesAll(19) && AgreesAll(20) {}
  lemma TablesAgree21() ensures AgreesAll(21) && AgreesAll(22) {}
  lemma TablesAgree23() ensures AgreesAll(23) && AgreesAll(24) {}
  lemma TablesAgree25() ensures AgreesAll(25) && AgreesAll(26) {}
  lemma TablesAgree27() ensures AgreesAll(27) && AgreesAll(28) {}
  lemma TablesAgree29() ensures AgreesAll(29) && AgreesAll(30) {}
  lemma TablesAgree31() ensures AgreesAll(31) && AgreesAll(32) {}
  lemma TablesAgree33() ensures AgreesAll(33) && AgreesAll(34) {}
  lemma TablesAgree35() ensures AgreesAll(35) && AgreesAll(36) {}
  lemma TablesAgree37() ensures AgreesAll(37) && AgreesAll(38) {}
  lemma TablesAgree39() ensures AgreesAll(39) && AgreesAll(40) {}

  /** The database entry describes the encoder's layout: as many blocks, of which the short ones
      hold bs bytes and the others one more, filling all codewords; and as many check bytes. */
  predicate Agrees(ecl: Ecc, ver: nat)
    requires 1 <= ver <= 40
  {
    var info, blocks, check := VersionDb(ver), NumBlocks(ecl, ver), EccPerBlock(ecl, ver);
    var p := info.Params(ecl.FormatBits());
    && 1 <= p.ns <= blocks
    && info.dataBytes == blocks * p.bs + blocks - p.ns
    && p.bs == p.dw + check
    && 2 <= check <= 30 && 1 <= p.dw && p.bs <= 152
  }

  predicate AgreesAll(ver: nat)
    requires 1 <= ver <= 40
  {
    Agrees(Low, ver) && Agrees(Medium, ver) && Agrees(Quartile, ver) && Agrees(High, ver)
  }

  lemma AgreesOne(ecl: Ecc, ver: nat)
    requires 1 <= ver <= 40 && AgreesAll(ver)
    ensures Agrees(ecl, ver)
  {
    hide Agrees;
  }

  /** The database counts the codewords that the encoder's formula for the modules leaves room for. */
  predicate RawAgrees(ver: nat)
    requires 1 <= ver <= 40
  {
    8 * VersionDb(ver).dataBytes <= RawDataModules(ver) < 8 * VersionDb(ver).dataBytes + 8 <= 29656
  }

  lemma RawAgreesTo20()
    ensures RawAgrees(1) && RawAgrees(2) && RawAgrees(3) && RawAgrees(4) && RawAgrees(5)
    ensures RawAgrees(6) && RawAgrees(7) && RawAgrees(8) && RawAgrees(9) && RawAgrees(10)
    ensures RawAgrees(11) && RawAgrees(12) && RawAgrees(13) && RawAgrees(14) && RawAgrees(15)
    ensures RawAgrees(16) && RawAgrees(17) && RawAgrees(18) && RawAgrees(19) && RawAgrees(20)
  {}

  lemma RawAgreesTo40()
    ensures RawAgrees(21) && RawAgrees(22) && RawAgrees(23) && RawAgrees(24) && RawAgrees(25)
    ensures RawAgrees(26) && RawAgrees(27) && RawAgrees(28) && RawAgrees(29) && RawAgrees(30)
    ensures RawAgrees(31) && RawAgrees(32) && RawAgrees(33) && RawAgrees(34) && RawAgrees(35)
    ensures RawAgrees(36) && RawAgrees(37) && RawAgrees(38) && RawAgrees(39) && RawAgrees(40)
  {}

  /** The decoder's database and the encoder's tables describe the same block layouts. */
  lemma TablesAgree(ecl: Ecc, ver: nat)
    requires 1 <= ver <= 40
    ensures Agrees(ecl, ver) && RawAgrees(ver)
  {
    hide *;
    RawAgreesTo20(); RawAgreesTo40();
    TablesAgree1(); TablesAgree3(); TablesAgree5(); TablesAgree7(); TablesAgree9();
    TablesAgree11(); TablesAgree13(); TablesAgree15(); TablesAgree17(); TablesAgree19();
    TablesAgree21(); TablesAgree23(); TablesAgree25(); TablesAgree27(); TablesAgree29();
    TablesAgree31(); TablesAgree33(); TablesAgree35(); TablesAgree37(); TablesAgree39();
    assert AgreesAll(ver);
    AgreesOne(ecl, ver);
  }
}
