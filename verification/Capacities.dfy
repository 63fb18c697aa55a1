/** How many data codewords the versions and levels hold. */
module Capacities {
  import opened Versions

  /** The data codewords of a version at the four levels, weakest first (table 7 of ISO/IEC 18004). */
  datatype Row = Row(low: nat, medium: nat, quartile: nat, high: nat)

  const TABLE: seq<Row> := [
    Row(19, 16, 13, 9), Row(34, 28, 22, 16), Row(55, 44, 34, 26), Row(80, 64, 48, 36),
    Row(108, 86, 62, 46), Row(136, 108, 76, 60), Row(156, 124, 88, 66), Row(194, 154, 110, 86),
    Row(232, 182, 132, 100), Row(274, 216, 154, 122), Row(324, 254, 180, 140), Row(370, 290, 206, 158),
    Row(428, 334, 244, 180), Row(461, 365, 261, 197), Row(523, 415, 295, 223), Row(589, 453, 325, 253),
    Row(647, 507, 367, 283), Row(721, 563, 397, 313), Row(795, 627, 445, 341), Row(861, 669, 485, 385),
    Row(932, 714, 512, 406), Row(1006, 782, 568, 442), Row(1094, 860, 614, 464), Row(1174, 914, 664, 514),
    Row(1276, 1000, 718, 538), Row(1370, 1062, 754, 596), Row(1468, 1128, 808, 628), Row(1531, 1193, 871, 661),
    Row(1631, 1267, 911, 701), Row(1735, 1373, 985, 745), Row(1843, 1455, 1033, 793), Row(1955, 1541, 1115, 845),
    Row(2071, 1631, 1171, 901), Row(2191, 1725, 1231, 961), Row(2306, 1812, 1286, 986), Row(2434, 1914, 1354, 1054),
    Row(2566, 1992, 1426, 1096), Row(2702, 2102, 1502, 1142), Row(2812, 2216, 1582, 1222), Row(2956, 2334, 1666, 1276)
  ]

  predicate IsRow(ver: nat, row: Row)
    requires 1 <= ver <= 40
  {
    && NumDataCodewords(Low, ver) == row.low && NumDataCodewords(Medium, ver) == row.medium
    && NumDataCodewords(Quartile, ver) == row.quartile && NumDataCodewords(High, ver) == row.high
  }

  lemma Rows1() ensures IsRow(1, Row(19, 16, 13, 9)) && IsRow(2, Row(34, 28, 22, 16)) {}
  lemma Rows3() ensures IsRow(3, Row(55, 44, 34, 26)) && IsRow(4, Row(80, 64, 48, 36)) {}
  lemma Rows5() ensures IsRow(5, Row(108, 86, 62, 46)) && IsRow(6, Row(136, 108, 76, 60)) {}
  lemma Rows7() ensures IsRow(7, Row(156, 124, 88, 66)) && IsRow(8, Row(194, 154, 110, 86)) {}
  lemma Rows9() ensures IsRow(9, Row(232, 182, 132, 100)) && IsRow(10, Row(274, 216, 154, 122)) {}
  lemma Rows11() ensures IsRow(11, Row(324, 254, 180, 140)) && IsRow(12, Row(370, 290, 206, 158)) {}
  lemma Rows13() ensures IsRow(13, Row(428, 334, 244, 180)) && IsRow(14, Row(461, 365, 261, 197)) {}
  lemma Rows15() ensures IsRow(15, Row(523, 415, 295, 223)) && IsRow(16, Row(589, 453, 325, 253)) {}
  lemma Rows17() ensures IsRow(17, Row(647, 507, 367, 283)) && IsRow(18, Row(721, 563, 397, 313)) {}
  lemma Rows19() ensures IsRow(19, Row(795, 627, 445, 341)) && IsRow(20, Row(861, 669, 485, 385)) {}
  lemma Rows21() ensures IsRow(21, Row(932, 714, 512, 406)) && IsRow(22, Row(1006, 782, 568, 442)) {}
  lemma Rows23() ensures IsRow(23, Row(1094, 860, 614, 464)) && IsRow(24, Row(1174, 914, 664, 514)) {}
  lemma Rows25() ensures IsRow(25, Row(1276, 1000, 718, 538)) && IsRow(26, Row(1370, 1062, 754, 596)) {}
  lemma Rows27() ensures IsRow(27, Row(1468, 1128, 808, 628)) && IsRow(28, Row(1531, 1193, 871, 661)) {}
  lemma Rows29() ensures IsRow(29, Row(1631, 1267, 911, 701)) && IsRow(30, Row(1735, 1373, 985, 745)) {}
  lemma Rows31() ensures IsRow(31, Row(1843, 1455, 1033, 793)) && IsRow(32, Row(1955, 1541, 1115, 845)) {}
  lemma Rows33() ensures IsRow(33, Row(2071, 1631, 1171, 901)) && IsRow(34, Row(2191, 1725, 1231, 961)) {}
  lemma Rows35() ensures IsRow(35, Row(2306, 1812, 1286, 986)) && IsRow(36, Row(2434, 1914, 1354, 1054)) {}
  lemma Rows37() ensures IsRow(37, Row(2566, 1992, 1426, 1096)) && IsRow(38, Row(2702, 2102, 1502, 1142)) {}
  lemma Rows39() ensures IsRow(39, Row(2812, 2216, 1582, 1222)) && IsRow(40, Row(2956, 2334, 1666, 1276)) {}

  /** The formula and the tables of the encoder give the published capacities. */
  lemma Tabulated(ver: nat)
    requires 1 <= ver <= 40
    ensures IsRow(ver, TABLE[ver - 1])
  {
    hide IsRow;
    Rows1(); Rows3(); Rows5(); Rows7(); Rows9();
    Rows11(); Rows13(); Rows15(); Rows17(); Rows19();
    Rows21(); Rows23(); Rows25(); Rows27(); Rows29();
    Rows31(); Rows33(); Rows35(); Rows37(); Rows39();
  }

  /** The stronger the level, the fewer data codewords, and no symbol holds more than 2956. */
  lemma RowsOrdered()
    ensures forall i | 0 <= i < 40 ::
              0 < TABLE[i].high < TABLE[i].quartile < TABLE[i].medium < TABLE[i].low <= 2956
  {}

  lemma GrowsLow(i: nat)
    requires i < 39
    ensures TABLE[i].low < TABLE[i + 1].low
  {}

  lemma GrowsMedium(i: nat)
    requires i < 39
    ensures TABLE[i].medium < TABLE[i + 1].medium
  {}

  lemma GrowsQuartile(i: nat)
    requires i < 39
    ensures TABLE[i].quartile < TABLE[i + 1].quartile
  {}

  lemma GrowsHigh(i: nat)
    requires i < 39
    ensures TABLE[i].high < TABLE[i + 1].high
  {}

  /** Capacity grows with the version. */
  lemma {:induction false} CapacityGrows(ecl: Ecc, v: nat, w: nat)
    requires 1 <= v <= w <= 40
    ensures NumDataCodewords(ecl, v) <= NumDataCodewords(ecl, w)
    ensures v < w ==> NumDataCodewords(ecl, v) < NumDataCodewords(ecl, w)
    decreases w - v
  {
    hide NumDataCodewords, TABLE;
    if v < w {
      CapacityGrows(ecl, v, w - 1);
      Tabulated(w - 1); Tabulated(w);
      GrowsLow(w - 2); GrowsMedium(w - 2); GrowsQuartile(w - 2); GrowsHigh(w - 2);
    }
  }

  /** Every level and version is within the capacity of version 40 at level Low. */
  lemma LargestCapacity(ecl: Ecc, ver: nat)
    requires 1 <= ver <= 40
    ensures 0 < NumDataCodewords(ecl, ver) <= 2956 == NumDataCodewords(Low, 40)
  {
    hide NumDataCodewords, TABLE;
    Tabulated(ver); Tabulated(40);
    RowsOrdered();
    LastRow();
  }

  lemma LastRow()
    ensures TABLE[39] == Row(2956, 2334, 1666, 1276)
  {}
}
