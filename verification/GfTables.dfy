/** The decoder's exponent and logarithm tables, and what they mean in GF(256). */
module GfTables {
  import opened Gf256

  /** The entry of a row of eight that index i selects. */
  function Nth(i: bv8, v0: bv8, v1: bv8, v2: bv8, v3: bv8, v4: bv8, v5: bv8, v6: bv8, v7: bv8): bv8 {
    if i & 7 == 0 then v0 else if i & 7 == 1 then v1 else if i & 7 == 2 then v2 else if i & 7 == 3 then v3
    else if i & 7 == 4 then v4 else if i & 7 == 5 then v5 else if i & 7 == 6 then v6 else v7
  }

  // ----- the tables, in quarters of eight rows

  function ExpTable(i: bv8): bv8 {
    if i < 0x40 then Exp0(i) else if i < 0x80 then Exp1(i) else if i < 0xc0 then Exp2(i) else Exp3(i)
  }

  function Exp0(i: bv8): bv8 {
    if i < 0x08 then Nth(i, 0x01, 0x02, 0x04, 0x08, 0x10, 0x20, 0x40, 0x80)
    else if i < 0x10 then Nth(i, 0x1d, 0x3a, 0x74, 0xe8, 0xcd, 0x87, 0x13, 0x26)
    else if i < 0x18 then Nth(i, 0x4c, 0x98, 0x2d, 0x5a, 0xb4, 0x75, 0xea, 0xc9)
    else if i < 0x20 then Nth(i, 0x8f, 0x03, 0x06, 0x0c, 0x18, 0x30, 0x60, 0xc0)
    else if i < 0x28 then Nth(i, 0x9d, 0x27, 0x4e, 0x9c, 0x25, 0x4a, 0x94, 0x35)
    else if i < 0x30 then Nth(i, 0x6a, 0xd4, 0xb5, 0x77, 0xee, 0xc1, 0x9f, 0x23)
    else if i < 0x38 then Nth(i, 0x46, 0x8c, 0x05, 0x0a, 0x14, 0x28, 0x50, 0xa0)
    else Nth(i, 0x5d, 0xba, 0x69, 0xd2, 0xb9, 0x6f, 0xde, 0xa1)
  }

  function Exp1(i: bv8): bv8 {
    if i < 0x48 then Nth(i, 0x5f, 0xbe, 0x61, 0xc2, 0x99, 0x2f, 0x5e, 0xbc)
    else if i < 0x50 then Nth(i, 0x65, 0xca, 0x89, 0x0f, 0x1e, 0x3c, 0x78, 0xf0)
    else if i < 0x58 then Nth(i, 0xfd, 0xe7, 0xd3, 0xbb, 0x6b, 0xd6, 0xb1, 0x7f)
    else if i < 0x60 then Nth(i, 0xfe, 0xe1, 0xdf, 0xa3, 0x5b, 0xb6, 0x71, 0xe2)
    else if i < 0x68 then Nth(i, 0xd9, 0xaf, 0x43, 0x86, 0x11, 0x22, 0x44, 0x88)
    else if i < 0x70 then Nth(i, 0x0d, 0x1a, 0x34, 0x68, 0xd0, 0xbd, 0x67, 0xce)
    else if i < 0x78 then Nth(i, 0x81, 0x1f, 0x3e, 0x7c, 0xf8, 0xed, 0xc7, 0x93)
    else Nth(i, 0x3b, 0x76, 0xec, 0xc5, 0x97, 0x33, 0x66, 0xcc)
  }

  function Exp2(i: bv8): bv8 {
    if i < 0x88 then Nth(i, 0x85, 0x17, 0x2e, 0x5c, 0xb8, 0x6d, 0xda, 0xa9)
    else if i < 0x90 then Nth(i, 0x4f, 0x9e, 0x21, 0x42, 0x84, 0x15, 0x2a, 0x54)
    else if i < 0x98 then Nth(i, 0xa8, 0x4d, 0x9a, 0x29, 0x52, 0xa4, 0x55, 0xaa)
    else if i < 0xa0 then Nth(i, 0x49, 0x92, 0x39, 0x72, 0xe4, 0xd5, 0xb7, 0x73)
    else if i < 0xa8 then Nth(i, 0xe6, 0xd1, 0xbf, 0x63, 0xc6, 0x91, 0x3f, 0x7e)
    else if i < 0xb0 then Nth(i, 0xfc, 0xe5, 0xd7, 0xb3, 0x7b, 0xf6, 0xf1, 0xff)
    else if i < 0xb8 then Nth(i, 0xe3, 0xdb, 0xab, 0x4b, 0x96, 0x31, 0x62, 0xc4)
    else Nth(i, 0x95, 0x37, 0x6e, 0xdc, 0xa5, 0x57, 0xae, 0x41)
  }

  function Exp3(i: bv8): bv8 {
    if i < 0xc8 then Nth(i, 0x82, 0x19, 0x32, 0x64, 0xc8, 0x8d, 0x07, 0x0e)
    else if i < 0xd0 then Nth(i, 0x1c, 0x38, 0x70, 0xe0, 0xdd, 0xa7, 0x53, 0xa6)
    else if i < 0xd8 then Nth(i, 0x51, 0xa2, 0x59, 0xb2, 0x79, 0xf2, 0xf9, 0xef)
    else if i < 0xe0 then Nth(i, 0xc3, 0x9b, 0x2b, 0x56, 0xac, 0x45, 0x8a, 0x09)
    else if i < 0xe8 then Nth(i, 0x12, 0x24, 0x48, 0x90, 0x3d, 0x7a, 0xf4, 0xf5)
    else if i < 0xf0 then Nth(i, 0xf7, 0xf3, 0xfb, 0xeb, 0xcb, 0x8b, 0x0b, 0x16)
    else if i < 0xf8 then Nth(i, 0x2c, 0x58, 0xb0, 0x7d, 0xfa, 0xe9, 0xcf, 0x83)
    else Nth(i, 0x1b, 0x36, 0x6c, 0xd8, 0xad, 0x47, 0x8e, 0x01)
  }

  function LogTable(i: bv8): bv8 {
    if i < 0x40 then Log0(i) else if i < 0x80 then Log1(i) else if i < 0xc0 then Log2(i) else Log3(i)
  }

  function Log0(i: bv8): bv8 {
    if i < 0x08 then Nth(i, 0x00, 0xff, 0x01, 0x19, 0x02, 0x32, 0x1a, 0xc6)
    else if i < 0x10 then Nth(i, 0x03, 0xdf, 0x33, 0xee, 0x1b, 0x68, 0xc7, 0x4b)
    else if i < 0x18 then Nth(i, 0x04, 0x64, 0xe0, 0x0e, 0x34, 0x8d, 0xef, 0x81)
    else if i < 0x20 then Nth(i, 0x1c, 0xc1, 0x69, 0xf8, 0xc8, 0x08, 0x4c, 0x71)
    else if i < 0x28 then Nth(i, 0x05, 0x8a, 0x65, 0x2f, 0xe1, 0x24, 0x0f, 0x21)
    else if i < 0x30 then Nth(i, 0x35, 0x93, 0x8e, 0xda, 0xf0, 0x12, 0x82, 0x45)
    else if i < 0x38 then Nth(i, 0x1d, 0xb5, 0xc2, 0x7d, 0x6a, 0x27, 0xf9, 0xb9)
    else Nth(i, 0xc9, 0x9a, 0x09, 0x78, 0x4d, 0xe4, 0x72, 0xa6)
  }

  function Log1(i: bv8): bv8 {
    if i < 0x48 then Nth(i, 0x06, 0xbf, 0x8b, 0x62, 0x66, 0xdd, 0x30, 0xfd)
    else if i < 0x50 then Nth(i, 0xe2, 0x98, 0x25, 0xb3, 0x10, 0x91, 0x22, 0x88)
    else if i < 0x58 then Nth(i, 0x36, 0xd0, 0x94, 0xce, 0x8f, 0x96, 0xdb, 0xbd)
    else if i < 0x60 then Nth(i, 0xf1, 0xd2, 0x13, 0x5c, 0x83, 0x38, 0x46, 0x40)
    else if i < 0x68 then Nth(i, 0x1e, 0x42, 0xb6, 0xa3, 0xc3, 0x48, 0x7e, 0x6e)
    else if i < 0x70 then Nth(i, 0x6b, 0x3a, 0x28, 0x54, 0xfa, 0x85, 0xba, 0x3d)
    else if i < 0x78 then Nth(i, 0xca, 0x5e, 0x9b, 0x9f, 0x0a, 0x15, 0x79, 0x2b)
    else Nth(i, 0x4e, 0xd4, 0xe5, 0xac, 0x73, 0xf3, 0xa7, 0x57)
  }

  function Log2(i: bv8): bv8 {
    if i < 0x88 then Nth(i, 0x07, 0x70, 0xc0, 0xf7, 0x8c, 0x80, 0x63, 0x0d)
    else if i < 0x90 then Nth(i, 0x67, 0x4a, 0xde, 0xed, 0x31, 0xc5, 0xfe, 0x18)
    else if i < 0x98 then Nth(i, 0xe3, 0xa5, 0x99, 0x77, 0x26, 0xb8, 0xb4, 0x7c)
    else if i < 0xa0 then Nth(i, 0x11, 0x44, 0x92, 0xd9, 0x23, 0x20, 0x89, 0x2e)
    else if i < 0xa8 then Nth(i, 0x37, 0x3f, 0xd1, 0x5b, 0x95, 0xbc, 0xcf, 0xcd)
    else if i < 0xb0 then Nth(i, 0x90, 0x87, 0x97, 0xb2, 0xdc, 0xfc, 0xbe, 0x61)
    else if i < 0xb8 then Nth(i, 0xf2, 0x56, 0xd3, 0xab, 0x14, 0x2a, 0x5d, 0x9e)
    else Nth(i, 0x84, 0x3c, 0x39, 0x53, 0x47, 0x6d, 0x41, 0xa2)
  }

  function Log3(i: bv8): bv8 {
    if i < 0xc8 then Nth(i, 0x1f, 0x2d, 0x43, 0xd8, 0xb7, 0x7b, 0xa4, 0x76)
    else if i < 0xd0 then Nth(i, 0xc4, 0x17, 0x49, 0xec, 0x7f, 0x0c, 0x6f, 0xf6)
    else if i < 0xd8 then Nth(i, 0x6c, 0xa1, 0x3b, 0x52, 0x29, 0x9d, 0x55, 0xaa)
    else if i < 0xe0 then Nth(i, 0xfb, 0x60, 0x86, 0xb1, 0xbb, 0xcc, 0x3e, 0x5a)
    else if i < 0xe8 then Nth(i, 0xcb, 0x59, 0x5f, 0xb0, 0x9c, 0xa9, 0xa0, 0x51)
    else if i < 0xf0 then Nth(i, 0x0b, 0xf5, 0x16, 0xeb, 0x7a, 0x75, 0x2c, 0xd7)
    else if i < 0xf8 then Nth(i, 0x4f, 0xae, 0xd5, 0xe9, 0xe6, 0xe7, 0xad, 0xe8)
    else Nth(i, 0x74, 0xd6, 0xf4, 0xea, 0xa8, 0x50, 0x58, 0xaf)
  }

  // ----- each exponent entry doubles the one before it, and only the ends are 1

  lemma NthFirst(i: bv8, v0: bv8, v1: bv8, v2: bv8, v3: bv8, v4: bv8, v5: bv8, v6: bv8, v7: bv8)
    requires i & 7 == 0
    ensures Nth(i, v0, v1, v2, v3, v4, v5, v6, v7) == v0
  {}

  /** In a row whose entries double, w being the entry after it, the next entry is twice this one. */
  lemma StepInRow(i: bv8, lo: bv8, v0: bv8, v1: bv8, v2: bv8, v3: bv8, v4: bv8, v5: bv8, v6: bv8, v7: bv8, w: bv8)
    requires lo & 7 == 0 && lo <= i <= lo + 7 && lo <= 0xf8
    requires XTime(v0) == v1 && XTime(v1) == v2 && XTime(v2) == v3 && XTime(v3) == v4
    requires XTime(v4) == v5 && XTime(v5) == v6 && XTime(v6) == v7 && XTime(v7) == w
    ensures XTime(Nth(i, v0, v1, v2, v3, v4, v5, v6, v7)) ==
            if i == lo + 7 then w else Nth(i + 1, v0, v1, v2, v3, v4, v5, v6, v7)
  {
    hide XTime;
  }

  lemma Doubled0()
    ensures XTime(0x01) == 0x02 && XTime(0x02) == 0x04 && XTime(0x04) == 0x08 && XTime(0x08) == 0x10
    ensures XTime(0x10) == 0x20 && XTime(0x20) == 0x40 && XTime(0x40) == 0x80 && XTime(0x80) == 0x1d
    ensures XTime(0x1d) == 0x3a && XTime(0x3a) == 0x74 && XTime(0x74) == 0xe8 && XTime(0xe8) == 0xcd
    ensures XTime(0xcd) == 0x87 && XTime(0x87) == 0x13 && XTime(0x13) == 0x26 && XTime(0x26) == 0x4c
    ensures XTime(0x4c) == 0x98 && XTime(0x98) == 0x2d && XTime(0x2d) == 0x5a && XTime(0x5a) == 0xb4
    ensures XTime(0xb4) == 0x75 && XTime(0x75) == 0xea && XTime(0xea) == 0xc9 && XTime(0xc9) == 0x8f
    ensures XTime(0x8f) == 0x03 && XTime(0x03) == 0x06 && XTime(0x06) == 0x0c && XTime(0x0c) == 0x18
    ensures XTime(0x18) == 0x30 && XTime(0x30) == 0x60 && XTime(0x60) == 0xc0 && XTime(0xc0) == 0x9d
    ensures XTime(0x9d) == 0x27 && XTime(0x27) == 0x4e && XTime(0x4e) == 0x9c && XTime(0x9c) == 0x25
    ensures XTime(0x25) == 0x4a && XTime(0x4a) == 0x94 && XTime(0x94) == 0x35 && XTime(0x35) == 0x6a
    ensures XTime(0x6a) == 0xd4 && XTime(0xd4) == 0xb5 && XTime(0xb5) == 0x77 && XTime(0x77) == 0xee
    ensures XTime(0xee) == 0xc1 && XTime(0xc1) == 0x9f && XTime(0x9f) == 0x23 && XTime(0x23) == 0x46
    ensures XTime(0x46) == 0x8c && XTime(0x8c) == 0x05 && XTime(0x05) == 0x0a && XTime(0x0a) == 0x14
    ensures XTime(0x14) == 0x28 && XTime(0x28) == 0x50 && XTime(0x50) == 0xa0 && XTime(0xa0) == 0x5d
    ensures XTime(0x5d) == 0xba && XTime(0xba) == 0x69 && XTime(0x69) == 0xd2 && XTime(0xd2) == 0xb9
    ensures XTime(0xb9) == 0x6f && XTime(0x6f) == 0xde && XTime(0xde) == 0xa1 && XTime(0xa1) == 0x5f
  {}

  lemma ExpStep0(i: bv8)
    requires i < 0x40
    ensures ExpTable(i + 1) == XTime(ExpTable(i))
  {
    hide XTime, Nth;
    Doubled0();
    if i < 0x08 {
      StepInRow(i, 0x00, 0x01, 0x02, 0x04, 0x08, 0x10, 0x20, 0x40, 0x80, 0x1d);
      NthFirst(0x08, 0x1d, 0x3a, 0x74, 0xe8, 0xcd, 0x87, 0x13, 0x26);
    } else if i < 0x10 {
      StepInRow(i, 0x08, 0x1d, 0x3a, 0x74, 0xe8, 0xcd, 0x87, 0x13, 0x26, 0x4c);
      NthFirst(0x10, 0x4c, 0x98, 0x2d, 0x5a, 0xb4, 0x75, 0xea, 0xc9);
    } else if i < 0x18 {
      StepInRow(i, 0x10, 0x4c, 0x98, 0x2d, 0x5a, 0xb4, 0x75, 0xea, 0xc9, 0x8f);
      NthFirst(0x18, 0x8f, 0x03, 0x06, 0x0c, 0x18, 0x30, 0x60, 0xc0);
    } else if i < 0x20 {
      StepInRow(i, 0x18, 0x8f, 0x03, 0x06, 0x0c, 0x18, 0x30, 0x60, 0xc0, 0x9d);
      NthFirst(0x20, 0x9d, 0x27, 0x4e, 0x9c, 0x25, 0x4a, 0x94, 0x35);
    } else if i < 0x28 {
      StepInRow(i, 0x20, 0x9d, 0x27, 0x4e, 0x9c, 0x25, 0x4a, 0x94, 0x35, 0x6a);
      NthFirst(0x28, 0x6a, 0xd4, 0xb5, 0x77, 0xee, 0xc1, 0x9f, 0x23);
    } else if i < 0x30 {
      StepInRow(i, 0x28, 0x6a, 0xd4, 0xb5, 0x77, 0xee, 0xc1, 0x9f, 0x23, 0x46);
      NthFirst(0x30, 0x46, 0x8c, 0x05, 0x0a, 0x14, 0x28, 0x50, 0xa0);
    } else if i < 0x38 {
      StepInRow(i, 0x30, 0x46, 0x8c, 0x05, 0x0a, 0x14, 0x28, 0x50, 0xa0, 0x5d);
      NthFirst(0x38, 0x5d, 0xba, 0x69, 0xd2, 0xb9, 0x6f, 0xde, 0xa1);
    } else {
      StepInRow(i, 0x38, 0x5d, 0xba, 0x69, 0xd2, 0xb9, 0x6f, 0xde, 0xa1, 0x5f);
      NthFirst(0x40, 0x5f, 0xbe, 0x61, 0xc2, 0x99, 0x2f, 0x5e, 0xbc);
    }
  }

  lemma Doubled1()
    ensures XTime(0x5f) == 0xbe && XTime(0xbe) == 0x61 && XTime(0x61) == 0xc2 && XTime(0xc2) == 0x99
    ensures XTime(0x99) == 0x2f && XTime(0x2f) == 0x5e && XTime(0x5e) == 0xbc && XTime(0xbc) == 0x65
    ensures XTime(0x65) == 0xca && XTime(0xca) == 0x89 && XTime(0x89) == 0x0f && XTime(0x0f) == 0x1e
    ensures XTime(0x1e) == 0x3c && XTime(0x3c) == 0x78 && XTime(0x78) == 0xf0 && XTime(0xf0) == 0xfd
    ensures XTime(0xfd) == 0xe7 && XTime(0xe7) == 0xd3 && XTime(0xd3) == 0xbb && XTime(0xbb) == 0x6b
    ensures XTime(0x6b) == 0xd6 && XTime(0xd6) == 0xb1 && XTime(0xb1) == 0x7f && XTime(0x7f) == 0xfe
    ensures XTime(0xfe) == 0xe1 && XTime(0xe1) == 0xdf && XTime(0xdf) == 0xa3 && XTime(0xa3) == 0x5b
    ensures XTime(0x5b) == 0xb6 && XTime(0xb6) == 0x71 && XTime(0x71) == 0xe2 && XTime(0xe2) == 0xd9
    ensures XTime(0xd9) == 0xaf && XTime(0xaf) == 0x43 && XTime(0x43) == 0x86 && XTime(0x86) == 0x11
    ensures XTime(0x11) == 0x22 && XTime(0x22) == 0x44 && XTime(0x44) == 0x88 && XTime(0x88) == 0x0d
    ensures XTime(0x0d) == 0x1a && XTime(0x1a) == 0x34 && XTime(0x34) == 0x68 && XTime(0x68) == 0xd0
    ensures XTime(0xd0) == 0xbd && XTime(0xbd) == 0x67 && XTime(0x67) == 0xce && XTime(0xce) == 0x81
    ensures XTime(0x81) == 0x1f && XTime(0x1f) == 0x3e && XTime(0x3e) == 0x7c && XTime(0x7c) == 0xf8
    ensures XTime(0xf8) == 0xed && XTime(0xed) == 0xc7 && XTime(0xc7) == 0x93 && XTime(0x93) == 0x3b
    ensures XTime(0x3b) == 0x76 && XTime(0x76) == 0xec && XTime(0xec) == 0xc5 && XTime(0xc5) == 0x97
    ensures XTime(0x97) == 0x33 && XTime(0x33) == 0x66 && XTime(0x66) == 0xcc && XTime(0xcc) == 0x85
  {}

  lemma ExpStep1(i: bv8)
    requires 0x40 <= i < 0x80
    ensures ExpTable(i + 1) == XTime(ExpTable(i))
  {
    hide XTime, Nth;
    Doubled1();
    if i < 0x48 {
      StepInRow(i, 0x40, 0x5f, 0xbe, 0x61, 0xc2, 0x99, 0x2f, 0x5e, 0xbc, 0x65);
      NthFirst(0x48, 0x65, 0xca, 0x89, 0x0f, 0x1e, 0x3c, 0x78, 0xf0);
    } else if i < 0x50 {
      StepInRow(i, 0x48, 0x65, 0xca, 0x89, 0x0f, 0x1e, 0x3c, 0x78, 0xf0, 0xfd);
      NthFirst(0x50, 0xfd, 0xe7, 0xd3, 0xbb, 0x6b, 0xd6, 0xb1, 0x7f);
    } else if i < 0x58 {
      StepInRow(i, 0x50, 0xfd, 0xe7, 0xd3, 0xbb, 0x6b, 0xd6, 0xb1, 0x7f, 0xfe);
      NthFirst(0x58, 0xfe, 0xe1, 0xdf, 0xa3, 0x5b, 0xb6, 0x71, 0xe2);
    } else if i < 0x60 {
      StepInRow(i, 0x58, 0xfe, 0xe1, 0xdf, 0xa3, 0x5b, 0xb6, 0x71, 0xe2, 0xd9);
      NthFirst(0x60, 0xd9, 0xaf, 0x43, 0x86, 0x11, 0x22, 0x44, 0x88);
    } else if i < 0x68 {
      StepInRow(i, 0x60, 0xd9, 0xaf, 0x43, 0x86, 0x11, 0x22, 0x44, 0x88, 0x0d);
      NthFirst(0x68, 0x0d, 0x1a, 0x34, 0x68, 0xd0, 0xbd, 0x67, 0xce);
    } else if i < 0x70 {
      StepInRow(i, 0x68, 0x0d, 0x1a, 0x34, 0x68, 0xd0, 0xbd, 0x67, 0xce, 0x81);
      NthFirst(0x70, 0x81, 0x1f, 0x3e, 0x7c, 0xf8, 0xed, 0xc7, 0x93);
    } else if i < 0x78 {
      StepInRow(i, 0x70, 0x81, 0x1f, 0x3e, 0x7c, 0xf8, 0xed, 0xc7, 0x93, 0x3b);
      NthFirst(0x78, 0x3b, 0x76, 0xec, 0xc5, 0x97, 0x33, 0x66, 0xcc);
    } else {
      StepInRow(i, 0x78, 0x3b, 0x76, 0xec, 0xc5, 0x97, 0x33, 0x66, 0xcc, 0x85);
      NthFirst(0x80, 0x85, 0x17, 0x2e, 0x5c, 0xb8, 0x6d, 0xda, 0xa9);
    }
  }

  lemma Doubled2()
    ensures XTime(0x85) == 0x17 && XTime(0x17) == 0x2e && XTime(0x2e) == 0x5c && XTime(0x5c) == 0xb8
    ensures XTime(0xb8) == 0x6d && XTime(0x6d) == 0xda && XTime(0xda) == 0xa9 && XTime(0xa9) == 0x4f
    ensures XTime(0x4f) == 0x9e && XTime(0x9e) == 0x21 && XTime(0x21) == 0x42 && XTime(0x42) == 0x84
    ensures XTime(0x84) == 0x15 && XTime(0x15) == 0x2a && XTime(0x2a) == 0x54 && XTime(0x54) == 0xa8
    ensures XTime(0xa8) == 0x4d && XTime(0x4d) == 0x9a && XTime(0x9a) == 0x29 && XTime(0x29) == 0x52
    ensures XTime(0x52) == 0xa4 && XTime(0xa4) == 0x55 && XTime(0x55) == 0xaa && XTime(0xaa) == 0x49
    ensures XTime(0x49) == 0x92 && XTime(0x92) == 0x39 && XTime(0x39) == 0x72 && XTime(0x72) == 0xe4
    ensures XTime(0xe4) == 0xd5 && XTime(0xd5) == 0xb7 && XTime(0xb7) == 0x73 && XTime(0x73) == 0xe6
    ensures XTime(0xe6) == 0xd1 && XTime(0xd1) == 0xbf && XTime(0xbf) == 0x63 && XTime(0x63) == 0xc6
    ensures XTime(0xc6) == 0x91 && XTime(0x91) == 0x3f && XTime(0x3f) == 0x7e && XTime(0x7e) == 0xfc
    ensures XTime(0xfc) == 0xe5 && XTime(0xe5) == 0xd7 && XTime(0xd7) == 0xb3 && XTime(0xb3) == 0x7b
    ensures XTime(0x7b) == 0xf6 && XTime(0xf6) == 0xf1 && XTime(0xf1) == 0xff && XTime(0xff) == 0xe3
    ensures XTime(0xe3) == 0xdb && XTime(0xdb) == 0xab && XTime(0xab) == 0x4b && XTime(0x4b) == 0x96
    ensures XTime(0x96) == 0x31 && XTime(0x31) == 0x62 && XTime(0x62) == 0xc4 && XTime(0xc4) == 0x95
    ensures XTime(0x95) == 0x37 && XTime(0x37) == 0x6e && XTime(0x6e) == 0xdc && XTime(0xdc) == 0xa5
    ensures XTime(0xa5) == 0x57 && XTime(0x57) == 0xae && XTime(0xae) == 0x41 && XTime(0x41) == 0x82
  {}

  lemma ExpStep2(i: bv8)
    requires 0x80 <= i < 0xc0
    ensures ExpTable(i + 1) == XTime(ExpTable(i))
  {
    hide XTime, Nth;
    Doubled2();
    if i < 0x88 {
      StepInRow(i, 0x80, 0x85, 0x17, 0x2e, 0x5c, 0xb8, 0x6d, 0xda, 0xa9, 0x4f);
      NthFirst(0x88, 0x4f, 0x9e, 0x21, 0x42, 0x84, 0x15, 0x2a, 0x54);
    } else if i < 0x90 {
      StepInRow(i, 0x88, 0x4f, 0x9e, 0x21, 0x42, 0x84, 0x15, 0x2a, 0x54, 0xa8);
      NthFirst(0x90, 0xa8, 0x4d, 0x9a, 0x29, 0x52, 0xa4, 0x55, 0xaa);
    } else if i < 0x98 {
      StepInRow(i, 0x90, 0xa8, 0x4d, 0x9a, 0x29, 0x52, 0xa4, 0x55, 0xaa, 0x49);
      NthFirst(0x98, 0x49, 0x92, 0x39, 0x72, 0xe4, 0xd5, 0xb7, 0x73);
    } else if i < 0xa0 {
      StepInRow(i, 0x98, 0x49, 0x92, 0x39, 0x72, 0xe4, 0xd5, 0xb7, 0x73, 0xe6);
      NthFirst(0xa0, 0xe6, 0xd1, 0xbf, 0x63, 0xc6, 0x91, 0x3f, 0x7e);
    } else if i < 0xa8 {
      StepInRow(i, 0xa0, 0xe6, 0xd1, 0xbf, 0x63, 0xc6, 0x91, 0x3f, 0x7e, 0xfc);
      NthFirst(0xa8, 0xfc, 0xe5, 0xd7, 0xb3, 0x7b, 0xf6, 0xf1, 0xff);
    } else if i < 0xb0 {
      StepInRow(i, 0xa8, 0xfc, 0xe5, 0xd7, 0xb3, 0x7b, 0xf6, 0xf1, 0xff, 0xe3);
      NthFirst(0xb0, 0xe3, 0xdb, 0xab, 0x4b, 0x96, 0x31, 0x62, 0xc4);
    } else if i < 0xb8 {
      StepInRow(i, 0xb0, 0xe3, 0xdb, 0xab, 0x4b, 0x96, 0x31, 0x62, 0xc4, 0x95);
      NthFirst(0xb8, 0x95, 0x37, 0x6e, 0xdc, 0xa5, 0x57, 0xae, 0x41);
    } else {
      StepInRow(i, 0xb8, 0x95, 0x37, 0x6e, 0xdc, 0xa5, 0x57, 0xae, 0x41, 0x82);
      NthFirst(0xc0, 0x82, 0x19, 0x32, 0x64, 0xc8, 0x8d, 0x07, 0x0e);
    }
  }

  lemma Doubled3()
    ensures XTime(0x82) == 0x19 && XTime(0x19) == 0x32 && XTime(0x32) == 0x64 && XTime(0x64) == 0xc8
    ensures XTime(0xc8) == 0x8d && XTime(0x8d) == 0x07 && XTime(0x07) == 0x0e && XTime(0x0e) == 0x1c
    ensures XTime(0x1c) == 0x38 && XTime(0x38) == 0x70 && XTime(0x70) == 0xe0 && XTime(0xe0) == 0xdd
    ensures XTime(0xdd) == 0xa7 && XTime(0xa7) == 0x53 && XTime(0x53) == 0xa6 && XTime(0xa6) == 0x51
    ensures XTime(0x51) == 0xa2 && XTime(0xa2) == 0x59 && XTime(0x59) == 0xb2 && XTime(0xb2) == 0x79
    ensures XTime(0x79) == 0xf2 && XTime(0xf2) == 0xf9 && XTime(0xf9) == 0xef && XTime(0xef) == 0xc3
    ensures XTime(0xc3) == 0x9b && XTime(0x9b) == 0x2b && XTime(0x2b) == 0x56 && XTime(0x56) == 0xac
    ensures XTime(0xac) == 0x45 && XTime(0x45) == 0x8a && XTime(0x8a) == 0x09 && XTime(0x09) == 0x12
    ensures XTime(0x12) == 0x24 && XTime(0x24) == 0x48 && XTime(0x48) == 0x90 && XTime(0x90) == 0x3d
    ensures XTime(0x3d) == 0x7a && XTime(0x7a) == 0xf4 && XTime(0xf4) == 0xf5 && XTime(0xf5) == 0xf7
    ensures XTime(0xf7) == 0xf3 && XTime(0xf3) == 0xfb && XTime(0xfb) == 0xeb && XTime(0xeb) == 0xcb
    ensures XTime(0xcb) == 0x8b && XTime(0x8b) == 0x0b && XTime(0x0b) == 0x16 && XTime(0x16) == 0x2c
    ensures XTime(0x2c) == 0x58 && XTime(0x58) == 0xb0 && XTime(0xb0) == 0x7d && XTime(0x7d) == 0xfa
    ensures XTime(0xfa) == 0xe9 && XTime(0xe9) == 0xcf && XTime(0xcf) == 0x83 && XTime(0x83) == 0x1b
    ensures XTime(0x1b) == 0x36 && XTime(0x36) == 0x6c && XTime(0x6c) == 0xd8 && XTime(0xd8) == 0xad
    ensures XTime(0xad) == 0x47 && XTime(0x47) == 0x8e && XTime(0x8e) == 0x01 && XTime(0x01) == 0x02
  {}

  lemma ExpStep3(i: bv8)
    requires 0xc0 <= i < 0xff
    ensures ExpTable(i + 1) == XTime(ExpTable(i))
  {
    hide XTime, Nth;
    Doubled3();
    if i < 0xc8 {
      StepInRow(i, 0xc0, 0x82, 0x19, 0x32, 0x64, 0xc8, 0x8d, 0x07, 0x0e, 0x1c);
      NthFirst(0xc8, 0x1c, 0x38, 0x70, 0xe0, 0xdd, 0xa7, 0x53, 0xa6);
    } else if i < 0xd0 {
      StepInRow(i, 0xc8, 0x1c, 0x38, 0x70, 0xe0, 0xdd, 0xa7, 0x53, 0xa6, 0x51);
      NthFirst(0xd0, 0x51, 0xa2, 0x59, 0xb2, 0x79, 0xf2, 0xf9, 0xef);
    } else if i < 0xd8 {
      StepInRow(i, 0xd0, 0x51, 0xa2, 0x59, 0xb2, 0x79, 0xf2, 0xf9, 0xef, 0xc3);
      NthFirst(0xd8, 0xc3, 0x9b, 0x2b, 0x56, 0xac, 0x45, 0x8a, 0x09);
    } else if i < 0xe0 {
      StepInRow(i, 0xd8, 0xc3, 0x9b, 0x2b, 0x56, 0xac, 0x45, 0x8a, 0x09, 0x12);
      NthFirst(0xe0, 0x12, 0x24, 0x48, 0x90, 0x3d, 0x7a, 0xf4, 0xf5);
    } else if i < 0xe8 {
      StepInRow(i, 0xe0, 0x12, 0x24, 0x48, 0x90, 0x3d, 0x7a, 0xf4, 0xf5, 0xf7);
      NthFirst(0xe8, 0xf7, 0xf3, 0xfb, 0xeb, 0xcb, 0x8b, 0x0b, 0x16);
    } else if i < 0xf0 {
      StepInRow(i, 0xe8, 0xf7, 0xf3, 0xfb, 0xeb, 0xcb, 0x8b, 0x0b, 0x16, 0x2c);
      NthFirst(0xf0, 0x2c, 0x58, 0xb0, 0x7d, 0xfa, 0xe9, 0xcf, 0x83);
    } else if i < 0xf8 {
      StepInRow(i, 0xf0, 0x2c, 0x58, 0xb0, 0x7d, 0xfa, 0xe9, 0xcf, 0x83, 0x1b);
      NthFirst(0xf8, 0x1b, 0x36, 0x6c, 0xd8, 0xad, 0x47, 0x8e, 0x01);
    } else {
      StepInRow(i, 0xf8, 0x1b, 0x36, 0x6c, 0xd8, 0xad, 0x47, 0x8e, 0x01, 0x02);
    }
  }

  lemma OneOnlyAtEnds(i: bv8)
    requires 0 < i < 255
    ensures ExpTable(i) != 1
  {}

  lemma ExpTableStep(i: bv8)
    requires i < 255
    ensures ExpTable(i + 1) == XTime(ExpTable(i))
    ensures 0 < i ==> ExpTable(i) != 1
  {
    hide ExpTable, XTime;
    if i < 0x40 {
      ExpStep0(i);
    } else if i < 0x80 {
      ExpStep1(i);
    } else if i < 0xc0 {
      ExpStep2(i);
    } else {
      ExpStep3(i);
    }
    if 0 < i {
      OneOnlyAtEnds(i);
    }
  }

  lemma ExpTableEnds()
    ensures ExpTable(0) == 1 && ExpTable(255) == 1
  {}

  // ----- the logarithm entries invert the exponent entries

  lemma InvertsRow(a: bv8, lo: bv8, v0: bv8, v1: bv8, v2: bv8, v3: bv8, v4: bv8, v5: bv8, v6: bv8, v7: bv8)
    requires lo & 7 == 0 && lo <= a <= lo + 7 && lo <= 0xf8 && a != 0
    requires LogTable(a) == Nth(a, v0, v1, v2, v3, v4, v5, v6, v7) && (lo != 0 ==> ExpTable(v0) == lo)
    requires ExpTable(v1) == lo + 1 && ExpTable(v2) == lo + 2 && ExpTable(v3) == lo + 3 && ExpTable(v4) == lo + 4
    requires ExpTable(v5) == lo + 5 && ExpTable(v6) == lo + 6 && ExpTable(v7) == lo + 7
    ensures ExpTable(LogTable(a)) == a
  {
    hide ExpTable, LogTable;
  }

  lemma Entries0()
    ensures ExpTable(0xff) == 0x01 && ExpTable(0x01) == 0x02 && ExpTable(0x19) == 0x03 && ExpTable(0x02) == 0x04
    ensures ExpTable(0x32) == 0x05 && ExpTable(0x1a) == 0x06 && ExpTable(0xc6) == 0x07 && ExpTable(0x03) == 0x08
    ensures ExpTable(0xdf) == 0x09 && ExpTable(0x33) == 0x0a && ExpTable(0xee) == 0x0b && ExpTable(0x1b) == 0x0c
    ensures ExpTable(0x68) == 0x0d && ExpTable(0xc7) == 0x0e && ExpTable(0x4b) == 0x0f
  {}

  lemma Entries1()
    ensures ExpTable(0x04) == 0x10 && ExpTable(0x64) == 0x11 && ExpTable(0xe0) == 0x12 && ExpTable(0x0e) == 0x13
    ensures ExpTable(0x34) == 0x14 && ExpTable(0x8d) == 0x15 && ExpTable(0xef) == 0x16 && ExpTable(0x81) == 0x17
    ensures ExpTable(0x1c) == 0x18 && ExpTable(0xc1) == 0x19 && ExpTable(0x69) == 0x1a && ExpTable(0xf8) == 0x1b
    ensures ExpTable(0xc8) == 0x1c && ExpTable(0x08) == 0x1d && ExpTable(0x4c) == 0x1e && ExpTable(0x71) == 0x1f
  {}

  lemma Entries2()
    ensures ExpTable(0x05) == 0x20 && ExpTable(0x8a) == 0x21 && ExpTable(0x65) == 0x22 && ExpTable(0x2f) == 0x23
    ensures ExpTable(0xe1) == 0x24 && ExpTable(0x24) == 0x25 && ExpTable(0x0f) == 0x26 && ExpTable(0x21) == 0x27
    ensures ExpTable(0x35) == 0x28 && ExpTable(0x93) == 0x29 && ExpTable(0x8e) == 0x2a && ExpTable(0xda) == 0x2b
    ensures ExpTable(0xf0) == 0x2c && ExpTable(0x12) == 0x2d && ExpTable(0x82) == 0x2e && ExpTable(0x45) == 0x2f
  {}

  lemma Entries3()
    ensures ExpTable(0x1d) == 0x30 && ExpTable(0xb5) == 0x31 && ExpTable(0xc2) == 0x32 && ExpTable(0x7d) == 0x33
    ensures ExpTable(0x6a) == 0x34 && ExpTable(0x27) == 0x35 && ExpTable(0xf9) == 0x36 && ExpTable(0xb9) == 0x37
    ensures ExpTable(0xc9) == 0x38 && ExpTable(0x9a) == 0x39 && ExpTable(0x09) == 0x3a && ExpTable(0x78) == 0x3b
    ensures ExpTable(0x4d) == 0x3c && ExpTable(0xe4) == 0x3d && ExpTable(0x72) == 0x3e && ExpTable(0xa6) == 0x3f
  {}

  lemma LogInverts0(a: bv8)
    requires 0 < a < 0x40
    ensures ExpTable(LogTable(a)) == a
  {
    hide ExpTable, Nth;
    Entries0(); Entries1(); Entries2(); Entries3();
    if a < 0x08 {
      InvertsRow(a, 0x00, 0x00, 0xff, 0x01, 0x19, 0x02, 0x32, 0x1a, 0xc6);
    } else if a < 0x10 {
      InvertsRow(a, 0x08, 0x03, 0xdf, 0x33, 0xee, 0x1b, 0x68, 0xc7, 0x4b);
    } else if a < 0x18 {
      InvertsRow(a, 0x10, 0x04, 0x64, 0xe0, 0x0e, 0x34, 0x8d, 0xef, 0x81);
    } else if a < 0x20 {
      InvertsRow(a, 0x18, 0x1c, 0xc1, 0x69, 0xf8, 0xc8, 0x08, 0x4c, 0x71);
    } else if a < 0x28 {
      InvertsRow(a, 0x20, 0x05, 0x8a, 0x65, 0x2f, 0xe1, 0x24, 0x0f, 0x21);
    } else if a < 0x30 {
      InvertsRow(a, 0x28, 0x35, 0x93, 0x8e, 0xda, 0xf0, 0x12, 0x82, 0x45);
    } else if a < 0x38 {
      InvertsRow(a, 0x30, 0x1d, 0xb5, 0xc2, 0x7d, 0x6a, 0x27, 0xf9, 0xb9);
    } else {
      InvertsRow(a, 0x38, 0xc9, 0x9a, 0x09, 0x78, 0x4d, 0xe4, 0x72, 0xa6);
    }
  }

  lemma Entries4()
    ensures ExpTable(0x06) == 0x40 && ExpTable(0xbf) == 0x41 && ExpTable(0x8b) == 0x42 && ExpTable(0x62) == 0x43
    ensures ExpTable(0x66) == 0x44 && ExpTable(0xdd) == 0x45 && ExpTable(0x30) == 0x46 && ExpTable(0xfd) == 0x47
    ensures ExpTable(0xe2) == 0x48 && ExpTable(0x98) == 0x49 && ExpTable(0x25) == 0x4a && ExpTable(0xb3) == 0x4b
    ensures ExpTable(0x10) == 0x4c && ExpTable(0x91) == 0x4d && ExpTable(0x22) == 0x4e && ExpTable(0x88) == 0x4f
  {}

  lemma Entries5()
    ensures ExpTable(0x36) == 0x50 && ExpTable(0xd0) == 0x51 && ExpTable(0x94) == 0x52 && ExpTable(0xce) == 0x53
    ensures ExpTable(0x8f) == 0x54 && ExpTable(0x96) == 0x55 && ExpTable(0xdb) == 0x56 && ExpTable(0xbd) == 0x57
    ensures ExpTable(0xf1) == 0x58 && ExpTable(0xd2) == 0x59 && ExpTable(0x13) == 0x5a && ExpTable(0x5c) == 0x5b
    ensures ExpTable(0x83) == 0x5c && ExpTable(0x38) == 0x5d && ExpTable(0x46) == 0x5e && ExpTable(0x40) == 0x5f
  {}

  lemma Entries6()
    ensures ExpTable(0x1e) == 0x60 && ExpTable(0x42) == 0x61 && ExpTable(0xb6) == 0x62 && ExpTable(0xa3) == 0x63
    ensures ExpTable(0xc3) == 0x64 && ExpTable(0x48) == 0x65 && ExpTable(0x7e) == 0x66 && ExpTable(0x6e) == 0x67
    ensures ExpTable(0x6b) == 0x68 && ExpTable(0x3a) == 0x69 && ExpTable(0x28) == 0x6a && ExpTable(0x54) == 0x6b
    ensures ExpTable(0xfa) == 0x6c && ExpTable(0x85) == 0x6d && ExpTable(0xba) == 0x6e && ExpTable(0x3d) == 0x6f
  {}

  lemma Entries7()
    ensures ExpTable(0xca) == 0x70 && ExpTable(0x5e) == 0x71 && ExpTable(0x9b) == 0x72 && ExpTable(0x9f) == 0x73
    ensures ExpTable(0x0a) == 0x74 && ExpTable(0x15) == 0x75 && ExpTable(0x79) == 0x76 && ExpTable(0x2b) == 0x77
    ensures ExpTable(0x4e) == 0x78 && ExpTable(0xd4) == 0x79 && ExpTable(0xe5) == 0x7a && ExpTable(0xac) == 0x7b
    ensures ExpTable(0x73) == 0x7c && ExpTable(0xf3) == 0x7d && ExpTable(0xa7) == 0x7e && ExpTable(0x57) == 0x7f
  {}

  lemma LogInverts1(a: bv8)
    requires 0x40 <= a < 0x80
    ensures ExpTable(LogTable(a)) == a
  {
    hide ExpTable, Nth;
    Entries4(); Entries5(); Entries6(); Entries7();
    if a < 0x48 {
      InvertsRow(a, 0x40, 0x06, 0xbf, 0x8b, 0x62, 0x66, 0xdd, 0x30, 0xfd);
    } else if a < 0x50 {
      InvertsRow(a, 0x48, 0xe2, 0x98, 0x25, 0xb3, 0x10, 0x91, 0x22, 0x88);
    } else if a < 0x58 {
      InvertsRow(a, 0x50, 0x36, 0xd0, 0x94, 0xce, 0x8f, 0x96, 0xdb, 0xbd);
    } else if a < 0x60 {
      InvertsRow(a, 0x58, 0xf1, 0xd2, 0x13, 0x5c, 0x83, 0x38, 0x46, 0x40);
    } else if a < 0x68 {
      InvertsRow(a, 0x60, 0x1e, 0x42, 0xb6, 0xa3, 0xc3, 0x48, 0x7e, 0x6e);
    } else if a < 0x70 {
      InvertsRow(a, 0x68, 0x6b, 0x3a, 0x28, 0x54, 0xfa, 0x85, 0xba, 0x3d);
    } else if a < 0x78 {
      InvertsRow(a, 0x70, 0xca, 0x5e, 0x9b, 0x9f, 0x0a, 0x15, 0x79, 0x2b);
    } else {
      InvertsRow(a, 0x78, 0x4e, 0xd4, 0xe5, 0xac, 0x73, 0xf3, 0xa7, 0x57);
    }
  }

  lemma Entries8()
    ensures ExpTable(0x07) == 0x80 && ExpTable(0x70) == 0x81 && ExpTable(0xc0) == 0x82 && ExpTable(0xf7) == 0x83
    ensures ExpTable(0x8c) == 0x84 && ExpTable(0x80) == 0x85 && ExpTable(0x63) == 0x86 && ExpTable(0x0d) == 0x87
    ensures ExpTable(0x67) == 0x88 && ExpTable(0x4a) == 0x89 && ExpTable(0xde) == 0x8a && ExpTable(0xed) == 0x8b
    ensures ExpTable(0x31) == 0x8c && ExpTable(0xc5) == 0x8d && ExpTable(0xfe) == 0x8e && ExpTable(0x18) == 0x8f
  {}

  lemma Entries9()
    ensures ExpTable(0xe3) == 0x90 && ExpTable(0xa5) == 0x91 && ExpTable(0x99) == 0x92 && ExpTable(0x77) == 0x93
    ensures ExpTable(0x26) == 0x94 && ExpTable(0xb8) == 0x95 && ExpTable(0xb4) == 0x96 && ExpTable(0x7c) == 0x97
    ensures ExpTable(0x11) == 0x98 && ExpTable(0x44) == 0x99 && ExpTable(0x92) == 0x9a && ExpTable(0xd9) == 0x9b
    ensures ExpTable(0x23) == 0x9c && ExpTable(0x20) == 0x9d && ExpTable(0x89) == 0x9e && ExpTable(0x2e) == 0x9f
  {}

  lemma Entries10()
    ensures ExpTable(0x37) == 0xa0 && ExpTable(0x3f) == 0xa1 && ExpTable(0xd1) == 0xa2 && ExpTable(0x5b) == 0xa3
    ensures ExpTable(0x95) == 0xa4 && ExpTable(0xbc) == 0xa5 && ExpTable(0xcf) == 0xa6 && ExpTable(0xcd) == 0xa7
    ensures ExpTable(0x90) == 0xa8 && ExpTable(0x87) == 0xa9 && ExpTable(0x97) == 0xaa && ExpTable(0xb2) == 0xab
    ensures ExpTable(0xdc) == 0xac && ExpTable(0xfc) == 0xad && ExpTable(0xbe) == 0xae && ExpTable(0x61) == 0xaf
  {}

  lemma Entries11()
    ensures ExpTable(0xf2) == 0xb0 && ExpTable(0x56) == 0xb1 && ExpTable(0xd3) == 0xb2 && ExpTable(0xab) == 0xb3
    ensures ExpTable(0x14) == 0xb4 && ExpTable(0x2a) == 0xb5 && ExpTable(0x5d) == 0xb6 && ExpTable(0x9e) == 0xb7
    ensures ExpTable(0x84) == 0xb8 && ExpTable(0x3c) == 0xb9 && ExpTable(0x39) == 0xba && ExpTable(0x53) == 0xbb
    ensures ExpTable(0x47) == 0xbc && ExpTable(0x6d) == 0xbd && ExpTable(0x41) == 0xbe && ExpTable(0xa2) == 0xbf
  {}

  lemma LogInverts2(a: bv8)
    requires 0x80 <= a < 0xc0
    ensures ExpTable(LogTable(a)) == a
  {
    hide ExpTable, Nth;
    Entries8(); Entries9(); Entries10(); Entries11();
    if a < 0x88 {
      InvertsRow(a, 0x80, 0x07, 0x70, 0xc0, 0xf7, 0x8c, 0x80, 0x63, 0x0d);
    } else if a < 0x90 {
      InvertsRow(a, 0x88, 0x67, 0x4a, 0xde, 0xed, 0x31, 0xc5, 0xfe, 0x18);
    } else if a < 0x98 {
      InvertsRow(a, 0x90, 0xe3, 0xa5, 0x99, 0x77, 0x26, 0xb8, 0xb4, 0x7c);
    } else if a < 0xa0 {
      InvertsRow(a, 0x98, 0x11, 0x44, 0x92, 0xd9, 0x23, 0x20, 0x89, 0x2e);
    } else if a < 0xa8 {
      InvertsRow(a, 0xa0, 0x37, 0x3f, 0xd1, 0x5b, 0x95, 0xbc, 0xcf, 0xcd);
    } else if a < 0xb0 {
      InvertsRow(a, 0xa8, 0x90, 0x87, 0x97, 0xb2, 0xdc, 0xfc, 0xbe, 0x61);
    } else if a < 0xb8 {
      InvertsRow(a, 0xb0, 0xf2, 0x56, 0xd3, 0xab, 0x14, 0x2a, 0x5d, 0x9e);
    } else {
      InvertsRow(a, 0xb8, 0x84, 0x3c, 0x39, 0x53, 0x47, 0x6d, 0x41, 0xa2);
    }
  }

  lemma Entries12()
    ensures ExpTable(0x1f) == 0xc0 && ExpTable(0x2d) == 0xc1 && ExpTable(0x43) == 0xc2 && ExpTable(0xd8) == 0xc3
    ensures ExpTable(0xb7) == 0xc4 && ExpTable(0x7b) == 0xc5 && ExpTable(0xa4) == 0xc6 && ExpTable(0x76) == 0xc7
    ensures ExpTable(0xc4) == 0xc8 && ExpTable(0x17) == 0xc9 && ExpTable(0x49) == 0xca && ExpTable(0xec) == 0xcb
    ensures ExpTable(0x7f) == 0xcc && ExpTable(0x0c) == 0xcd && ExpTable(0x6f) == 0xce && ExpTable(0xf6) == 0xcf
  {}

  lemma Entries13()
    ensures ExpTable(0x6c) == 0xd0 && ExpTable(0xa1) == 0xd1 && ExpTable(0x3b) == 0xd2 && ExpTable(0x52) == 0xd3
    ensures ExpTable(0x29) == 0xd4 && ExpTable(0x9d) == 0xd5 && ExpTable(0x55) == 0xd6 && ExpTable(0xaa) == 0xd7
    ensures ExpTable(0xfb) == 0xd8 && ExpTable(0x60) == 0xd9 && ExpTable(0x86) == 0xda && ExpTable(0xb1) == 0xdb
    ensures ExpTable(0xbb) == 0xdc && ExpTable(0xcc) == 0xdd && ExpTable(0x3e) == 0xde && ExpTable(0x5a) == 0xdf
  {}

  lemma Entries14()
    ensures ExpTable(0xcb) == 0xe0 && ExpTable(0x59) == 0xe1 && ExpTable(0x5f) == 0xe2 && ExpTable(0xb0) == 0xe3
    ensures ExpTable(0x9c) == 0xe4 && ExpTable(0xa9) == 0xe5 && ExpTable(0xa0) == 0xe6 && ExpTable(0x51) == 0xe7
    ensures ExpTable(0x0b) == 0xe8 && ExpTable(0xf5) == 0xe9 && ExpTable(0x16) == 0xea && ExpTable(0xeb) == 0xeb
    ensures ExpTable(0x7a) == 0xec && ExpTable(0x75) == 0xed && ExpTable(0x2c) == 0xee && ExpTable(0xd7) == 0xef
  {}

  lemma Entries15()
    ensures ExpTable(0x4f) == 0xf0 && ExpTable(0xae) == 0xf1 && ExpTable(0xd5) == 0xf2 && ExpTable(0xe9) == 0xf3
    ensures ExpTable(0xe6) == 0xf4 && ExpTable(0xe7) == 0xf5 && ExpTable(0xad) == 0xf6 && ExpTable(0xe8) == 0xf7
    ensures ExpTable(0x74) == 0xf8 && ExpTable(0xd6) == 0xf9 && ExpTable(0xf4) == 0xfa && ExpTable(0xea) == 0xfb
    ensures ExpTable(0xa8) == 0xfc && ExpTable(0x50) == 0xfd && ExpTable(0x58) == 0xfe && ExpTable(0xaf) == 0xff
  {}

  lemma LogInverts3(a: bv8)
    requires 0xc0 <= a
    ensures ExpTable(LogTable(a)) == a
  {
    hide ExpTable, Nth;
    Entries12(); Entries13(); Entries14(); Entries15();
    if a < 0xc8 {
      InvertsRow(a, 0xc0, 0x1f, 0x2d, 0x43, 0xd8, 0xb7, 0x7b, 0xa4, 0x76);
    } else if a < 0xd0 {
      InvertsRow(a, 0xc8, 0xc4, 0x17, 0x49, 0xec, 0x7f, 0x0c, 0x6f, 0xf6);
    } else if a < 0xd8 {
      InvertsRow(a, 0xd0, 0x6c, 0xa1, 0x3b, 0x52, 0x29, 0x9d, 0x55, 0xaa);
    } else if a < 0xe0 {
      InvertsRow(a, 0xd8, 0xfb, 0x60, 0x86, 0xb1, 0xbb, 0xcc, 0x3e, 0x5a);
    } else if a < 0xe8 {
      InvertsRow(a, 0xe0, 0xcb, 0x59, 0x5f, 0xb0, 0x9c, 0xa9, 0xa0, 0x51);
    } else if a < 0xf0 {
      InvertsRow(a, 0xe8, 0x0b, 0xf5, 0x16, 0xeb, 0x7a, 0x75, 0x2c, 0xd7);
    } else if a < 0xf8 {
      InvertsRow(a, 0xf0, 0x4f, 0xae, 0xd5, 0xe9, 0xe6, 0xe7, 0xad, 0xe8);
    } else {
      InvertsRow(a, 0xf8, 0x74, 0xd6, 0xf4, 0xea, 0xa8, 0x50, 0x58, 0xaf);
    }
  }

  lemma LogTableInverts(a: bv8)
    requires a != 0
    ensures ExpTable(LogTable(a)) == a
  {
    hide ExpTable, LogTable;
    if a < 0x40 {
      LogInverts0(a);
    } else if a < 0x80 {
      LogInverts1(a);
    } else if a < 0xc0 {
      LogInverts2(a);
    } else {
      LogInverts3(a);
    }
  }

  // ----- the tables at integer indices, as the decoder uses them

  function Exp(i: nat): bv8
    requires i < 256
  {
    ExpTable(i as bv8)
  }

  function Log(a: bv8): (k: nat)
    ensures k < 256
  {
    LogTable(a) as nat
  }

  /** The field has the generator 2: Alpha(k) is its k-th power. */
  ghost function Alpha(k: nat): bv8 {
    if k == 0 then 1 else XTime(Alpha(k - 1))
  }

  lemma ByteSuccessor(b: bv8)
    requires b < 255
    ensures (b + 1) as nat == b as nat + 1
  {}

  lemma {:induction false} ByteOf(i: nat) returns (b: bv8)
    requires i < 256
    ensures b as nat == i && i as bv8 == b
  {
    if i == 0 {
      b := 0;
    } else {
      var a := ByteOf(i - 1);
      b := a + 1;
      ByteSuccessor(a);
    }
    assert (b as nat) as bv8 == b;
  }

  lemma {:induction false} ExpTableIsAlpha(b: bv8)
    ensures ExpTable(b) == Alpha(b as nat)
    decreases b as nat
  {
    hide ExpTable, XTime;
    ExpTableEnds();
    if b > 0 {
      ByteSuccessor(b - 1);
      ExpTableIsAlpha(b - 1);
      ExpTableStep(b - 1);
    }
  }

  lemma ExpIsAlpha(i: nat)
    requires i < 256
    ensures Exp(i) == Alpha(i)
  {
    hide ExpTable, XTime;
    var b := ByteOf(i);
    ExpTableIsAlpha(b);
  }

  lemma LogIsLogarithm(a: bv8)
    requires a != 0
    ensures Alpha(Log(a)) == a
  {
    hide ExpTable, LogTable;
    LogTableInverts(a);
    assert Log(a) as bv8 == LogTable(a);
    ExpIsAlpha(Log(a));
  }

  // ----- powers of the generator

  lemma {:induction false} AlphaAdd(m: nat, n: nat)
    ensures Alpha(m + n) == Mul(Alpha(m), Alpha(n))
  {
    hide Mul, XTime;
    if m == 0 {
      MulOneLeft(Alpha(n));
    } else {
      AlphaAdd(m - 1, n);
      MulXTimeLeft(Alpha(m - 1), Alpha(n));
    }
  }

  lemma Alpha255()
    ensures Alpha(255) == 1
  {
    hide ExpTable;
    ExpIsAlpha(255);
    ExpTableEnds();
  }

  lemma {:induction false} AlphaMod(k: nat)
    ensures Alpha(k) == Alpha(k % 255)
  {
    hide Mul, XTime;
    if k >= 255 {
      AlphaMod(k - 255);
      AlphaAdd(255, k - 255);
      Alpha255();
      MulOneLeft(Alpha(k - 255));
    }
  }

  lemma AlphaNotOne(d: nat)
    requires 0 < d < 255
    ensures Alpha(d) != 1
  {
    hide ExpTable;
    var b := ByteOf(d);
    ExpTableIsAlpha(b);
    ExpTableStep(b);
  }

  lemma AlphaNonZero(k: nat)
    ensures Alpha(k) != 0
  {
    hide Mul, XTime;
    var m := k % 255;
    AlphaMod(k);
    AlphaAdd(m, 255 - m);
    Alpha255();
    MulZeroLeft(Alpha(255 - m));
  }

  lemma AlphaInjective(i: nat, j: nat)
    requires i < j < 255
    ensures Alpha(i) != Alpha(j)
  {
    hide Mul, XTime;
    AlphaNotOne(j - i);
    if Alpha(i) == Alpha(j) {
      AlphaAdd(j - i, i);
      AlphaAdd(i, 255 - i);
      Alpha255();
      var c := Alpha(255 - i);
      MulAssoc(Alpha(j - i), Alpha(i), c);
      MulComm(Alpha(j - i), 1);
      MulOneLeft(Alpha(j - i));
    }
  }

  // ----- inverses

  ghost function Inv(a: bv8): bv8
    requires a != 0
  {
    Alpha(255 - Log(a))
  }

  lemma MulInv(a: bv8)
    requires a != 0
    ensures Mul(a, Inv(a)) == 1 && Inv(a) != 0
  {
    hide Mul, XTime, LogTable;
    LogIsLogarithm(a);
    AlphaAdd(Log(a), 255 - Log(a));
    Alpha255();
    AlphaNonZero(255 - Log(a));
  }

  lemma MulNonZero(a: bv8, b: bv8)
    ensures Mul(a, b) == 0 <==> a == 0 || b == 0
  {
    hide *;
    MulZero(a); MulZeroLeft(b);
    if Mul(a, b) == 0 && b != 0 {
      MulInv(b);
      MulAssoc(a, b, Inv(b));
      MulZeroLeft(Inv(b));
      MulOneRight(a);
    }
  }

  lemma MulOneRight(a: bv8)
    ensures Mul(a, 1) == a
  {
    hide *;
    MulComm(a, 1); MulOneLeft(a);
  }

  lemma MulCancel(a: bv8, b: bv8, c: bv8)
    requires c != 0 && Mul(a, c) == Mul(b, c)
    ensures a == b
  {
    hide *;
    MulAddLeft(a, b, c);
    AddEq(Mul(a, c), Mul(b, c));
    MulNonZero(Add(a, b), c);
    AddEq(a, b);
  }

  // ----- the decoder's table arithmetic is field arithmetic

  /** The product as the decoder forms it from its tables. */
  lemma TableProduct(a: bv8, b: bv8)
    requires a != 0 && b != 0
    ensures Exp((Log(a) + Log(b)) % 255) == Mul(a, b)
  {
    hide Mul, XTime, LogTable, ExpTable, Exp, Log;
    LogIsLogarithm(a); LogIsLogarithm(b);
    AlphaAdd(Log(a), Log(b));
    AlphaMod(Log(a) + Log(b));
    ExpIsAlpha((Log(a) + Log(b)) % 255);
  }

  /** The quotient b / a as the decoder forms it: the result times a is b. */
  lemma TableQuotient(a: bv8, b: bv8)
    requires a != 0 && b != 0
    ensures Mul(Exp((255 - Log(a) + Log(b)) % 255), a) == b
  {
    hide Mul, XTime, LogTable, ExpTable, Exp, Log;
    var k := 255 - Log(a) + Log(b);
    LogIsLogarithm(a); LogIsLogarithm(b);
    ExpIsAlpha(k % 255);
    AlphaMod(k);
    AlphaAdd(k, Log(a));
    AlphaAdd(255, Log(b));
    Alpha255();
    MulOneLeft(b);
  }
}
