/** Which modules of a symbol hold no codeword bits, given the alignment pattern positions. */
module FunctionCells {
  import opened Versions

  function Size(version: nat): nat {
    4 * version + 17
  }

  predicate Near(p: int, x: int) {
    -2 <= p - x <= 2
  }

  /** x is covered by one of the alignment positions with index lo to hi. */
  ghost predicate NearAny(positions: seq<int>, lo: int, hi: int, x: int) {
    exists a :: 0 <= a < |positions| && lo <= a <= hi && Near(positions[a], x)
  }

  predicate IsCorner(a: nat, b: nat, n: nat) {
    (a == 0 && b == 0) || (a == 0 && b == n - 1) || (a == n - 1 && b == 0)
  }

  ghost predicate InAlignment(positions: seq<int>, x: int, y: int) {
    exists a, b :: 0 <= a < |positions| && 0 <= b < |positions| && !IsCorner(a, b, |positions|)
      && Near(positions[a], x) && Near(positions[b], y)
  }

  predicate InFinderOrFormat(size: nat, x: int, y: int) {
    || (x < 9 && y < 9)
    || (x >= size - 8 && y < 9)
    || (x < 9 && y >= size - 8)
  }

  predicate InTiming(x: int, y: int) {
    x == 6 || y == 6
  }

  predicate InVersionInfo(version: nat, x: int, y: int) {
    var size := Size(version);
    version >= 7 && ((x < 6 && y >= size - 11) || (x >= size - 11 && y < 6))
  }

  ghost predicate IsFunctionCell(version: nat, positions: seq<int>, x: int, y: int) {
    || InFinderOrFormat(Size(version), x, y)
    || InTiming(x, y)
    || InVersionInfo(version, x, y)
    || InAlignment(positions, x, y)
  }

  /** What the counting of modules needs of the alignment positions. */
  predicate WellSpaced(version: nat, positions: seq<int>) {
    var n := |positions|;
    && (version < 2 ==> n == 0)
    && (version >= 2 ==> n >= 2 && positions[0] == 6 && positions[n - 1] == Size(version) - 7)
    && (forall a, b | 0 <= a < b < n :: positions[b] - positions[a] >= (if version >= 7 then 16 else 12) * (b - a))
  }

  // ----- the encoder's alignment positions

  /** count positions, step apart, ending at last. */
  function PositionsUpTo(count: nat, last: int, step: int): (r: seq<int>)
    ensures |r| == count
  {
    if count == 0 then [] else PositionsUpTo(count - 1, last - step, step) + [last]
  }

  function AlignmentCount(ver: nat): nat {
    ver / 7 + 2
  }

  function StepFor(ver: nat, numAlign: nat): int
    requires numAlign >= 2
  {
    if ver == 32 then 26 else (ver * 4 + numAlign * 2 + 1) / (numAlign * 2 - 2) * 2
  }

  function AlignmentStep(ver: nat): int
    requires 2 <= ver
  {
    StepFor(ver, AlignmentCount(ver))
  }

  function AlignmentPositions(ver: nat): seq<int>
    requires 1 <= ver <= 40
  {
    if ver == 1 then []
    else [6] + PositionsUpTo(AlignmentCount(ver) - 1, Size(ver) - 7, AlignmentStep(ver))
  }

  method GetAlignmentPatternPositions(ver: nat) returns (result: seq<int>)
    requires 1 <= ver <= 40
    ensures result == AlignmentPositions(ver)
  {
    hide StepFor, AlignmentCount, Size, PositionsUpTo;
    if ver == 1 {
      return [];
    }
    CountAtLeastTwo(ver);
    var numAlign := AlignmentCount(ver);
    var step := StepFor(ver, numAlign);
    result := [];
    var pos := Size(ver) - 7;
    PositionsRest(0, numAlign - 1, pos, step);
    for i := 0 to numAlign - 1
      invariant PositionsUpTo(numAlign - 1 - i, pos, step) + result == PositionsUpTo(numAlign - 1, Size(ver) - 7, step)
    {
      NextPosition(numAlign - 1 - i, pos, step, result);
      result := [pos] + result;
      pos := pos - step;
    }
    NoPositions(pos, step, result);
    result := [6] + result;
  }

  lemma NextPosition(count: nat, last: int, step: int, rest: seq<int>)
    requires count > 0
    ensures PositionsUpTo(count, last, step) + rest == PositionsUpTo(count - 1, last - step, step) + ([last] + rest)
  {}

  lemma NoPositions(last: int, step: int, rest: seq<int>)
    ensures PositionsUpTo(0, last, step) + rest == rest
  {}

  lemma CountAtLeastTwo(ver: nat)
    ensures AlignmentCount(ver) >= 2
  {}

  lemma PositionsRest(i: nat, count: nat, last: int, step: int)
    ensures PositionsUpTo(count, last, step) + [] == PositionsUpTo(count, last, step)
  {}

  lemma {:induction false} PositionAt(count: nat, last: int, step: int, a: nat)
    requires a < count
    ensures PositionsUpTo(count, last, step)[a] == last - (count - 1 - a) * step
  {
    if a < count - 1 {
      PositionAt(count - 1, last - step, step, a);
      assert (count - 1 - a) * step == (count - 2 - a) * step + step;
    }
  }

  lemma StepBounds(ver: nat)
    requires 7 <= ver <= 40
    ensures AlignmentStep(ver) >= 16
    ensures Size(ver) - 7 - (AlignmentCount(ver) - 2) * AlignmentStep(ver) - 6 >= 16
  {
    var n := AlignmentCount(ver);
    if ver < 14 { assert n == 3; }
    else if ver < 21 { assert n == 4; }
    else if ver < 28 { assert n == 5; }
    else if ver < 35 { assert n == 6; }
    else { assert n == 7; }
  }

  lemma AlignmentWellSpaced(ver: nat)
    requires 1 <= ver <= 40
    ensures WellSpaced(ver, AlignmentPositions(ver))
  {
    if ver >= 2 {
      var p, n, step := AlignmentPositions(ver), AlignmentCount(ver), AlignmentStep(ver);
      var least := if ver >= 7 then 16 else 12;
      if ver >= 7 {
        StepBounds(ver);
      } else {
        assert n == 2;
      }
      hide AlignmentStep;
      forall a | 1 <= a < n ensures p[a] == Size(ver) - 7 - (n - 1 - a) * step {
        PositionAt(n - 1, Size(ver) - 7, step, a - 1);
      }
      forall a, b | 0 <= a < b < n ensures p[b] - p[a] >= least * (b - a) {
        Gap(p, n, Size(ver) - 7, step, least, a, b);
      }
    }
  }

  lemma Gap(p: seq<int>, n: nat, last: int, step: int, least: int, a: nat, b: nat)
    requires |p| == n && a < b < n && p[0] == 6
    requires forall a | 1 <= a < n :: p[a] == last - (n - 1 - a) * step
    requires (n > 2 ==> step >= least) && last - (n - 2) * step - 6 >= least
    ensures p[b] - p[a] >= least * (b - a)
  {
    if a == 0 {
      Multiples(least, step, b - 1);
      assert p[1] == last - (n - 2) * step;
      Between(n, last, step, 1, b);
    } else {
      Multiples(least, step, b - a);
      Between(n, last, step, a, b);
    }
  }

  lemma Between(n: nat, last: int, step: int, a: int, b: int)
    ensures (last - (n - 1 - b) * step) - (last - (n - 1 - a) * step) == (b - a) * step
  {}

  lemma Multiples(a: int, b: int, k: nat)
    requires a <= b || k == 0
    ensures a * k <= b * k
  {}

  // ----- the decoder's table of them

  predicate Same(ver: nat)
    requires 1 <= ver <= 40
  {
    Apat(ver) == AlignmentPositions(ver)
  }

  lemma SameIf(ver: nat, p: seq<int>, step: int)
    requires 2 <= ver <= 40 && Apat(ver) == p && AlignmentStep(ver) == step
    requires |p| == AlignmentCount(ver) && p[0] == 6
    requires forall a | 1 <= a < |p| :: p[a] == Size(ver) - 7 - (|p| - 1 - a) * step
    ensures Same(ver)
  {
    hide Apat, AlignmentStep;
    forall a | 1 <= a < |p| ensures AlignmentPositions(ver)[a] == p[a] {
      PositionAt(|p| - 1, Size(ver) - 7, step, a - 1);
    }
  }

  lemma SameFrom1()
    ensures Same(1) && Same(2) && Same(3) && Same(4)
  {
    hide Same, PositionsUpTo;
    SameFirst();
    SameIf(2, [6, 18], 12);
    SameIf(3, [6, 22], 16);
    SameIf(4, [6, 26], 20);
  }

  lemma SameFrom5()
    ensures Same(5) && Same(6) && Same(7) && Same(8)
  {
    hide Same, PositionsUpTo;
    SameIf(5, [6, 30], 24);
    SameIf(6, [6, 34], 28);
    SameIf(7, [6, 22, 38], 16);
    SameIf(8, [6, 24, 42], 18);
  }

  lemma SameFrom9()
    ensures Same(9) && Same(10) && Same(11) && Same(12)
  {
    hide Same, PositionsUpTo;
    SameIf(9, [6, 26, 46], 20);
    SameIf(10, [6, 28, 50], 22);
    SameIf(11, [6, 30, 54], 24);
    SameIf(12, [6, 32, 58], 26);
  }

  lemma SameFrom13()
    ensures Same(13) && Same(14) && Same(15) && Same(16)
  {
    hide Same, PositionsUpTo;
    SameIf(13, [6, 34, 62], 28);
    SameIf(14, [6, 26, 46, 66], 20);
    SameIf(15, [6, 26, 48, 70], 22);
    SameIf(16, [6, 26, 50, 74], 24);
  }

  lemma SameFrom17()
    ensures Same(17) && Same(18) && Same(19) && Same(20)
  {
    hide Same, PositionsUpTo;
    SameIf(17, [6, 30, 54, 78], 24);
    SameIf(18, [6, 30, 56, 82], 26);
    SameIf(19, [6, 30, 58, 86], 28);
    SameIf(20, [6, 34, 62, 90], 28);
  }

  lemma SameFrom21()
    ensures Same(22) && Same(23) && Same(24)
  {
    hide Same, PositionsUpTo;
    SameIf(22, [6, 26, 50, 74, 98], 24);
    SameIf(23, [6, 30, 54, 78, 102], 24);
    SameIf(24, [6, 28, 54, 80, 106], 26);
  }

  lemma SameFrom25()
    ensures Same(25) && Same(26)
  {
    hide Same, PositionsUpTo;
    SameIf(25, [6, 32, 58, 84, 110], 26);
    SameIf(26, [6, 30, 58, 86, 114], 28);
  }

  lemma SameFrom27()
    ensures Same(27) && Same(28)
  {
    hide Same, PositionsUpTo;
    SameIf(27, [6, 34, 62, 90, 118], 28);
    SameIf(28, [6, 26, 50, 74, 98, 122], 24);
  }

  lemma SameFrom29()
    ensures Same(29) && Same(30)
  {
    hide Same, PositionsUpTo;
    SameIf(29, [6, 30, 54, 78, 102, 126], 24);
    SameIf(30, [6, 26, 52, 78, 104, 130], 26);
  }

  lemma SameFrom31()
    ensures Same(31) && Same(32)
  {
    hide Same, PositionsUpTo;
    SameIf(31, [6, 30, 56, 82, 108, 134], 26);
    SameIf(32, [6, 34, 60, 86, 112, 138], 26);
  }

  lemma SameFrom33()
    ensures Same(33) && Same(34)
  {
    hide Same, PositionsUpTo;
    SameIf(33, [6, 30, 58, 86, 114, 142], 28);
    SameIf(34, [6, 34, 62, 90, 118, 146], 28);
  }

  lemma SameFrom35()
    ensures Same(35) && Same(36)
  {
    hide Same, PositionsUpTo;
    SameIf(35, [6, 30, 54, 78, 102, 126, 150], 24);
    SameIf(36, [6, 24, 50, 76, 102, 128, 154], 26);
  }

  lemma SameFrom37()
    ensures Same(37) && Same(38)
  {
    hide Same, PositionsUpTo;
    SameIf(37, [6, 28, 54, 80, 106, 132, 158], 26);
    SameIf(38, [6, 32, 58, 84, 110, 136, 162], 26);
  }

  lemma SameFrom39()
    ensures Same(39) && Same(40)
  {
    hide Same, PositionsUpTo;
    SameIf(39, [6, 26, 54, 82, 110, 138, 166], 28);
    SameIf(40, [6, 30, 58, 86, 114, 142, 170], 28);
  }

  lemma SameFirst()
    ensures Same(1)
  {}

  lemma SameAll(ver: nat)
    requires 1 <= ver <= 40 && ver != 21
    ensures Same(ver)
  {
    hide *;
    if ver <= 4 { SameFrom1(); } else if ver <= 8 { SameFrom5(); } else if ver <= 12 { SameFrom9(); }
    else if ver <= 16 { SameFrom13(); } else if ver <= 20 { SameFrom17(); } else if ver <= 24 { SameFrom21(); }
    else if ver <= 28 { SameFrom25(); SameFrom27(); } else if ver <= 32 { SameFrom29(); SameFrom31(); }
    else if ver <= 36 { SameFrom33(); SameFrom35(); }
    else { SameFrom37(); SameFrom39(); }
  }

  lemma Different21()
    ensures !Same(21)
  {
    assert Apat(21)[4] == 92;
    PositionAt(4, 94, 22, 3);
  }

  /** The decoder's table agrees with the encoder's formula, except in version 21. */
  lemma AlignmentAgrees(ver: nat)
    requires 1 <= ver <= 40
    ensures Apat(ver) == AlignmentPositions(ver) <==> ver != 21
  {
    hide Apat, AlignmentPositions;
    Different21();
    if ver != 21 { SameAll(ver); }
  }

  lemma ApatSpaced(ver: nat)
    requires 1 <= ver <= 40
    ensures |Apat(ver)| != 1
    ensures forall a, b | 0 <= a < b < |Apat(ver)| :: Apat(ver)[b] - Apat(ver)[a] >= 5
  {
    if ver == 21 {
      assert Apat(21) == [6, 28, 50, 72, 92];
    } else {
      AlignmentAgrees(ver);
      AlignmentWellSpaced(ver);
    }
  }

  /** The last positions near i and near j, or -1. */
  method PositionsNear(apat: seq<int>, i: nat, j: nat) returns (ai: int, aj: int)
    requires forall a, b | 0 <= a < b < |apat| :: apat[b] - apat[a] >= 5
    ensures -1 <= ai < |apat| && -1 <= aj < |apat|
    ensures forall k | 0 <= k < |apat| :: Near(apat[k], i) <==> ai == k
    ensures forall k | 0 <= k < |apat| :: Near(apat[k], j) <==> aj == k
  {
    ai, aj := -1, -1;
    var a := 0;
    while a < |apat|
      invariant 0 <= a <= |apat|
      invariant -1 <= ai < a && -1 <= aj < a
      invariant forall k | 0 <= k < a :: Near(apat[k], i) <==> ai == k
      invariant forall k | 0 <= k < a :: Near(apat[k], j) <==> aj == k
    {
      var p := apat[a];
      if -3 < p - i < 3 {
        ai := a;
      }
      if -3 < p - j < 3 {
        aj := a;
      }
      a := a + 1;
    }
  }

  /** The decoder's test, cell row i and column j, for the positions of its database. */
  method ReservedCell(version: nat, i: nat, j: nat) returns (r: bool)
    requires 1 <= version <= 40
    ensures r == IsFunctionCell(version, Apat(version), j, i)
  {
    hide Apat, InAlignment, IsCorner;
    ApatSpaced(version);
    var apat := Apat(version);
    var size := version * 4 + 17;
    var ai, aj;
    if i < 9 && j < 9 {
      return true;
    }
    if i + 8 >= size && j < 9 {
      return true;
    }
    if i < 9 && j + 8 >= size {
      return true;
    }
    if i == 6 || j == 6 {
      return true;
    }
    if version >= 7 {
      if i < 6 && j + 11 >= size {
        return true;
      }
      if i + 11 >= size && j < 6 {
        return true;
      }
    }
    ai, aj := PositionsNear(apat, i, j);
    Decided(apat, j, i, aj, ai);
    if ai >= 0 && aj >= 0 {
      var a := |apat| - 1;
      if ai > 0 && ai < a {
        return true;
      }
      if aj > 0 && aj < a {
        return true;
      }
      if aj == a && ai == a {
        return true;
      }
    }
    return false;
  }

  /** Once the only positions near x and near y are known, the pattern is decided. */
  lemma Decided(p: seq<int>, x: int, y: int, ax: int, ay: int)
    requires |p| != 1 && -1 <= ax < |p| && -1 <= ay < |p|
    requires forall k | 0 <= k < |p| :: Near(p[k], x) <==> ax == k
    requires forall k | 0 <= k < |p| :: Near(p[k], y) <==> ay == k
    ensures var last := |p| - 1;
            InAlignment(p, x, y) <==>
            ax >= 0 && ay >= 0 && (0 < ay < last || 0 < ax < last || (ax == last && ay == last))
  {
    if ax >= 0 && ay >= 0 && !IsCorner(ax, ay, |p|) {
      assert Near(p[ax], x) && Near(p[ay], y);
    }
  }

  /** Both programs set aside the same cells, except in version 21. */
  lemma ReservedMapsAgree(version: nat)
    requires 1 <= version <= 40
    ensures (forall x, y | 0 <= x < Size(version) && 0 <= y < Size(version) ::
               IsFunctionCell(version, Apat(version), x, y) ==
               IsFunctionCell(version, AlignmentPositions(version), x, y))
            <==> version != 21
  {
    hide Apat, AlignmentPositions, InAlignment;
    AlignmentAgrees(version);
    if version == 21 {
      Corner21();
    }
  }

  /** In version 21 the encoder's last alignment pattern covers (96, 96), the decoder's does not. */
  lemma Corner21()
    ensures Size(21) == 101
    ensures IsFunctionCell(21, AlignmentPositions(21), 96, 96) && !IsFunctionCell(21, Apat(21), 96, 96)
  {
    hide Apat, AlignmentPositions, InAlignment;
    Last21();
    CoveredByLast(AlignmentPositions(21), 96);
    FarFromAll(Apat(21), 96);
  }

  lemma Last21()
    ensures |AlignmentPositions(21)| == 5 && AlignmentPositions(21)[4] == 94
    ensures Apat(21) == [6, 28, 50, 72, 92]
  {
    hide Apat;
    LastPosition21();
    Apat21();
  }

  lemma LastPosition21()
    ensures |AlignmentPositions(21)| == 5 && AlignmentPositions(21)[4] == 94
  {
    PositionAt(4, 94, 22, 3);
  }

  lemma Apat21()
    ensures Apat(21) == [6, 28, 50, 72, 92]
  {}

  lemma CoveredByLast(p: seq<int>, x: int)
    requires |p| == 5 && Near(p[4], x)
    ensures InAlignment(p, x, x)
  {
    assert !IsCorner(4, 4, 5);
  }

  lemma FarFromAll(p: seq<int>, x: int)
    requires forall a | 0 <= a < |p| :: !Near(p[a], x)
    ensures !InAlignment(p, x, x)
  {}
}
