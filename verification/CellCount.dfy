/** The free modules of a symbol are exactly as many as the encoder's formula says. */
module CellCount {
  import opened Versions
  import opened FunctionCells
  import opened Zigzag

  // ----- sums of products of one-dimensional sets

  /** The cells with x in p and y in q, counted with a sign. */
  datatype Product = Product(p: int -> bool, q: int -> bool, sign: int)

  function Weight(ps: seq<Product>, x: int, y: int): int {
    if ps == [] then 0
    else (if ps[0].p(x) && ps[0].q(y) then ps[0].sign else 0) + Weight(ps[1..], x, y)
  }

  function ColumnSum(ps: seq<Product>, x: int, n: nat): int {
    if n == 0 then 0 else ColumnSum(ps, x, n - 1) + Weight(ps, x, n - 1)
  }

  function GridSum(ps: seq<Product>, m: nat, n: nat): int {
    if m == 0 then 0 else GridSum(ps, m - 1, n) + ColumnSum(ps, m - 1, n)
  }

  function ProductSum(ps: seq<Product>, m: nat, n: nat): int {
    if ps == [] then 0
    else ps[0].sign * (Num(ps[0].p, m) * Num(ps[0].q, n)) + ProductSum(ps[1..], m, n)
  }

  lemma {:induction false} ColumnSumCons(ps: seq<Product>, x: int, n: nat)
    requires ps != []
    ensures ColumnSum(ps, x, n) ==
            (if ps[0].p(x) then ps[0].sign * Num(ps[0].q, n) else 0) + ColumnSum(ps[1..], x, n)
  {
    if n > 0 {
      ColumnSumCons(ps, x, n - 1);
      Distribute(ps[0].sign, Num(ps[0].q, n - 1), 1);
    }
  }

  lemma Distribute(a: int, b: int, c: int)
    ensures a * (b + c) == a * b + a * c
  {}

  lemma OneMoreColumn(s: int, a: int, q: int)
    ensures s * ((a + 1) * q) == s * (a * q) + s * q
  {
    assert (a + 1) * q == a * q + q;
    Distribute(s, a * q, q);
  }

  lemma {:induction false} GridSumCons(ps: seq<Product>, m: nat, n: nat)
    requires ps != []
    ensures GridSum(ps, m, n) ==
            ps[0].sign * (Num(ps[0].p, m) * Num(ps[0].q, n)) + GridSum(ps[1..], m, n)
  {
    if m > 0 {
      GridSumCons(ps, m - 1, n);
      ColumnSumCons(ps, m - 1, n);
      OneMoreColumn(ps[0].sign, Num(ps[0].p, m - 1), Num(ps[0].q, n));
    }
  }

  lemma {:induction false} GridSumIsProductSum(ps: seq<Product>, m: nat, n: nat)
    ensures GridSum(ps, m, n) == ProductSum(ps, m, n)
  {
    if ps == [] {
      GridSumEmpty(m, n);
    } else {
      GridSumCons(ps, m, n);
      GridSumIsProductSum(ps[1..], m, n);
    }
  }

  lemma {:induction false} GridSumEmpty(m: nat, n: nat)
    ensures GridSum([], m, n) == 0
  {
    if m > 0 {
      GridSumEmpty(m - 1, n);
      ColumnSumEmpty(m - 1, n);
    }
  }

  lemma {:induction false} ColumnSumEmpty(x: int, n: nat)
    ensures ColumnSum([], x, n) == 0
  {
    if n > 0 {
      ColumnSumEmpty(x, n - 1);
    }
  }

  // ----- one-dimensional sets

  function Range(lo: int, hi: int): int -> bool {
    i => lo <= i < hi
  }

  function RangeBut6(lo: int, hi: int): int -> bool {
    i => lo <= i < hi && i != 6
  }

  ghost function NearSet(positions: seq<int>, hi: int): int -> bool {
    i => NearAny(positions, 1, hi, i)
  }

  lemma {:induction false} NumRange(lo: nat, hi: nat, n: nat)
    requires lo <= hi
    ensures Num(Range(lo, hi), n) == if n <= lo then 0 else if n <= hi then n - lo else hi - lo
  {
    if n > 0 {
      NumRange(lo, hi, n - 1);
    }
  }

  lemma {:induction false} NumRangeBut6(lo: nat, hi: nat, n: nat)
    requires lo <= 6 < hi
    ensures Num(RangeBut6(lo, hi), n) ==
            (if n <= lo then 0 else if n <= hi then n - lo else hi - lo) - (if n > 6 then 1 else 0)
  {
    if n > 0 {
      NumRangeBut6(lo, hi, n - 1);
    }
  }

  lemma Gaps(version: nat, positions: seq<int>, hi: int)
    requires WellSpaced(version, positions) && 0 <= hi < |positions|
    ensures positions[hi] >= 6
    ensures hi > 0 ==> positions[hi] - positions[hi - 1] >= 12
  {
    if hi > 0 {
      assert positions[hi] - positions[0] >= 12 * (hi - 0);
    }
  }

  lemma NoneBelow(positions: seq<int>)
    ensures forall i :: !NearSet(positions, 0)(i)
  {}

  lemma {:induction false} NumTail(version: nat, positions: seq<int>, hi: int, n: nat)
    requires WellSpaced(version, positions) && 0 <= hi < |positions|
    requires n >= positions[hi] + 3 >= 0
    ensures Num(NearSet(positions, hi), n) == Num(NearSet(positions, hi), positions[hi] + 3)
  {
    hide WellSpaced, NearSet;
    if n > positions[hi] + 3 {
      FarAbove(version, positions, hi, n - 1);
      NumTail(version, positions, hi, n - 1);
    }
  }

  /** Position hi adds five cells to those of the earlier ones. */
  lemma PositionAdds(version: nat, positions: seq<int>, hi: int)
    requires WellSpaced(version, positions) && 0 < hi < |positions|
    ensures positions[hi] >= 2
    ensures Num(NearSet(positions, hi), positions[hi] + 3) == 5 + Num(NearSet(positions, hi - 1), positions[hi] - 2)
  {
    hide *;
    var p := positions[hi];
    Gaps(version, positions, hi);
    InReach(positions, hi);
    FiveMore(NearSet(positions, hi), p - 2);
    NumSame(version, positions, hi, p - 2);
  }

  /** Five cells for every position from 1 to hi that lies below n. */
  lemma {:induction false} NumNear(version: nat, positions: seq<int>, hi: int, n: nat)
    requires WellSpaced(version, positions) && 0 <= hi < |positions|
    requires n >= positions[hi] + 3
    ensures Num(NearSet(positions, hi), n) == 5 * hi
    decreases hi
  {
    Gaps(version, positions, hi);
    if hi == 0 {
      NoneBelow(positions);
      NoneIn(NearSet(positions, 0), n);
    } else {
      hide WellSpaced, NearSet, Num;
      NumTail(version, positions, hi, n);
      PositionAdds(version, positions, hi);
      NumNear(version, positions, hi - 1, positions[hi] - 2);
    }
  }

  lemma InReach(positions: seq<int>, hi: int)
    requires 1 <= hi < |positions|
    ensures var near, p := NearSet(positions, hi), positions[hi];
            near(p - 2) && near(p - 1) && near(p) && near(p + 1) && near(p + 2)
  {}

  lemma FiveMore(p: int -> bool, n: nat)
    requires p(n) && p(n + 1) && p(n + 2) && p(n + 3) && p(n + 4)
    ensures Num(p, n + 5) == 5 + Num(p, n)
  {
    assert Num(p, n + 2) == 2 + Num(p, n);
    assert Num(p, n + 4) == 2 + Num(p, n + 2);
  }

  lemma FarAbove(version: nat, positions: seq<int>, hi: int, x: int)
    requires WellSpaced(version, positions) && 0 <= hi < |positions| && x > positions[hi] + 2
    ensures !NearAny(positions, 1, hi, x) && !NearSet(positions, hi)(x)
  {
    forall a | 0 <= a < |positions| && 1 <= a <= hi ensures !Near(positions[a], x) {
      if a < hi {
        assert positions[hi] - positions[a] >= 12 * (hi - a);
      }
    }
  }

  /** Below the reach of position hi only the earlier ones count. */
  lemma {:induction false} NumSame(version: nat, positions: seq<int>, hi: int, n: nat)
    requires WellSpaced(version, positions) && 1 <= hi < |positions| && n <= positions[hi] - 2
    ensures Num(NearSet(positions, hi), n) == Num(NearSet(positions, hi - 1), n)
  {
    if n > 0 {
      NumSame(version, positions, hi, n - 1);
      assert NearSet(positions, hi)(n - 1) == NearSet(positions, hi - 1)(n - 1);
    }
  }

  // ----- the free modules as a sum of products

  ghost function FreeProducts(version: nat, positions: seq<int>): seq<Product> {
    var z, n := Size(version), |positions|;
    var info := if version >= 7 then -1 else 0;
    [Product(Range(9, z - 8), RangeBut6(0, z), 1),
     Product(RangeBut6(0, 9), Range(9, z - 8), 1),
     Product(Range(z - 8, z), Range(9, z), 1),
     Product(Range(0, 6), Range(z - 11, z - 8), info),
     Product(Range(z - 11, z - 8), Range(0, 6), info),
     Product(NearSet(positions, n - 1), NearSet(positions, n - 1), -1),
     Product(NearSet(positions, n - 2), RangeBut6(4, 9), -1),
     Product(RangeBut6(4, 9), NearSet(positions, n - 2), -1)]
  }

  ghost predicate InSplit(positions: seq<int>, x: int, y: int) {
    var n := |positions|;
    || (NearAny(positions, 1, n - 1, x) && NearAny(positions, 1, n - 1, y))
    || (NearAny(positions, 1, n - 2, x) && Near(6, y))
    || (Near(6, x) && NearAny(positions, 1, n - 2, y))
  }

  lemma AlignmentSplit(version: nat, positions: seq<int>, x: int, y: int)
    requires 1 <= version <= 40 && WellSpaced(version, positions)
    ensures InAlignment(positions, x, y) <==> InSplit(positions, x, y)
  {
    var n := |positions|;
    if InAlignment(positions, x, y) {
      var a, b :| 0 <= a < n && 0 <= b < n && !IsCorner(a, b, n) && Near(positions[a], x) && Near(positions[b], y);
      if a == 0 {
        assert 1 <= b <= n - 2;
      } else if b == 0 {
        assert 1 <= a <= n - 2;
      }
    }
    if InSplit(positions, x, y) {
      SplitInAlignment(version, positions, x, y);
    }
  }

  lemma SplitInAlignment(version: nat, positions: seq<int>, x: int, y: int)
    requires 1 <= version <= 40 && WellSpaced(version, positions) && InSplit(positions, x, y)
    ensures InAlignment(positions, x, y)
  {
    var n := |positions|;
    if NearAny(positions, 1, n - 1, x) && NearAny(positions, 1, n - 1, y) {
      var a :| 0 <= a < n && 1 <= a <= n - 1 && Near(positions[a], x);
      var b :| 0 <= b < n && 1 <= b <= n - 1 && Near(positions[b], y);
      assert !IsCorner(a, b, n);
    } else if NearAny(positions, 1, n - 2, x) {
      var a :| 0 <= a < n && 1 <= a <= n - 2 && Near(positions[a], x);
      assert !IsCorner(a, 0, n) && Near(positions[0], y);
    } else {
      var b :| 0 <= b < n && 1 <= b <= n - 2 && Near(positions[b], y);
      assert !IsCorner(0, b, n) && Near(positions[0], x);
    }
  }

  /** Where the cells near an alignment position can be. */
  lemma NearBounds(version: nat, positions: seq<int>, x: int)
    requires 1 <= version <= 40 && WellSpaced(version, positions)
    ensures var z, n := Size(version), |positions|;
            && (NearAny(positions, 1, n - 1, x) ==> 16 <= x <= z - 5)
            && (NearAny(positions, 1, n - 2, x) ==> version >= 2 && 16 <= x <= z - 17 && (version >= 7 ==> x <= z - 21))
            && (NearAny(positions, 1, n - 2, x) ==> NearAny(positions, 1, n - 1, x))
  {
    var n := |positions|;
    if NearAny(positions, 1, n - 1, x) {
      var a :| 0 <= a < n && 1 <= a <= n - 1 && Near(positions[a], x);
      assert positions[a] - positions[0] >= 12 * (a - 0);
      if a < n - 1 {
        assert positions[n - 1] - positions[a] >= 12 * (n - 1 - a);
      }
    }
    if NearAny(positions, 1, n - 2, x) {
      var a :| 0 <= a < n && 1 <= a <= n - 2 && Near(positions[a], x);
      assert positions[a] - positions[0] >= 12 * (a - 0);
      assert positions[n - 1] - positions[a] >= (if version >= 7 then 16 else 12) * (n - 1 - a);
    }
  }

  lemma WeightOfEight(ps: seq<Product>, x: int, y: int)
    requires |ps| == 8
    ensures Weight(ps, x, y) ==
            WeightOf(ps[0], x, y) + WeightOf(ps[1], x, y) + WeightOf(ps[2], x, y) + WeightOf(ps[3], x, y)
            + WeightOf(ps[4], x, y) + WeightOf(ps[5], x, y) + WeightOf(ps[6], x, y) + WeightOf(ps[7], x, y)
  {
    assert Weight(ps, x, y) == WeightOf(ps[0], x, y) + WeightOf(ps[1], x, y) + Weight(ps[2..], x, y) by {
      assert ps[1..][1..] == ps[2..];
    }
    assert Weight(ps[2..], x, y) == WeightOf(ps[2], x, y) + WeightOf(ps[3], x, y) + Weight(ps[4..], x, y) by {
      assert ps[2..][1..] == ps[3..] && ps[3..][1..] == ps[4..];
    }
    assert Weight(ps[4..], x, y) == WeightOf(ps[4], x, y) + WeightOf(ps[5], x, y) + Weight(ps[6..], x, y) by {
      assert ps[4..][1..] == ps[5..] && ps[5..][1..] == ps[6..];
    }
    assert Weight(ps[6..], x, y) == WeightOf(ps[6], x, y) + WeightOf(ps[7], x, y) + Weight([], x, y) by {
      assert ps[6..][1..] == ps[7..] && ps[7..][1..] == [];
    }
  }

  function WeightOf(p: Product, x: int, y: int): int {
    if p.p(x) && p.q(y) then p.sign else 0
  }

  /** The products count every free cell once and every other cell not at all. */
  lemma FreeWeight(version: nat, positions: seq<int>, x: int, y: int)
    requires 1 <= version <= 40 && WellSpaced(version, positions)
    requires 0 <= x < Size(version) && 0 <= y < Size(version)
    ensures Weight(FreeProducts(version, positions), x, y) ==
            if IsFunctionCell(version, positions, x, y) then 0 else 1
  {
    hide Weight, WellSpaced, InAlignment, NearAny;
    var ps := FreeProducts(version, positions);
    WeightOfEight(ps, x, y);
    AlignmentSplit(version, positions, x, y);
    NearBounds(version, positions, x);
    NearBounds(version, positions, y);
  }

  // ----- the count

  ghost function Taken(version: nat, positions: seq<int>): (int, int) -> bool {
    (x, y) => IsFunctionCell(version, positions, x, y)
  }

  lemma {:induction false} ColumnFree(version: nat, positions: seq<int>, x: int, n: nat)
    requires 1 <= version <= 40 && WellSpaced(version, positions)
    requires 0 <= x < Size(version) && n <= Size(version)
    ensures ColumnSum(FreeProducts(version, positions), x, n) == Num(FreeInColumn(Taken(version, positions), x), n)
  {
    hide FreeProducts, WellSpaced, IsFunctionCell, Weight;
    if n > 0 {
      ColumnFree(version, positions, x, n - 1);
      FreeWeight(version, positions, x, n - 1);
    }
  }

  lemma {:induction false} GridFree(version: nat, positions: seq<int>, x: nat)
    requires 1 <= version <= 40 && WellSpaced(version, positions) && x <= Size(version)
    ensures GridSum(FreeProducts(version, positions), Size(version), Size(version)) ==
            GridSum(FreeProducts(version, positions), x, Size(version)) +
            FreeFrom(Taken(version, positions), Size(version), x)
    decreases Size(version) - x
  {
    hide FreeProducts, WellSpaced, IsFunctionCell, ColumnSum;
    if x < Size(version) {
      GridFree(version, positions, x + 1);
      ColumnFree(version, positions, x, Size(version));
    }
  }

  lemma ProductSumOfEight(ps: seq<Product>, m: nat, n: nat)
    requires |ps| == 8
    ensures ProductSum(ps, m, n) ==
            Area(ps[0], m, n) + Area(ps[1], m, n) + Area(ps[2], m, n) + Area(ps[3], m, n)
            + Area(ps[4], m, n) + Area(ps[5], m, n) + Area(ps[6], m, n) + Area(ps[7], m, n)
  {
    assert ProductSum(ps, m, n) == Area(ps[0], m, n) + Area(ps[1], m, n) + ProductSum(ps[2..], m, n) by {
      assert ps[1..][1..] == ps[2..];
    }
    assert ProductSum(ps[2..], m, n) == Area(ps[2], m, n) + Area(ps[3], m, n) + ProductSum(ps[4..], m, n) by {
      assert ps[2..][1..] == ps[3..] && ps[3..][1..] == ps[4..];
    }
    assert ProductSum(ps[4..], m, n) == Area(ps[4], m, n) + Area(ps[5], m, n) + ProductSum(ps[6..], m, n) by {
      assert ps[4..][1..] == ps[5..] && ps[5..][1..] == ps[6..];
    }
    assert ProductSum(ps[6..], m, n) == Area(ps[6], m, n) + Area(ps[7], m, n) + ProductSum([], m, n) by {
      assert ps[6..][1..] == ps[7..] && ps[7..][1..] == [];
    }
  }

  function Area(p: Product, m: nat, n: nat): int {
    p.sign * (Num(p.p, m) * Num(p.q, n))
  }

  lemma NearCounts(version: nat, positions: seq<int>)
    requires 1 <= version <= 40 && WellSpaced(version, positions)
    ensures var z, n := Size(version), |positions|;
            && Num(NearSet(positions, n - 1), z) == (if n == 0 then 0 else 5 * (n - 1))
            && Num(NearSet(positions, n - 2), z) == (if n == 0 then 0 else 5 * (n - 2))
  {
    var z, n := Size(version), |positions|;
    if n == 0 {
      NoneIn(NearSet(positions, n - 1), z); NoneIn(NearSet(positions, n - 2), z);
    } else {
      NumNear(version, positions, n - 1, z);
      assert positions[n - 1] - positions[n - 2] >= 12;
      NumNear(version, positions, n - 2, z);
    }
  }

  /** The area outside the finders and timing lines, less version information and alignment patterns. */
  function AreaFormula(version: nat, z: int, n: int): int {
    (z - 17) * (z - 1) + 8 * (z - 17) + 8 * (z - 9) - (if version >= 7 then 36 else 0)
    - (if n == 0 then 0 else 25 * ((n - 1) * (n - 1)) + 40 * (n - 2))
  }

  /** The number of free modules, in terms of the number of alignment positions. */
  lemma FreeArea(version: nat, positions: seq<int>)
    requires 1 <= version <= 40 && WellSpaced(version, positions)
    ensures var z, n := Size(version), |positions|;
            ProductSum(FreeProducts(version, positions), z, z) == AreaFormula(version, z, n)
  {
    hide Num, NearSet, Range, RangeBut6, ProductSum, WellSpaced, Area;
    var z, n := Size(version), |positions|;
    var ps := FreeProducts(version, positions);
    ProductSumOfEight(ps, z, z);
    NumRange(9, z - 8, z); NumRangeBut6(0, z, z); NumRangeBut6(0, 9, z);
    NumRange(z - 8, z, z); NumRange(9, z, z);
    NumRange(0, 6, z); NumRange(z - 11, z - 8, z); NumRangeBut6(4, 9, z);
    NearCounts(version, positions);
    AreaIs(ps[0], z, z - 17, z - 1);
    AreaIs(ps[1], z, 8, z - 17);
    AreaIs(ps[2], z, 8, z - 9);
    AreaIs(ps[3], z, 6, 3);
    AreaIs(ps[4], z, 3, 6);
    var near, inner := if n == 0 then 0 else n - 1, if n == 0 then 0 else n - 2;
    AreaIs(ps[5], z, 5 * near, 5 * near);
    AreaIs(ps[6], z, 5 * inner, 4);
    AreaIs(ps[7], z, 4, 5 * inner);
    Square(near);
  }

  lemma AreaIs(p: Product, z: nat, a: int, b: int)
    requires Num(p.p, z) == a && Num(p.q, z) == b
    ensures Area(p, z, z) == if p.sign == 1 then a * b else if p.sign == -1 then -(a * b) else p.sign * (a * b)
  {}

  lemma Square(k: int)
    ensures (5 * k) * (5 * k) == 25 * (k * k)
  {}

  /** There is exactly one free module for every codeword bit and remainder bit. */
  lemma FreeCellCount(version: nat)
    requires 1 <= version <= 40
    ensures var taken := Taken(version, AlignmentPositions(version));
            |AllCells(taken, Size(version))| == RawDataModules(version)
  {
    var positions, z, n := AlignmentPositions(version), Size(version), |AlignmentPositions(version)|;
    hide *;
    AlignmentWellSpaced(version);
    CountSetting(version, positions);
    AllCellsCount(Taken(version, positions), z);
    GridFree(version, positions, 0);
    GridSumIsProductSum(FreeProducts(version, positions), z, z);
    FreeArea(version, positions);
    CountFormula(version, z, n);
  }

  lemma CountSetting(version: nat, positions: seq<int>)
    requires 1 <= version <= 40 && positions == AlignmentPositions(version)
    ensures Size(version) == 4 * version + 17 && IsSize(Size(version))
    ensures |positions| == if version == 1 then 0 else version / 7 + 2
    ensures GridSum(FreeProducts(version, positions), 0, Size(version)) == 0
    ensures forall y | 0 <= y < Size(version) :: Taken(version, positions)(6, y)
  {}

  lemma Expand(v: int, z: int, n: int)
    requires z == 4 * v + 17
    ensures (z - 17) * (z - 1) == 16 * (v * v) + 64 * v
    ensures (16 * v + 128) * v == 16 * (v * v) + 128 * v
    ensures (25 * n - 10) * n == 25 * (n * n) - 10 * n
    ensures (n - 1) * (n - 1) == n * n - 2 * n + 1
  {}

  lemma CountFormula(version: nat, z: int, n: int)
    requires 1 <= version <= 40 && z == 4 * version + 17 && n == if version == 1 then 0 else version / 7 + 2
    ensures AreaFormula(version, z, n) == RawDataModules(version)
  {
    Expand(version, z, n);
  }
}
