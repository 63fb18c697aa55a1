/** The eight mask patterns, as each program computes them. */
module Masks {
  /** The encoder's test whether mask msk inverts the module in column x and row y. */
  predicate Inverts(msk: nat, x: nat, y: nat)
    requires msk < 8
  {
    match msk
    case 0 => (x + y) % 2 == 0
    case 1 => y % 2 == 0
    case 2 => x % 3 == 0
    case 3 => (x + y) % 3 == 0
    case 4 => (x / 3 + y / 2) % 2 == 0
    case 5 => x * y % 2 + x * y % 3 == 0
    case 6 => (x * y % 2 + x * y % 3) % 2 == 0
    case _ => ((x + y) % 2 + x * y % 3) % 2 == 0
  }

  /** The decoder's test, for row i and column j. */
  predicate MaskBit(mask: nat, i: nat, j: nat) {
    if mask == 0 then (i + j) % 2 == 0
    else if mask == 1 then i % 2 == 0
    else if mask == 2 then j % 3 == 0
    else if mask == 3 then (i + j) % 3 == 0
    else if mask == 4 then (i / 2 + j / 3) % 2 == 0
    else if mask == 5 then (i * j) % 2 + (i * j) % 3 == 0
    else if mask == 6 then ((i * j) % 2 + (i * j) % 3) % 2 == 0
    else if mask == 7 then ((i * j) % 3 + (i + j) % 2) % 2 == 0
    else false
  }

  /** Both programs use the same patterns. */
  lemma MasksAgree(msk: nat, x: nat, y: nat)
    requires msk < 8
    ensures MaskBit(msk, y, x) == Inverts(msk, x, y)
  {
    assert x * y == y * x;
  }

  // ----- pictures

  /** The tiles of the masks, with the inverted modules marked; mask 4 repeats after four rows, the others
      after six. */
  function Tile(msk: nat): seq<string>
    requires msk < 8
  {
    match msk
    case 0 => ["#.#.#.", ".#.#.#", "#.#.#.", ".#.#.#", "#.#.#.", ".#.#.#"]
    case 1 => ["######", "......", "######", "......", "######", "......"]
    case 2 => ["#..#..", "#..#..", "#..#..", "#..#..", "#..#..", "#..#.."]
    case 3 => ["#..#..", "..#..#", ".#..#.", "#..#..", "..#..#", ".#..#."]
    case 4 => ["###...", "###...", "...###", "...###"]
    case 5 => ["######", "#.....", "#..#..", "#.#.#.", "#..#..", "#....."]
    case 6 => ["######", "###...", "##.##.", "#.#.#.", "#.##.#", "#...##"]
    case _ => ["#.#.#.", "...###", "#...##", ".#.#.#", "###...", ".###.."]
  }

  /** Every mask is its tile, repeated over the symbol. */
  lemma MaskIsTiled(msk: nat, x: nat, y: nat)
    requires msk < 8
    ensures var height := if msk == 4 then 4 else 6;
            && |Tile(msk)| == height && |Tile(msk)[y % height]| == 6
            && (Inverts(msk, x, y) <==> Tile(msk)[y % height][x % 6] == '#')
  {
    hide Tile, Inverts;
    if msk == 4 {
      FourthRepeats(x, y);
      FourthTile(x % 6, y % 4);
    } else {
      Repeats(msk, x, y);
      OneTile(msk, x % 6, y % 6);
    }
  }

  lemma FourthRepeats(x: nat, y: nat)
    ensures Inverts(4, x, y) == Inverts(4, x % 6, y % 4)
  {
    assert x / 3 == 2 * (x / 6) + x % 6 / 3 && y / 2 == 2 * (y / 4) + y % 4 / 2;
  }

  lemma FourthTile(x: nat, y: nat)
    requires x < 6 && y < 4
    ensures |Tile(4)| == 4 && |Tile(4)[y]| == 6 && (Inverts(4, x, y) <==> Tile(4)[y][x] == '#')
  {}

  lemma Repeats(msk: nat, x: nat, y: nat)
    requires msk < 8 && msk != 4
    ensures Inverts(msk, x, y) == Inverts(msk, x % 6, y % 6)
  {
    ProductRepeats(x, y);
    RestOfRest(x); RestOfRest(y);
    SumRepeats(x, y);
  }

  lemma RestOfRest(x: nat)
    ensures x % 2 == x % 6 % 2 && x % 3 == x % 6 % 3
  {}

  lemma SumRepeats(x: nat, y: nat)
    ensures (x + y) % 2 == (x % 6 + y % 6) % 2 && (x + y) % 3 == (x % 6 + y % 6) % 3
  {
    var k := x / 6 + y / 6;
    assert x + y == 6 * k + (x % 6 + y % 6);
    SameRest(k, x % 6 + y % 6);
  }

  lemma ProductRepeats(x: nat, y: nat)
    ensures x * y % 2 == (x % 6) * (y % 6) % 2 && x * y % 3 == (x % 6) * (y % 6) % 3
  {
    var k := ProductParts(x / 6, x % 6, y / 6, y % 6);
    SameRest(k, (x % 6) * (y % 6));
  }

  lemma ProductParts(a: nat, b: nat, c: nat, d: nat) returns (k: nat)
    ensures (6 * a + b) * (6 * c + d) == 6 * k + b * d
  {
    k := a * (6 * c + d) + b * c;
  }

  lemma SameRest(k: nat, r: nat)
    ensures (6 * k + r) % 2 == r % 2 && (6 * k + r) % 3 == r % 3
  {
    EvenRest(3 * k, r);
    ThirdRest(2 * k, r);
  }

  lemma EvenRest(k: nat, r: nat)
    ensures (2 * k + r) % 2 == r % 2
  {}

  lemma ThirdRest(k: nat, r: nat)
    ensures (3 * k + r) % 3 == r % 3
  {}

  lemma OneTile(msk: nat, x: nat, y: nat)
    requires msk < 8 && msk != 4 && x < 6 && y < 6
    ensures |Tile(msk)| == 6 && |Tile(msk)[y]| == 6 && (Inverts(msk, x, y) <==> Tile(msk)[y][x] == '#')
  {
    hide Tile, Inverts;
    match msk
    case 0 => Tile0(x, y);
    case 1 => Tile1(x, y);
    case 2 => Tile2(x, y);
    case 3 => Tile3(x, y);
    case 5 => Tile5(x, y);
    case 6 => Tile6(x, y);
    case _ => Tile7(x, y);
  }

  /** A product with a factor below 6, without the product. */
  function SmallProduct(x: nat, y: nat): nat
    requires x < 6
  {
    match x case 0 => 0 case 1 => y case 2 => 2 * y case 3 => 3 * y case 4 => 4 * y case _ => 5 * y
  }

  lemma SmallProductIs(x: nat, y: nat)
    requires x < 6
    ensures x * y == SmallProduct(x, y)
  {}

  lemma Tile0(x: nat, y: nat)
    requires x < 6 && y < 6
    ensures |Tile(0)| == 6 && |Tile(0)[y]| == 6 && (Inverts(0, x, y) <==> Tile(0)[y][x] == '#')
  {}

  lemma Tile1(x: nat, y: nat)
    requires x < 6 && y < 6
    ensures |Tile(1)| == 6 && |Tile(1)[y]| == 6 && (Inverts(1, x, y) <==> Tile(1)[y][x] == '#')
  {}

  lemma Tile2(x: nat, y: nat)
    requires x < 6 && y < 6
    ensures |Tile(2)| == 6 && |Tile(2)[y]| == 6 && (Inverts(2, x, y) <==> Tile(2)[y][x] == '#')
  {}

  lemma Tile3(x: nat, y: nat)
    requires x < 6 && y < 6
    ensures |Tile(3)| == 6 && |Tile(3)[y]| == 6 && (Inverts(3, x, y) <==> Tile(3)[y][x] == '#')
  {}

  lemma Tile5(x: nat, y: nat)
    requires x < 6 && y < 6
    ensures |Tile(5)| == 6 && |Tile(5)[y]| == 6 && (Inverts(5, x, y) <==> Tile(5)[y][x] == '#')
  {
    SixDivides(x, y);
    hide Inverts;
  }

  /** Below 6, a product is divisible by 6 only if a factor is 0, or one is 3 and the other even. */
  lemma SixDivides(x: nat, y: nat)
    requires x < 6 && y < 6
    ensures Inverts(5, x, y) <==> x == 0 || y == 0 || (x == 3 && y % 2 == 0) || (y == 3 && x % 2 == 0)
  {
    SmallProductIs(x, y);
  }

  /** The rest of a product on division by 3. */
  function ThirdOf(x: nat, y: nat): nat {
    if x % 3 == 0 || y % 3 == 0 then 0 else if x % 3 == y % 3 then 1 else 2
  }

  function OddOf(x: nat, y: nat): nat {
    if x % 2 == 1 && y % 2 == 1 then 1 else 0
  }

  lemma ProductRests(x: nat, y: nat)
    requires x < 6 && y < 6
    ensures x * y % 3 == ThirdOf(x, y) && x * y % 2 == OddOf(x, y)
  {
    SmallProductIs(x, y);
  }

  lemma InvertsMeans(x: nat, y: nat)
    requires x < 6 && y < 6
    ensures Inverts(6, x, y) <==> (OddOf(x, y) + ThirdOf(x, y)) % 2 == 0
    ensures Inverts(7, x, y) <==> ((x + y) % 2 + ThirdOf(x, y)) % 2 == 0
  {
    ProductRests(x, y);
    hide ThirdOf, OddOf, SmallProduct;
  }

  lemma Tile6(x: nat, y: nat)
    requires x < 6 && y < 6
    ensures |Tile(6)| == 6 && |Tile(6)[y]| == 6 && (Inverts(6, x, y) <==> Tile(6)[y][x] == '#')
  {
    hide Inverts, Tile, OddOf, ThirdOf;
    InvertsMeans(x, y);
    PictureOf6(x, y);
  }

  lemma PictureOf6(x: nat, y: nat)
    requires x < 6 && y < 6
    ensures |Tile(6)| == 6 && |Tile(6)[y]| == 6
    ensures (OddOf(x, y) + ThirdOf(x, y)) % 2 == 0 <==> Tile(6)[y][x] == '#'
  {}

  lemma Tile7(x: nat, y: nat)
    requires x < 6 && y < 6
    ensures |Tile(7)| == 6 && |Tile(7)[y]| == 6 && (Inverts(7, x, y) <==> Tile(7)[y][x] == '#')
  {
    hide Inverts, Tile, ThirdOf;
    InvertsMeans(x, y);
    PictureOf7(x, y);
  }

  lemma PictureOf7(x: nat, y: nat)
    requires x < 6 && y < 6
    ensures |Tile(7)| == 6 && |Tile(7)[y]| == 6
    ensures ((x + y) % 2 + ThirdOf(x, y)) % 2 == 0 <==> Tile(7)[y][x] == '#'
  {}
}
