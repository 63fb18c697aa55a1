/** Numbers as strings of bits, the most significant first, and characters as numbers. */
module BitStrings {
  function Pow2(n: nat): nat {
    if n == 0 then 1 else 2 * Pow2(n - 1)
  }

  function ValueOf(b: seq<bool>): nat {
    if b == [] then 0 else 2 * ValueOf(b[..|b| - 1]) + (if b[|b| - 1] then 1 else 0)
  }

  /** The lowest len bits of val. */
  function BitsOf(val: nat, len: nat): (b: seq<bool>)
    ensures |b| == len
  {
    if len == 0 then [] else BitsOf(val / 2, len - 1) + [val % 2 == 1]
  }

  /** Reading back what was written. */
  lemma {:induction false} ValueOfBits(val: nat, len: nat)
    ensures Pow2(len) > 0 && ValueOf(BitsOf(val, len)) == val % Pow2(len)
    ensures val < Pow2(len) ==> ValueOf(BitsOf(val, len)) == val
  {
    hide Pow2, ValueOf, BitsOf;
    Pow2Positive(len);
    if len > 0 {
      ValueOfBits(val / 2, len - 1);
      LastBit(val, len);
      HalfMod(val, Pow2(len - 1));
    } else {
      NoBits(val);
    }
    if val < Pow2(len) {
      SmallMod(val, Pow2(len));
    }
  }

  lemma NoBits(val: nat)
    ensures Pow2(0) == 1 && ValueOf(BitsOf(val, 0)) == 0 == val % 1
  {}

  lemma {:induction false} Pow2Positive(n: nat)
    ensures Pow2(n) > 0
  {
    if n > 0 {
      Pow2Positive(n - 1);
    }
  }

  lemma LastBit(val: nat, len: nat)
    requires len > 0
    ensures ValueOf(BitsOf(val, len)) == 2 * ValueOf(BitsOf(val / 2, len - 1)) + val % 2
    ensures Pow2(len) == 2 * Pow2(len - 1)
  {
    assert BitsOf(val, len)[..len - 1] == BitsOf(val / 2, len - 1);
  }

  lemma HalfMod(a: nat, m: nat)
    requires m > 0
    ensures a % (2 * m) == 2 * (a / 2 % m) + a % 2
  {
    var h, q := a / 2, a / 2 / m;
    assert h == q * m + h % m;
    assert a == q * (2 * m) + (2 * (h % m) + a % 2);
    Remainder(a, 2 * m, q, 2 * (h % m) + a % 2);
  }

  lemma Remainder(a: nat, d: nat, q: nat, r: nat)
    requires d > 0 && a == q * d + r && r < d
    ensures a % d == r && a / d == q
  {
    if a / d < q {
      Ordered(a / d + 1, q, d);
    } else if a / d > q {
      Ordered(q + 1, a / d, d);
    }
  }

  lemma Ordered(a: int, b: int, d: int)
    requires a <= b && d >= 0
    ensures a * d <= b * d
  {}

  lemma SmallMod(a: nat, m: nat)
    requires a < m
    ensures a % m == a
  {}

  lemma {:induction false} ValueBound(b: seq<bool>)
    ensures ValueOf(b) < Pow2(|b|)
  {
    if b != [] {
      ValueBound(b[..|b| - 1]);
    }
  }

  lemma Powers()
    ensures Pow2(0) == 1 && Pow2(1) == 2 && Pow2(2) == 4 && Pow2(3) == 8 && Pow2(4) == 16 && Pow2(5) == 32
    ensures Pow2(6) == 64 && Pow2(7) == 128 && Pow2(8) == 256 && Pow2(9) == 512 && Pow2(10) == 1024
    ensures Pow2(11) == 2048 && Pow2(12) == 4096 && Pow2(13) == 8192 && Pow2(14) == 16384 && Pow2(16) == 65536
    ensures Pow2(21) == 2097152
  {
    assert Pow2(6) == 64 by { assert Pow2(3) == 8; }
    assert Pow2(11) == 2048 by { assert Pow2(9) == 512; }
    assert Pow2(16) == 65536 by { assert Pow2(14) == 16384; }
    assert Pow2(21) == 2097152 by { assert Pow2(19) == 524288; }
  }

  // ----- characters

  function Byte(n: nat): bv8
    requires n < 256
  {
    n as bv8
  }

  /** The low byte of a number. */
  function ToByte(n: nat): bv8 {
    Byte(n % 256)
  }

  lemma ByteOf(b: bv8)
    ensures b as nat < 256 && Byte(b as nat) == b
  {}

  lemma ToByteOf(b: bv8)
    ensures b as nat < 256 && ToByte(b as nat) == b
  {
    hide Byte;
    ByteOf(b);
    SmallMod(b as nat, 256);
  }

  predicate IsDigit(c: bv8) {
    48 <= c <= 57
  }

  function DigitValue(c: bv8): nat
    requires IsDigit(c)
  {
    (c as int) - 48
  }

  function DigitChar(k: nat): bv8
    requires k < 10
  {
    (k + 48) as bv8
  }

  lemma DigitOf(c: bv8)
    requires IsDigit(c)
    ensures DigitValue(c) < 10 && DigitChar(DigitValue(c)) == c
  {}

  /** The alphanumeric character set of both programs. */
  function AlphaChar(k: nat): bv8
    requires k < 45
  {
    match k
    case 0 => 48 case 1 => 49 case 2 => 50 case 3 => 51 case 4 => 52 case 5 => 53 case 6 => 54 case 7 => 55
    case 8 => 56 case 9 => 57 case 10 => 65 case 11 => 66 case 12 => 67 case 13 => 68 case 14 => 69 case 15 => 70
    case 16 => 71 case 17 => 72 case 18 => 73 case 19 => 74 case 20 => 75 case 21 => 76 case 22 => 77 case 23 => 78
    case 24 => 79 case 25 => 80 case 26 => 81 case 27 => 82 case 28 => 83 case 29 => 84 case 30 => 85 case 31 => 86
    case 32 => 87 case 33 => 88 case 34 => 89 case 35 => 90 case 36 => 32 case 37 => 36 case 38 => 37 case 39 => 42
    case 40 => 43 case 41 => 45 case 42 => 46 case 43 => 47 case _ => 58
  }

  /** The first place of c in the character set from k on, or 45. */
  function AlphaIndexFrom(c: bv8, k: nat): (r: nat)
    requires k <= 45
    ensures k <= r <= 45 && (r < 45 ==> AlphaChar(r) == c) && forall j | k <= j < r :: AlphaChar(j) != c
    decreases 45 - k
  {
    if k == 45 || AlphaChar(k) == c then k else AlphaIndexFrom(c, k + 1)
  }

  function AlphaIndex(c: bv8): nat {
    AlphaIndexFrom(c, 0)
  }

  predicate IsAlpha(c: bv8) {
    AlphaIndex(c) < 45
  }
}
