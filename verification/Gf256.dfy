/** Arithmetic of GF(256) as the encoder computes it: bytes are polynomials over GF(2)
    modulo x^8 + x^4 + x^3 + x^2 + 1 (0x11D), addition is exclusive or. */
module Gf256 {
  function Add(a: bv8, b: bv8): bv8 { a ^ b }

  /** Multiplication by x (by the generator 2). */
  function XTime(a: bv8): bv8 { (a << (1 as bv8)) ^ ((a >> (7 as bv8)) * 0x1D) }

  function Half(y: bv8): bv8 { y >> (1 as bv8) }

  /** x if the lowest bit of y is set, 0 otherwise. */
  function Odd(y: bv8, x: bv8): bv8 { (y & 1) * x }

  /** Russian peasant multiplication, most significant bit of y first. */
  function Mul(x: bv8, y: bv8): bv8
    decreases y as int
  {
    if y == 0 then 0 else HalfLess(y); Add(XTime(Mul(x, Half(y))), Odd(y, x))
  }

  lemma HalfLess(y: bv8)
    requires y != 0
    ensures Half(y) < y
    ensures Half(y) as int < y as int
  {}

  // ----- addition

  lemma AddComm(a: bv8, b: bv8)
    ensures Add(a, b) == Add(b, a)
  {}

  lemma AddAssoc(a: bv8, b: bv8, c: bv8)
    ensures Add(Add(a, b), c) == Add(a, Add(b, c))
  {}

  lemma AddZero(a: bv8)
    ensures Add(a, 0) == a && Add(0, a) == a && Add(a, a) == 0
  {}

  lemma AddEq(a: bv8, b: bv8)
    ensures Add(a, b) == 0 <==> a == b
  {}

  lemma AddSwap(a: bv8, b: bv8, c: bv8, d: bv8)
    ensures Add(Add(a, b), Add(c, d)) == Add(Add(a, c), Add(b, d))
  {
    hide *;
    AddAssoc(a, b, Add(c, d)); AddAssoc(b, c, d); AddComm(b, c);
    AddAssoc(c, b, d); AddAssoc(a, c, Add(b, d));
  }

  // ----- the steps of the multiplication are linear

  lemma XTimeAdd(a: bv8, b: bv8)
    ensures XTime(Add(a, b)) == Add(XTime(a), XTime(b))
    ensures XTime(0) == 0
  {}

  lemma HalfAdd(y: bv8, z: bv8)
    ensures Half(Add(y, z)) == Add(Half(y), Half(z))
  {}

  lemma OddAdd(y: bv8, a: bv8, b: bv8)
    ensures Odd(y, Add(a, b)) == Add(Odd(y, a), Odd(y, b))
  {
    hide *;
    OddCases(y, a); OddCases(y, b); OddCases(y, Add(a, b)); AddZero(0);
  }

  lemma OddCases(y: bv8, x: bv8)
    ensures y & 1 == 0 || y & 1 == 1
    ensures Odd(y, x) == if y & 1 == 0 then 0 else x
  {
    assert y & 1 == 0 || y & 1 == 1;
  }

  lemma OddAddBit(y: bv8, z: bv8, a: bv8)
    ensures Odd(Add(y, z), a) == Add(Odd(y, a), Odd(z, a))
  {
    assert y & 1 == 0 || y & 1 == 1;
    assert z & 1 == 0 || z & 1 == 1;
    assert (y ^ z) & 1 == (y & 1) ^ (z & 1);
  }

  lemma OddXTime(y: bv8, x: bv8)
    ensures Odd(y, XTime(x)) == XTime(Odd(y, x))
  {
    assert y & 1 == 0 || y & 1 == 1;
  }

  lemma HalfXTime(y: bv8)
    ensures y == Add(XTime(Half(y)), Odd(y, 1))
  {}

  // ----- the ring laws

  lemma MulZero(x: bv8)
    ensures Mul(x, 0) == 0
  {}

  lemma MulStep(x: bv8, y: bv8)
    ensures Mul(x, y) == Add(XTime(Mul(x, Half(y))), Odd(y, x))
  {
    if y == 0 {
      assert Half(y) == 0 && Odd(y, x) == 0;
      XTimeAdd(0, 0);
    }
    hide Add, XTime, Half, Odd;
  }

  lemma {:induction false} MulAddLeft(x: bv8, y: bv8, z: bv8)
    ensures Mul(Add(x, y), z) == Add(Mul(x, z), Mul(y, z))
    decreases z as int
  {
    hide *;
    if z == 0 {
      MulZero(x); MulZero(y); MulZero(Add(x, y)); AddZero(0);
    } else {
      HalfLess(z);
      MulAddLeft(x, y, Half(z));
      MulStep(x, z); MulStep(y, z); MulStep(Add(x, y), z);
      XTimeAdd(Mul(x, Half(z)), Mul(y, Half(z)));
      OddAdd(z, x, y);
      AddSwap(XTime(Mul(x, Half(z))), XTime(Mul(y, Half(z))), Odd(z, x), Odd(z, y));
    }
  }

  lemma {:induction false} MulAddRight(x: bv8, y: bv8, z: bv8)
    ensures Mul(x, Add(y, z)) == Add(Mul(x, y), Mul(x, z))
    decreases y as int, z as int
  {
    hide *;
    if y == 0 {
      MulZero(x); AddZero(z); AddZero(Mul(x, z));
    } else {
      HalfLess(y);
      MulAddRight(x, Half(y), Half(z));
      HalfAdd(y, z);
      MulStep(x, y); MulStep(x, z); MulStep(x, Add(y, z));
      XTimeAdd(Mul(x, Half(y)), Mul(x, Half(z)));
      OddAddBit(y, z, x);
      AddSwap(XTime(Mul(x, Half(y))), XTime(Mul(x, Half(z))), Odd(y, x), Odd(z, x));
    }
  }

  lemma {:induction false} MulXTimeLeft(x: bv8, y: bv8)
    ensures Mul(XTime(x), y) == XTime(Mul(x, y))
    decreases y as int
  {
    hide *;
    if y == 0 {
      MulZero(x); MulZero(XTime(x)); XTimeAdd(0, 0);
    } else {
      HalfLess(y);
      MulXTimeLeft(x, Half(y));
      MulStep(x, y); MulStep(XTime(x), y);
      XTimeAdd(XTime(Mul(x, Half(y))), Odd(y, x));
      OddXTime(y, x);
    }
  }

  lemma {:induction false} MulOneLeft(y: bv8)
    ensures Mul(1, y) == y
    decreases y as int
  {
    hide *;
    if y == 0 {
      MulZero(1);
    } else {
      HalfLess(y);
      MulOneLeft(Half(y));
      MulStep(1, y);
      HalfXTime(y);
    }
  }

  lemma {:induction false} MulComm(x: bv8, y: bv8)
    ensures Mul(x, y) == Mul(y, x)
    decreases y as int
  {
    hide *;
    if y == 0 {
      MulZero(x); MulZeroLeft(x);
    } else {
      HalfLess(y);
      MulComm(x, Half(y));
      MulStep(x, y);
      HalfXTime(y);
      MulXTimeLeft(Half(y), x);
      MulAddLeft(XTime(Half(y)), Odd(y, 1), x);
      MulOdd(y, x);
    }
  }

  lemma MulZeroLeft(y: bv8)
    ensures Mul(0, y) == 0
  {
    hide *;
    AddZero(0);
    MulAddLeft(0, 0, y);
    AddZero(Mul(0, y));
  }

  lemma MulOdd(y: bv8, x: bv8)
    ensures Mul(Odd(y, 1), x) == Odd(y, x)
  {
    assert (Odd(y, 1) == 0 && Odd(y, x) == 0) || (Odd(y, 1) == 1 && Odd(y, x) == x) by {
      assert y & 1 == 0 || y & 1 == 1;
    }
    hide *;
    MulZeroLeft(x);
    MulOneLeft(x);
  }

  lemma MulXTimeRight(x: bv8, y: bv8)
    ensures Mul(x, XTime(y)) == XTime(Mul(x, y))
  {
    hide *;
    MulComm(x, XTime(y)); MulXTimeLeft(y, x); MulComm(x, y);
  }

  lemma {:induction false} MulAssoc(x: bv8, y: bv8, z: bv8)
    ensures Mul(Mul(x, y), z) == Mul(x, Mul(y, z))
    decreases z as int
  {
    hide *;
    if z == 0 {
      MulZero(Mul(x, y)); MulZero(y); MulZero(x);
    } else {
      HalfLess(z);
      MulAssoc(x, y, Half(z));
      MulStep(Mul(x, y), z);
      MulStep(y, z);
      MulAddRight(x, XTime(Mul(y, Half(z))), Odd(z, y));
      MulXTimeRight(x, Mul(y, Half(z)));
      MulOddRight(x, z, y);
    }
  }

  lemma MulOddRight(x: bv8, z: bv8, y: bv8)
    ensures Mul(x, Odd(z, y)) == Odd(z, Mul(x, y))
  {
    assert (Odd(z, y) == 0 && Odd(z, Mul(x, y)) == 0) || (Odd(z, y) == y && Odd(z, Mul(x, y)) == Mul(x, y)) by {
      assert z & 1 == 0 || z & 1 == 1;
      hide Mul;
    }
    hide *;
    MulZero(x);
  }
}
