/** Bytes as rows of eight bits, the most significant first. */
module Bytes {
  function Shift(b: bv8): bv8 { b << (1 as bv8) }

  predicate Top(b: bv8) { b & 0x80 != 0 }

  function Or(a: bv8, b: bv8): bv8 { a | b }

  /** Bit p of b, counted from the top. */
  predicate BitAt(b: bv8, p: nat)
    decreases p
  {
    if p == 0 then Top(b) else BitAt(Shift(b), p - 1)
  }

  /** The byte whose only bit is bit p. */
  function Mask(p: nat): bv8 {
    if p == 0 then 0x80 else Mask(p - 1) >> (1 as bv8)
  }

  /** All bits of a string of bytes. */
  function Bits(s: seq<bv8>): (r: seq<bool>)
    ensures |r| == 8 * |s|
    ensures forall i | 0 <= i < |r| :: r[i] == BitAt(s[i / 8], i % 8)
  {
    seq(8 * |s|, i requires 0 <= i < 8 * |s| => BitAt(s[i / 8], i % 8))
  }

  lemma Masks()
    ensures Mask(0) == 0x80 && Mask(1) == 0x40 && Mask(2) == 0x20 && Mask(3) == 0x10
    ensures Mask(4) == 0x08 && Mask(5) == 0x04 && Mask(6) == 0x02 && Mask(7) == 0x01
  {}

  lemma ShiftOr(a: bv8, b: bv8)
    ensures Shift(Or(a, b)) == Or(Shift(a), Shift(b)) && Top(Or(a, b)) == (Top(a) || Top(b))
    ensures !Top(0) && Shift(0) == 0
  {}

  lemma {:induction false} OrBits(a: bv8, b: bv8, p: nat)
    ensures BitAt(Or(a, b), p) == (BitAt(a, p) || BitAt(b, p))
    decreases p
  {
    hide Shift, Top, Or;
    ShiftOr(a, b);
    if p > 0 {
      OrBits(Shift(a), Shift(b), p - 1);
    }
  }

  lemma {:induction false} ZeroBits(p: nat)
    ensures !BitAt(0, p)
  {
    hide Shift, Top;
    ShiftOr(0, 0);
    if p > 0 {
      ZeroBits(p - 1);
    }
  }

  lemma ShiftMask(p: nat)
    requires p < 8
    ensures Shift(Mask(p)) == if p == 0 then 0 else Mask(p - 1)
    ensures Top(Mask(p)) == (p == 0)
  {
    Masks();
  }

  lemma {:induction false} MaskBits(p: nat, q: nat)
    requires p < 8
    ensures BitAt(Mask(p), q) == (p == q)
    decreases p
  {
    ShiftMask(p);
    hide Shift, Top, Mask;
    if p == 0 && q > 0 {
      ZeroBits(q - 1);
    } else if q > 0 {
      MaskBits(p - 1, q - 1);
    }
  }

  lemma SetBit(b: bv8, p: nat, q: nat)
    requires p < 8
    ensures BitAt(Or(b, Mask(p)), q) == (p == q || BitAt(b, q))
  {
    hide *;
    OrBits(b, Mask(p), q);
    MaskBits(p, q);
  }

  /** b has no bits after the first n. */
  predicate Within(b: bv8, n: nat)
    decreases n
  {
    if n == 0 then b == 0 else Within(Shift(b), n - 1)
  }

  lemma AllWithin(b: bv8)
    ensures Within(b, 8)
  {
    assert Within(Shift(Shift(b)), 6) by {
      assert Within(Shift(Shift(Shift(Shift(b)))), 4) by {
        assert Within(Shift(Shift(Shift(Shift(Shift(Shift(b)))))), 2);
      }
    }
  }

  lemma SameHalves(a: bv8, b: bv8)
    requires Top(a) == Top(b) && Shift(a) == Shift(b)
    ensures a == b
  {}

  lemma {:induction false} SameBitsWithin(a: bv8, b: bv8, n: nat)
    requires Within(a, n) && Within(b, n) && forall p | 0 <= p < n :: BitAt(a, p) == BitAt(b, p)
    ensures a == b
    decreases n
  {
    hide Shift, Top;
    if n > 0 {
      forall p | 0 <= p < n - 1 ensures BitAt(Shift(a), p) == BitAt(Shift(b), p) {
        assert BitAt(a, p + 1) == BitAt(b, p + 1);
      }
      SameBitsWithin(Shift(a), Shift(b), n - 1);
      assert BitAt(a, 0) == BitAt(b, 0);
      SameHalves(a, b);
    }
  }

  lemma SameByte(a: bv8, b: bv8)
    requires forall p | 0 <= p < 8 :: BitAt(a, p) == BitAt(b, p)
    ensures a == b
  {
    hide Within, BitAt;
    AllWithin(a); AllWithin(b);
    SameBitsWithin(a, b, 8);
  }

  /** Setting bit i of a string of bytes. */
  lemma SetBitOf(s: seq<bv8>, t: seq<bv8>, i: nat, j: nat)
    requires i < 8 * |s| && j < 8 * |s|
    requires t == s[i / 8 := Or(s[i / 8], Mask(i % 8))]
    ensures Bits(t)[j] == (i == j || Bits(s)[j])
  {
    hide BitAt, Mask, Or;
    if i / 8 == j / 8 {
      SetBit(s[i / 8], i % 8, j % 8);
    }
  }
}
