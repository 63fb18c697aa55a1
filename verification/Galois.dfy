/** The two fields the decoder computes in, given by their tables: GF(256) for data blocks and
    GF(16) for the format word. GF(16) lies inside GF(256), and Embed is the inclusion. */
module Galois {
  import opened Gf256
  import opened GfTables

  datatype Field = Gf16 | Gf256 {
    /** The order of the multiplicative group. */
    const p: nat := if Gf16? then 15 else 255

    predicate Has(a: bv8) {
      Gf16? ==> a < 16
    }

    function Exp(i: nat): (a: bv8)
      requires i <= p
      ensures Has(a)
    {
      if Gf16? then Exp16(i) else GfTables.Exp(i)
    }

    function Log(a: bv8): (k: nat)
      requires Has(a)
      ensures k <= p
    {
      if Gf16? then Log16(a) else GfTables.Log(a)
    }

    /** The exponent of the GF(256) generator that generates this field. */
    const step: nat := if Gf16? then 17 else 1

    ghost function Embed(a: bv8): bv8 {
      if Gf16? then Embed16(a) else a
    }
  }

  function Exp16Table(i: bv8): bv8 {
    if i < 8 then Nth(i, 0x01, 0x02, 0x04, 0x08, 0x03, 0x06, 0x0c, 0x0b)
    else Nth(i, 0x05, 0x0a, 0x07, 0x0e, 0x0f, 0x0d, 0x09, 0x01)
  }

  function Log16Table(i: bv8): bv8 {
    if i < 8 then Nth(i, 0x00, 0x0f, 0x01, 0x04, 0x02, 0x08, 0x05, 0x0a)
    else Nth(i, 0x03, 0x0e, 0x09, 0x07, 0x06, 0x0d, 0x0b, 0x0c)
  }

  function Exp16(i: nat): (a: bv8)
    requires i < 16
    ensures a < 16
  {
    Exp16Table(i as bv8)
  }

  function Log16(a: bv8): (k: nat)
    requires a < 16
    ensures k <= 15
  {
    Log16Small(a);
    Log16Table(a) as nat
  }

  lemma Log16Small(a: bv8)
    ensures Log16Table(a) as nat <= 15
  {
    assert Log16Table(a) <= 15;
  }

  /** The linear map that takes the generator of GF(16) to the seventeenth power of 2. */
  ghost function Embed16(a: bv8): bv8 {
    Add(Add(Bit(a, 1, 0x01), Bit(a, 2, 0x98)), Add(Bit(a, 4, 0x4e), Bit(a, 8, 0x0a)))
  }

  function Bit(a: bv8, mask: bv8, x: bv8): bv8 {
    if a & mask == 0 then 0 else x
  }

  // ----- the inclusion respects addition

  lemma BitAdd(a: bv8, b: bv8, mask: bv8, x: bv8)
    requires mask == 1 || mask == 2 || mask == 4 || mask == 8
    ensures Bit(Add(a, b), mask, x) == Add(Bit(a, mask, x), Bit(b, mask, x))
  {
    assert (a ^ b) & mask == (a & mask) ^ (b & mask);
    assert a & mask == 0 || a & mask == mask;
    assert b & mask == 0 || b & mask == mask;
  }

  lemma EmbedAdd(f: Field, a: bv8, b: bv8)
    ensures f.Embed(Add(a, b)) == Add(f.Embed(a), f.Embed(b))
    ensures f.Has(a) && f.Has(b) ==> f.Has(Add(a, b))
  {
    assert a < 16 && b < 16 ==> a ^ b < 16;
    BitAdd(a, b, 1, 0x01); BitAdd(a, b, 2, 0x98); BitAdd(a, b, 4, 0x4e); BitAdd(a, b, 8, 0x0a);
    var u1, u2, u4, u8 := Bit(a, 1, 0x01), Bit(a, 2, 0x98), Bit(a, 4, 0x4e), Bit(a, 8, 0x0a);
    var v1, v2, v4, v8 := Bit(b, 1, 0x01), Bit(b, 2, 0x98), Bit(b, 4, 0x4e), Bit(b, 8, 0x0a);
    hide Add, Bit;
    AddSwap(u1, v1, u2, v2); AddSwap(u4, v4, u8, v8);
    AddSwap(Add(u1, u2), Add(v1, v2), Add(u4, u8), Add(v4, v8));
  }

  lemma Embed16Zero(a: bv8)
    requires a < 16
    ensures Embed16(a) == 0 <==> a == 0
  {}

  lemma EmbedZero(f: Field, a: bv8)
    requires f.Has(a)
    ensures f.Embed(a) == 0 <==> a == 0
  {
    hide Embed16;
    if f.Gf16? {
      Embed16Zero(a);
    }
  }

  lemma EmbedOne(f: Field)
    ensures f.Embed(1) == 1 && f.Embed(0) == 0 && f.Has(0) && f.Has(1)
    ensures f.p > 0
  {}

  // ----- and the tables

  lemma Exp16Entries0()
    ensures Embed16(Exp16Table(0)) == ExpTable(0) && Embed16(Exp16Table(1)) == ExpTable(17)
    ensures Embed16(Exp16Table(2)) == ExpTable(34) && Embed16(Exp16Table(3)) == ExpTable(51)
  {}

  lemma Exp16Entries1()
    ensures Embed16(Exp16Table(4)) == ExpTable(68) && Embed16(Exp16Table(5)) == ExpTable(85)
    ensures Embed16(Exp16Table(6)) == ExpTable(102) && Embed16(Exp16Table(7)) == ExpTable(119)
  {}

  lemma Exp16Entries2()
    ensures Embed16(Exp16Table(8)) == ExpTable(136) && Embed16(Exp16Table(9)) == ExpTable(153)
    ensures Embed16(Exp16Table(10)) == ExpTable(170) && Embed16(Exp16Table(11)) == ExpTable(187)
  {}

  lemma Exp16Entries3()
    ensures Embed16(Exp16Table(12)) == ExpTable(204) && Embed16(Exp16Table(13)) == ExpTable(221)
    ensures Embed16(Exp16Table(14)) == ExpTable(238) && Embed16(Exp16Table(15)) == ExpTable(255)
  {}

  lemma Exp16TableIsExp(i: bv8)
    requires i < 16
    ensures Embed16(Exp16Table(i)) == ExpTable(17 * i)
  {
    hide Embed16, Exp16Table, ExpTable;
    if i < 4 {
      Exp16Entries0();
      assert i == 0 || i == 1 || i == 2 || i == 3;
    } else if i < 8 {
      Exp16Entries1();
      assert i == 4 || i == 5 || i == 6 || i == 7;
    } else if i < 12 {
      Exp16Entries2();
      assert i == 8 || i == 9 || i == 10 || i == 11;
    } else {
      Exp16Entries3();
      assert i == 12 || i == 13 || i == 14 || i == 15;
    }
  }

  lemma {:induction false} Exp16IsAlpha(i: nat)
    requires i < 16
    ensures Embed16(Exp16(i)) == Alpha(17 * i)
  {
    hide Embed16, Exp16Table, ExpTable, XTime;
    var b := ByteOf(i);
    Exp16TableIsExp(b);
    Times17(b);
    ExpTableIsAlpha(17 * b);
  }

  lemma Times17(b: bv8)
    requires b < 16
    ensures (17 * b) as nat == 17 * (b as nat)
  {}

  lemma Log16TableInverts(a: bv8)
    requires 0 < a < 16
    ensures Exp16Table(Log16Table(a)) == a
  {}

  lemma Log16Inverts(a: bv8)
    requires 0 < a < 16
    ensures Exp16(Log16(a)) == a
  {
    Log16TableInverts(a);
    hide Exp16Table, Log16Table;
  }

  lemma ExpIsPower(f: Field, i: nat)
    requires i <= f.p
    ensures f.Embed(f.Exp(i)) == Alpha(f.step * i)
  {
    hide Embed16, Exp16, GfTables.Exp, XTime;
    if f.Gf16? { Exp16IsAlpha(i); } else { ExpIsAlpha(i); }
  }

  lemma LogIsPower(f: Field, a: bv8)
    requires f.Has(a) && a != 0
    ensures Alpha(f.step * f.Log(a)) == f.Embed(a)
  {
    hide Embed16, Exp16, Log16, GfTables.Log, XTime;
    if f.Gf16? {
      Log16Inverts(a); Exp16IsAlpha(Log16(a));
    } else {
      LogIsLogarithm(a);
    }
  }

  lemma PowerMod(f: Field, k: nat)
    ensures Alpha(f.step * (k % f.p)) == Alpha(f.step * k)
  {
    hide XTime, Alpha;
    if f.Gf16? {
      var q, r := k / 15, k % 15;
      assert k == 15 * q + r && 17 * k == 255 * q + 17 * r;
      AlphaMod(17 * k); AlphaMod(17 * r);
      SameRemainder(17 * r, q);
    } else {
      AlphaMod(k);
    }
  }

  lemma {:induction false} SameRemainder(r: nat, q: nat)
    ensures (255 * q + r) % 255 == r % 255
  {
    if q > 0 {
      SameRemainder(r, q - 1);
      assert 255 * q + r == 255 * (q - 1) + r + 255;
    }
  }

  /** The product as the decoder forms it. */
  lemma Product(f: Field, a: bv8, b: bv8)
    requires f.Has(a) && f.Has(b) && a != 0 && b != 0
    ensures f.Embed(f.Exp((f.Log(a) + f.Log(b)) % f.p)) == Mul(f.Embed(a), f.Embed(b))
  {
    hide Mul, XTime, Alpha, Embed16, Exp16, Log16, GfTables.Exp, GfTables.Log;
    var m, n := f.Log(a), f.Log(b);
    LogIsPower(f, a); LogIsPower(f, b);
    AlphaAdd(f.step * m, f.step * n);
    ProductExponent(f, m, n);
    PowerMod(f, m + n);
    ExpIsPower(f, (m + n) % f.p);
  }

  lemma ProductExponent(f: Field, m: nat, n: nat)
    ensures f.step * (m + n) == f.step * m + f.step * n
  {
    if f.Gf16? {
      assert f.step == 17;
    } else {
      assert f.step == 1;
    }
  }

  /** The quotient b / a as the decoder forms it. */
  lemma Quotient(f: Field, a: bv8, b: bv8)
    requires f.Has(a) && f.Has(b) && a != 0 && b != 0
    ensures Mul(f.Embed(f.Exp((f.p - f.Log(a) + f.Log(b)) % f.p)), f.Embed(a)) == f.Embed(b)
  {
    hide Mul, XTime, Alpha, Embed16, Exp16, Log16, GfTables.Exp, GfTables.Log;
    var m, n := f.Log(a), f.Log(b);
    var k := f.p - m + n;
    LogIsPower(f, a); LogIsPower(f, b);
    PowerMod(f, k);
    ExpIsPower(f, k % f.p);
    AlphaAdd(f.step * k, f.step * m);
    QuotientExponent(f, m, n);
    AlphaMod(255 + f.step * n); AlphaMod(f.step * n);
  }

  lemma QuotientExponent(f: Field, m: nat, n: nat)
    requires m <= f.p
    ensures f.step * (f.p - m + n) + f.step * m == 255 + f.step * n
    ensures (255 + f.step * n) % 255 == (f.step * n) % 255
  {
    SameRemainder(f.step * n, 1);
    if f.Gf16? {
      assert f.step == 17 && f.p == 15;
    } else {
      assert f.step == 1 && f.p == 255;
    }
  }

  // ----- sequences

  predicate HasAll(f: Field, s: seq<bv8>) {
    forall i | 0 <= i < |s| :: f.Has(s[i])
  }

  ghost function Image(f: Field, s: seq<bv8>): (r: seq<bv8>)
    ensures |r| == |s| && forall i | 0 <= i < |s| :: r[i] == f.Embed(s[i])
  {
    seq(|s|, i requires 0 <= i < |s| => f.Embed(s[i]))
  }
}
