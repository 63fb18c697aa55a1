/** The 15-bit format word: how the encoder forms it and how the decoder corrects it. */
module FormatWord {
  import opened Gf256
  import opened GfTables
  import opened Sums
  import opened Horner
  import opened Recurrence
  import opened Decoding
  import opened Galois
  import opened PolyOps
  import opened Results

  // ----- bits of a word

  function Rest(u: bv16): bv16 { u >> (1 as bv16) }

  predicate IsOdd(u: bv16) { u & 1 == 1 }

  function Double(u: bv16): bv16 { u << (1 as bv16) }

  function Xor(u: bv16, v: bv16): bv16 { u ^ v }

  function Append(u: bv16, b: bool): bv16 {
    if b then Double(u) | 1 else Double(u)
  }

  /** Bit j of u, counted from the low end. */
  predicate Bit16(u: bv16, j: nat) {
    if j == 0 then IsOdd(u) else Bit16(Rest(u), j - 1)
  }

  /** The word whose only bit is bit j. */
  function Mask16(j: nat): bv16 {
    if j == 0 then 1 else Double(Mask16(j - 1))
  }

  lemma AppendParts(u: bv16, b: bool)
    requires u < 0x8000
    ensures Rest(Append(u, b)) == u && IsOdd(Append(u, b)) == b
  {
    AppendOne(u);
    AppendNothing(u);
    hide Rest, IsOdd, Double;
  }

  lemma AppendOne(u: bv16)
    requires u < 0x8000
    ensures Rest(Double(u) | 1) == u && IsOdd(Double(u) | 1)
  {}

  lemma AppendNothing(u: bv16)
    requires u < 0x8000
    ensures Rest(Double(u)) == u && !IsOdd(Double(u))
  {}

  lemma AppendBit(u: bv16, b: bool, j: nat)
    requires u < 0x8000
    ensures Bit16(Append(u, b), j + 1) == Bit16(u, j)
    ensures Bit16(Append(u, b), 0) == b
  {
    AppendParts(u, b);
    hide Rest, IsOdd, Append;
  }

  lemma {:induction false} ZeroBits(j: nat)
    ensures !Bit16(0, j)
  {
    assert Rest(0) == 0 && !IsOdd(0);
    hide Rest, IsOdd;
    if j > 0 {
      ZeroBits(j - 1);
    }
  }

  lemma RestBound(u: bv16, m: bv16)
    requires m < 0x8000 && u < Double(m)
    ensures Rest(u) < m
  {}

  lemma MaskPowers()
    ensures Mask16(0) == 0x1 && Mask16(1) == 0x2 && Mask16(2) == 0x4 && Mask16(3) == 0x8
    ensures Mask16(4) == 0x10 && Mask16(5) == 0x20 && Mask16(6) == 0x40 && Mask16(7) == 0x80
    ensures Mask16(8) == 0x100 && Mask16(9) == 0x200 && Mask16(10) == 0x400 && Mask16(11) == 0x800
    ensures Mask16(12) == 0x1000 && Mask16(13) == 0x2000 && Mask16(14) == 0x4000 && Mask16(15) == 0x8000
  {}

  lemma MaskSize(j: nat)
    requires j < 15
    ensures Mask16(j) < 0x8000
  {
    MaskPowers();
  }

  lemma {:induction false} HighBits(u: bv16, n: nat, j: nat)
    requires n <= j && n < 16 && u < Mask16(n)
    ensures !Bit16(u, j)
    decreases n
  {
    hide Rest, IsOdd, Double;
    if n == 0 {
      assert u == 0;
      ZeroBits(j);
    } else {
      MaskSize(n - 1);
      RestBound(u, Mask16(n - 1));
      HighBits(Rest(u), n - 1, j - 1);
    }
  }

  lemma FlipLow(u: bv16)
    ensures Rest(Xor(u, 1)) == Rest(u) && IsOdd(Xor(u, 1)) == !IsOdd(u)
  {}

  lemma FlipHigh(u: bv16, m: bv16)
    requires m < 0x8000
    ensures Rest(Xor(u, Double(m))) == Xor(Rest(u), m) && IsOdd(Xor(u, Double(m))) == IsOdd(u)
  {}

  lemma {:induction false} FlipBit(u: bv16, i: nat, j: nat)
    requires i < 16
    ensures Bit16(Xor(u, Mask16(i)), j) == (Bit16(u, j) != (i == j))
    decreases i
  {
    hide Rest, IsOdd, Double, Xor;
    if i == 0 {
      FlipLow(u);
    } else {
      MaskSize(i - 1);
      FlipHigh(u, Mask16(i - 1));
      if j > 0 {
        FlipBit(Rest(u), i - 1, j - 1);
      }
    }
  }

  lemma SameParts(u: bv16, v: bv16)
    requires Rest(u) == Rest(v) && IsOdd(u) == IsOdd(v)
    ensures u == v
  {}

  lemma BitParts(u: bv16, j: nat)
    ensures Bit16(u, j + 1) == Bit16(Rest(u), j) && Bit16(u, 0) == IsOdd(u)
  {
    hide Rest, IsOdd;
  }

  lemma MaskParts(n: nat)
    ensures Mask16(0) == 1 && Mask16(n + 1) == Double(Mask16(n))
  {
    hide Double;
  }

  /** u has no bits from bit n on. */
  predicate Fits(u: bv16, n: nat) {
    Below(u, Mask16(n))
  }

  predicate Below(u: bv16, m: bv16) { u < m }

  lemma FitsNothing(u: bv16)
    requires Fits(u, 0)
    ensures u == 0
  {}

  lemma FitsRest(u: bv16, n: nat)
    requires n < 15 && Fits(u, n + 1)
    ensures Fits(Rest(u), n)
  {
    hide Double, Rest;
    MaskParts(n);
    MaskSize(n);
    RestBound(u, Mask16(n));
  }

  lemma RestBits(u: bv16, v: bv16, n: nat)
    requires forall j | 0 <= j < n + 1 :: Bit16(u, j) == Bit16(v, j)
    ensures forall j | 0 <= j < n :: Bit16(Rest(u), j) == Bit16(Rest(v), j)
    ensures IsOdd(u) == IsOdd(v)
  {
    hide *;
    forall j | 0 <= j < n ensures Bit16(Rest(u), j) == Bit16(Rest(v), j) {
      BitParts(u, j); BitParts(v, j);
    }
    BitParts(u, 0); BitParts(v, 0);
  }

  lemma {:induction false} SameBits(u: bv16, v: bv16, n: nat)
    requires n < 16 && Fits(u, n) && Fits(v, n)
    requires forall j | 0 <= j < n :: Bit16(u, j) == Bit16(v, j)
    ensures u == v
    decreases n
  {
    hide *;
    if n == 0 {
      FitsNothing(u); FitsNothing(v);
    } else {
      FitsRest(u, n - 1); FitsRest(v, n - 1);
      RestBits(u, v, n - 1);
      SameBits(Rest(u), Rest(v), n - 1);
      SameParts(u, v);
    }
  }

  lemma XorParts(u: bv16, v: bv16)
    ensures Rest(Xor(u, v)) == Xor(Rest(u), Rest(v)) && IsOdd(Xor(u, v)) == (IsOdd(u) != IsOdd(v))
  {}

  lemma {:induction false} XorBit(u: bv16, v: bv16, j: nat)
    ensures Bit16(Xor(u, v), j) == (Bit16(u, j) != Bit16(v, j))
    decreases j
  {
    hide Rest, IsOdd, Xor;
    XorParts(u, v);
    if j > 0 {
      XorBit(Rest(u), Rest(v), j - 1);
    }
  }

  // ----- the encoder's word

  /** One step of the division by the generator 0x537. */
  function BchStep(rem: bv16): bv16 {
    (rem << (1 as bv16)) ^ ((rem >> (9 as bv16)) * 0x537)
  }

  function Bch(rem: bv16, n: nat): bv16
    decreases n
  {
    if n == 0 then rem else Bch(BchStep(rem), n - 1)
  }

  /** The data in the upper five bits, the remainder in the lower ten. */
  function FormatCode(data: bv16): bv16 {
    JoinFormat(data, Bch(data, 10))
  }

  function JoinFormat(data: bv16, rem: bv16): bv16 { (data << (10 as bv16)) | rem }

  method ComputeFormatCode(data: bv16) returns (bits: bv16)
    ensures bits == FormatCode(data)
  {
    hide BchStep, JoinFormat;
    var rem := data;
    for i := 0 to 10
      invariant Bch(rem, 10 - i) == Bch(data, 10)
    {
      rem := BchStep(rem);
    }
    bits := JoinFormat(data, rem);
  }

  /** The step shifts, and takes the generator off if a bit is shifted out of the lower ten. */
  lemma BchStepIs(rem: bv16)
    requires rem < 0x400
    ensures BchStep(rem) == if rem < 0x200 then Double(rem) else Xor(Double(rem), 0x537)
    ensures BchStep(rem) < 0x400
  {}

  lemma {:induction false} BchBound(rem: bv16, n: nat)
    requires rem < 0x400
    ensures Bch(rem, n) < 0x400
    decreases n
  {
    hide BchStep;
    if n > 0 {
      BchStepIs(rem);
      BchBound(BchStep(rem), n - 1);
    }
  }

  lemma FormatCodeParts(data: bv16)
    requires data < 32
    ensures FormatCode(data) < 0x8000 && FormatCode(data) >> (10 as bv16) == data
    ensures FormatCode(data) == Xor(data << (10 as bv16), Bch(data, 10))
  {
    hide Bch, Xor, JoinFormat;
    BchBound(data, 10);
    JoinParts(data, Bch(data, 10));
  }

  lemma JoinParts(data: bv16, rem: bv16)
    requires data < 32 && rem < 0x400
    ensures JoinFormat(data, rem) == Xor(data << (10 as bv16), rem) < 0x8000
    ensures JoinFormat(data, rem) >> (10 as bv16) == data
  {}

  // ----- the decoder's syndromes

  ghost function SyndromeTerm(u: bv16, i: nat, j: nat): bv8 {
    if Bit16(u, j) then Exp16(((i + 1) * j) % 15) else 0
  }

  /** Syndrome i over the lowest n bits. */
  ghost function FormatSyndrome(u: bv16, i: nat, n: nat): bv8 {
    if n == 0 then 0 else Add(FormatSyndrome(u, i, n - 1), SyndromeTerm(u, i, n - 1))
  }

  ghost function WordSyndrome(u: bv16, i: nat): bv8 {
    FormatSyndrome(u, i, 15)
  }

  ghost predicate IsFormatCode(u: bv16) {
    Fits(u, 15) && forall i | 0 <= i < 6 :: WordSyndrome(u, i) == 0
  }

  method FormatSyndromes(u: bv16, s: array<bv8>) returns (nonzero: bool)
    requires s.Length == MAX_POLY
    modifies s
    ensures nonzero <==> exists i :: 0 <= i < 6 && WordSyndrome(u, i) != 0
    ensures forall i | 0 <= i < MAX_POLY :: s[i] == if i < 6 then WordSyndrome(u, i) else 0
    ensures HasAll(Field.Gf16, s[..])
  {
    hide *;
    nonzero := false;
    RoomForSix();
    for i := 0 to MAX_POLY
      invariant forall k | 0 <= k < i :: s[k] == 0
    {
      s[i] := 0;
    }
    for i := 0 to 6
      invariant forall k | 0 <= k < MAX_POLY :: s[k] == if k < i then WordSyndrome(u, k) else 0
      invariant nonzero <==> exists k :: 0 <= k < i && WordSyndrome(u, k) != 0
    {
      s[i] := 0;
      SyndromeStart(u, i);
      for j := 0 to 15
        invariant forall k | 0 <= k < MAX_POLY && k != i :: s[k] == if k < i then WordSyndrome(u, k) else 0
        invariant s[i] == FormatSyndrome(u, i, j)
      {
        SyndromeStep(u, i, j);
        if Bit16(u, j) {
          s[i] := Add(s[i], Exp16(((i + 1) * j) % 15));
        }
      }
      WordSyndromeDef(u, i);
      if s[i] != 0 {
        nonzero := true;
      }
    }
    forall i | 0 <= i < MAX_POLY ensures Field.Gf16.Has(s[i]) {
      if i < 6 { SyndromeInField(u, i, 15); WordSyndromeDef(u, i); }
      EmbedOne(Field.Gf16);
    }
    AllHave(s[..]);
  }

  lemma WordSyndromeDef(u: bv16, i: nat)
    ensures WordSyndrome(u, i) == FormatSyndrome(u, i, 15)
  {}

  lemma RoomForSix()
    ensures 6 < MAX_POLY
  {}

  lemma AllHave(s: seq<bv8>)
    requires forall i | 0 <= i < |s| :: Field.Gf16.Has(s[i])
    ensures HasAll(Field.Gf16, s)
  {}

  lemma SyndromeStart(u: bv16, i: nat)
    ensures FormatSyndrome(u, i, 0) == 0
  {}

  lemma SyndromeStep(u: bv16, i: nat, j: nat)
    ensures FormatSyndrome(u, i, j + 1) ==
            if Bit16(u, j) then Add(FormatSyndrome(u, i, j), Exp16(((i + 1) * j) % 15)) else FormatSyndrome(u, i, j)
  {
    hide Add, Bit16;
    AddZero(FormatSyndrome(u, i, j));
  }

  lemma {:induction false} SyndromeInField(u: bv16, i: nat, n: nat)
    ensures Field.Gf16.Has(FormatSyndrome(u, i, n))
  {
    hide Add, Bit16, Exp16;
    if n > 0 {
      SyndromeInField(u, i, n - 1);
      EmbedAdd(Field.Gf16, FormatSyndrome(u, i, n - 1), SyndromeTerm(u, i, n - 1));
    }
  }

  // ----- the encoder's words are code words

  /** A term is a power of the place's locator. */
  lemma TermPower(i: nat, j: nat)
    ensures Field.Gf16.Embed(Exp16(((i + 1) * j) % 15)) == Alpha(17 * ((i + 1) * j))
  {
    hide Mul, Alpha, Field.Embed, Exp16;
    var k := (i + 1) * j;
    PowerMod(Field.Gf16, k);
    ExpIsPower(Field.Gf16, k % 15);
  }

  /** Syndromes are additive. */
  lemma {:induction false} SyndromeXor(u: bv16, v: bv16, i: nat, n: nat)
    ensures FormatSyndrome(Xor(u, v), i, n) == Add(FormatSyndrome(u, i, n), FormatSyndrome(v, i, n))
  {
    hide Add, Bit16, Exp16, Xor;
    if n == 0 {
      AddZero(0);
    } else {
      var k := n - 1;
      SyndromeXor(u, v, i, k);
      XorBit(u, v, k);
      AddSwap(FormatSyndrome(u, i, k), SyndromeTerm(u, i, k), FormatSyndrome(v, i, k), SyndromeTerm(v, i, k));
      AddZero(SyndromeTerm(u, i, k)); AddZero(SyndromeTerm(v, i, k));
      AddZero(Exp16(((i + 1) * k) % 15));
    }
  }

  lemma DoubleParts(u: bv16)
    requires u < 0x8000
    ensures Rest(Double(u)) == u && !IsOdd(Double(u))
  {}

  /** Moving all bits up by one multiplies a syndrome by a power of the generator. */
  lemma {:induction false} SyndromeDouble(u: bv16, i: nat, n: nat)
    requires u < 0x8000
    ensures Field.Gf16.Embed(FormatSyndrome(Double(u), i, n + 1)) ==
            Mul(Alpha(17 * (i + 1)), Field.Gf16.Embed(FormatSyndrome(u, i, n)))
  {
    hide Add, Mul, Alpha, Bit16, Exp16, Field.Embed, Double, Rest, IsOdd;
    var f, d, x := Field.Gf16, Double(u), Alpha(17 * (i + 1));
    EmbedOne(f);
    MulZero(x);
    DoubleParts(u);
    SyndromeStep(d, i, n);
    if n == 0 {
      SyndromeStart(d, i);
      SyndromeStart(u, i);
      BitParts(d, 0);
      assert FormatSyndrome(d, i, 1) == 0;
    } else {
      var k := n - 1;
      SyndromeDouble(u, i, k);
      SyndromeStep(u, i, k);
      BitParts(d, k);
      if Bit16(u, k) {
        var a, t := FormatSyndrome(u, i, k), Exp16(((i + 1) * k) % 15);
        EmbedAdd(f, a, t);
        EmbedAdd(f, FormatSyndrome(d, i, n), Exp16(((i + 1) * n) % 15));
        TermPower(i, k);
        TermPower(i, n);
        NextPower(i, k);
        MulAddRight(x, f.Embed(a), f.Embed(t));
      }
    }
  }

  lemma NextPower(i: nat, k: nat)
    ensures Alpha(17 * ((i + 1) * (k + 1))) == Mul(Alpha(17 * (i + 1)), Alpha(17 * ((i + 1) * k)))
  {
    hide Mul, Alpha;
    AlphaAdd(17 * (i + 1), 17 * ((i + 1) * k));
    assert (i + 1) * (k + 1) == (i + 1) * k + (i + 1);
  }

  /** The first six syndromes are zero. */
  ghost predicate Vanishes(u: bv16) {
    forall i | 0 <= i < 6 :: WordSyndrome(u, i) == 0
  }

  lemma GeneratorBits()
    ensures Bit16(0x537, 0) && Bit16(0x537, 1) && Bit16(0x537, 2) && !Bit16(0x537, 3) && Bit16(0x537, 4)
    ensures Bit16(0x537, 5) && !Bit16(0x537, 6) && !Bit16(0x537, 7) && Bit16(0x537, 8) && !Bit16(0x537, 9)
    ensures Bit16(0x537, 10) && !Bit16(0x537, 11) && !Bit16(0x537, 12) && !Bit16(0x537, 13) && !Bit16(0x537, 14)
  {}

  lemma Exp16Values()
    ensures Exp16(0) == 1 && Exp16(1) == 2 && Exp16(2) == 4 && Exp16(3) == 8 && Exp16(4) == 3
    ensures Exp16(5) == 6 && Exp16(6) == 12 && Exp16(7) == 11 && Exp16(8) == 5 && Exp16(9) == 10
    ensures Exp16(10) == 7 && Exp16(11) == 14 && Exp16(12) == 15 && Exp16(13) == 13 && Exp16(14) == 9
  {}

  /** A syndrome of the generator is the sum of its seven terms. */
  lemma GeneratorSyndrome(i: nat)
    ensures var k := i + 1;
            WordSyndrome(0x537, i) == Add(Add(Add(Add(Add(Add(Exp16(0), Exp16(k % 15)), Exp16(2 * k % 15)),
              Exp16(4 * k % 15)), Exp16(5 * k % 15)), Exp16(8 * k % 15)), Exp16(10 * k % 15))
  {
    hide Add, Bit16, Exp16, FormatSyndrome;
    GeneratorBits();
    SyndromeStart(0x537, i);
    SyndromeStep(0x537, i, 0); SyndromeStep(0x537, i, 1); SyndromeStep(0x537, i, 2); SyndromeStep(0x537, i, 3);
    SyndromeStep(0x537, i, 4); SyndromeStep(0x537, i, 5); SyndromeStep(0x537, i, 6); SyndromeStep(0x537, i, 7);
    SyndromeStep(0x537, i, 8); SyndromeStep(0x537, i, 9); SyndromeStep(0x537, i, 10); SyndromeStep(0x537, i, 11);
    SyndromeStep(0x537, i, 12); SyndromeStep(0x537, i, 13); SyndromeStep(0x537, i, 14);
    AddZero(Exp16(0));
  }

  /** The generator has the six zeros the decoder looks for. */
  lemma GeneratorVanishes()
    ensures Vanishes(0x537)
  {
    hide Exp16, WordSyndrome;
    Exp16Values();
    forall i | 0 <= i < 6 ensures WordSyndrome(0x537, i) == 0 {
      GeneratorSyndrome(i);
    }
  }

  lemma VanishesXor(u: bv16, v: bv16)
    requires Vanishes(u) && Vanishes(v)
    ensures Vanishes(Xor(u, v))
  {
    hide Add, FormatSyndrome, Xor;
    forall i | 0 <= i < 6 ensures WordSyndrome(Xor(u, v), i) == 0 {
      SyndromeXor(u, v, i, 15);
      assert WordSyndrome(u, i) == 0 && WordSyndrome(v, i) == 0;
      AddZero(0);
    }
  }

  lemma NothingVanishes(u: bv16)
    ensures Vanishes(Xor(u, u))
  {
    hide Add, FormatSyndrome, Xor;
    forall i | 0 <= i < 6 ensures WordSyndrome(Xor(u, u), i) == 0 {
      SyndromeXor(u, u, i, 15);
      AddZero(FormatSyndrome(u, i, 15));
    }
  }

  lemma VanishesDouble(u: bv16)
    requires u < 0x4000 && Vanishes(u)
    ensures Vanishes(Double(u))
  {
    hide Add, Mul, Alpha, Bit16, Exp16, FormatSyndrome, Double, Field.Embed, Mask16;
    var f, d := Field.Gf16, Double(u);
    MaskPowers();
    HighBits(u, 14, 14);
    forall i | 0 <= i < 6 ensures WordSyndrome(d, i) == 0 {
      assert WordSyndrome(u, i) == 0;
      SyndromeStep(u, i, 14);
      SyndromeDouble(u, i, 14);
      SyndromeInField(d, i, 15);
      EmbedOne(f);
      MulZero(Alpha(17 * (i + 1)));
      EmbedZero(f, FormatSyndrome(d, i, 15));
    }
  }

  function Shifted(u: bv16, n: nat): bv16
    decreases n
  {
    if n == 0 then u else Shifted(Double(u), n - 1)
  }

  lemma ShiftedTen(u: bv16)
    ensures Shifted(u, 10) == u << (10 as bv16)
  {
    var a := Double(Double(Double(Double(Double(u)))));
    hide Double;
    assert Shifted(u, 10) == Shifted(Double(Double(u)), 8) == Shifted(Double(Double(Double(Double(u)))), 6);
    assert Shifted(Double(Double(Double(Double(u)))), 6) == Shifted(a, 5);
    assert Shifted(a, 5) == Shifted(Double(Double(a)), 3) == Shifted(Double(Double(Double(Double(a)))), 1);
    assert Shifted(u, 10) == Double(Double(Double(Double(Double(a)))));
    TenDoubles(u);
  }

  lemma TenDoubles(u: bv16)
    ensures var a := Double(Double(Double(Double(Double(u)))));
            Double(Double(Double(Double(Double(a))))) == u << (10 as bv16)
  {}

  /** One more bit of the data moved up, and one more step of the division. */
  lemma StepParts(high: bv16, rem: bv16)
    requires high < 0x4000 && rem < 0x400
    ensures var w := Double(Xor(high, rem));
            Xor(Double(high), BchStep(rem)) == if rem < 0x200 then w else Xor(w, 0x537)
    ensures Xor(high, rem) < 0x4000 && BchStep(rem) < 0x400
  {
    hide BchStep, Xor, Double;
    BchStepIs(rem);
    XorDouble(high, rem);
    XorAssoc(Double(high), Double(rem), 0x537);
    XorBound(high, rem);
  }

  lemma XorDouble(u: bv16, v: bv16)
    ensures Double(Xor(u, v)) == Xor(Double(u), Double(v))
  {}

  lemma XorAssoc(u: bv16, v: bv16, w: bv16)
    ensures Xor(Xor(u, v), w) == Xor(u, Xor(v, w))
  {}

  lemma XorBound(u: bv16, v: bv16)
    requires u < 0x4000 && v < 0x400
    ensures Xor(u, v) < 0x4000
  {}

  /** The division keeps "data so far followed by remainder" a multiple of the generator. */
  lemma {:induction false} BchKeeps(high: bv16, rem: bv16, n: nat)
    requires n <= 10 && Below(high, Mask16(15 - n)) && rem < 0x400 && Vanishes(Xor(high, rem))
    ensures Vanishes(Xor(Shifted(high, n), Bch(rem, n)))
    decreases n
  {
    hide Xor, BchStep, Double, Vanishes, Below, Mask16;
    if n > 0 {
      var w := Double(Xor(high, rem));
      RoomToDouble(high, n);
      StepParts(high, rem);
      VanishesDouble(Xor(high, rem));
      GeneratorVanishes();
      VanishesXor(w, 0x537);
      BchKeeps(Double(high), BchStep(rem), n - 1);
    }
  }

  lemma RoomToDouble(high: bv16, n: nat)
    requires 0 < n <= 10 && Below(high, Mask16(15 - n))
    ensures high < 0x4000 && Below(Double(high), Mask16(15 - (n - 1)))
  {
    MaskPowers();
    hide Mask16;
  }

  lemma Fits15(u: bv16)
    ensures Fits(u, 15) <==> u < 0x8000
  {
    MaskPowers();
  }

  /** Whatever the five data bits, the encoder's word is a code word. */
  lemma EncoderWordIsCode(data: bv16)
    requires data < 32
    ensures IsFormatCode(FormatCode(data))
  {
    hide *;
    var u := FormatCode(data);
    FormatCodeParts(data);
    Fits15(u);
    Fits15(data);
    NothingVanishes(data);
    MaskPowers();
    SmallFits(data);
    BchKeeps(data, data, 10);
    ShiftedTen(data);
    CodeIf(u);
  }

  lemma SmallFits(data: bv16)
    requires data < 32
    ensures Below(data, Mask16(5)) && data < 0x400
  {}

  lemma CodeIf(u: bv16)
    requires Fits(u, 15) && Vanishes(u)
    ensures IsFormatCode(u)
  {
    hide WordSyndrome, Fits;
  }

  // ----- correction

  /** The bits below n in which u and w differ. */
  ghost function WrongBits(u: bv16, w: bv16, n: nat): seq<nat> {
    if n == 0 then [] else WrongBits(u, w, n - 1) + (if Bit16(u, n - 1) == Bit16(w, n - 1) then [] else [n - 1])
  }

  /** Their locators. */
  ghost function BitLocators(u: bv16, w: bv16, n: nat): seq<bv8> {
    if n == 0 then []
    else BitLocators(u, w, n - 1) + (if Bit16(u, n - 1) == Bit16(w, n - 1) then [] else [Alpha(17 * (n - 1))])
  }

  lemma {:induction false} BitLocatorFacts(u: bv16, w: bv16, n: nat)
    requires n <= 15
    ensures |BitLocators(u, w, n)| == |WrongBits(u, w, n)| <= n
    ensures IsErrorList(BitLocators(u, w, n), BitLocators(u, w, n))
    ensures forall j | 0 <= j < 15 :: Alpha(17 * j) in BitLocators(u, w, n) <==> j < n && Bit16(u, j) != Bit16(w, j)
  {
    hide Bit16, Alpha;
    if n > 0 {
      var k := n - 1;
      BitLocatorFacts(u, w, k);
      AlphaNonZero(17 * k);
      forall j | 0 <= j < 15 && j != k ensures Alpha(17 * j) != Alpha(17 * k) {
        if j < k { AlphaInjective(17 * j, 17 * k); } else { AlphaInjective(17 * k, 17 * j); }
      }
    }
  }

  lemma TermValue(i: nat, j: nat)
    ensures Field.Gf16.Embed(Exp16(((i + 1) * j) % 15)) == Mul(Alpha(17 * j), Pow(Alpha(17 * j), i))
  {
    hide Mul, Alpha, XTime, Field.Embed, Exp16;
    PowAlpha(17 * j, i + 1);
    PowStep(Alpha(17 * j), i);
    assert 17 * j * (i + 1) == 17 * ((i + 1) * j);
    TermPower(i, j);
  }

  /** The syndromes of u and w together are the power sums of the wrong bits. */
  lemma {:induction false} SyndromesOfWrongBits(u: bv16, w: bv16, i: nat, n: nat)
    requires n <= 15
    ensures Field.Gf16.Embed(Add(FormatSyndrome(u, i, n), FormatSyndrome(w, i, n))) ==
            PowerSum(BitLocators(u, w, n), BitLocators(u, w, n), i)
  {
    hide Add, Mul, Alpha, Pow, Bit16, Exp16, Field.Embed, PowerSum;
    var xs := BitLocators(u, w, n);
    EmbedOne(Field.Gf16);
    if n == 0 {
      AddZero(0);
      PowerSumEmpty(i);
    } else {
      var k := n - 1;
      var a, b := FormatSyndrome(u, i, k), FormatSyndrome(w, i, k);
      var s, t := SyndromeTerm(u, i, k), SyndromeTerm(w, i, k);
      SyndromesOfWrongBits(u, w, i, k);
      AddSwap(a, s, b, t);
      if Bit16(u, k) == Bit16(w, k) {
        AddZero(s); AddZero(Add(a, b));
        assert xs == BitLocators(u, w, k);
      } else {
        var term := Exp16(((i + 1) * k) % 15);
        AddZero(term);
        assert Add(s, t) == term;
        TermValue(i, k);
        EmbedAdd(Field.Gf16, Add(a, b), term);
        PowerSumLast(xs, xs, i);
        assert xs[..|xs| - 1] == BitLocators(u, w, k);
      }
    }
  }

  /** A code word w within three bits of u: the syndromes of u are those of the wrong bits. */
  lemma WrongBitSyndromes(u: bv16, w: bv16, s: seq<bv8>)
    requires IsFormatCode(w) && |s| == MAX_POLY
    requires forall i | 0 <= i < 6 :: s[i] == WordSyndrome(u, i)
    ensures AreSyndromes(BitLocators(u, w, 15), BitLocators(u, w, 15), Image(Field.Gf16, s), 6)
  {
    hide Add, Alpha, Bit16, Field.Embed, PowerSum, Fits, FormatSyndrome, BitLocators, WordSyndrome;
    var xs := BitLocators(u, w, 15);
    forall i | 0 <= i < 6 ensures Image(Field.Gf16, s)[i] == PowerSum(xs, xs, i) {
      SyndromesOfWrongBits(u, w, i, 15);
      WordSyndromeDef(u, i); WordSyndromeDef(w, i);
      AddZero(WordSyndrome(u, i));
    }
  }

  /** Two code words that differ in at most six bits are the same. */
  lemma FormatMinimumDistance(u: bv16, w: bv16)
    requires IsFormatCode(u) && IsFormatCode(w) && |WrongBits(u, w, 15)| <= 6
    ensures u == w
  {
    hide Add, Alpha, Bit16, Field.Embed, PowerSum, Fits, FormatSyndrome, WordSyndrome, BitLocators, WrongBits;
    var xs := BitLocators(u, w, 15);
    BitLocatorFacts(u, w, 15);
    forall i | 0 <= i < |xs| ensures PowerSum(xs, xs, i) == 0 {
      SyndromesOfWrongBits(u, w, i, 15);
      WordSyndromeDef(u, i); WordSyndromeDef(w, i);
      AddZero(0);
      EmbedOne(Field.Gf16);
    }
    OnlyZeros(xs, xs);
    SameBits(u, w, 15);
  }

  /** The decoder's polynomial for a word, in GF(256). */
  ghost function FormatSigma(u: bv16): seq<bv8> {
    Massey(Image(Field.Gf16, FormatSyndromesOf(u)), 6).c
  }

  ghost function FormatSyndromesOf(u: bv16): (s: seq<bv8>)
    ensures |s| == MAX_POLY
  {
    seq(MAX_POLY, i => if 0 <= i < 6 then WordSyndrome(u, i) else 0)
  }

  /** Where the decoder's root search flips a bit. */
  ghost predicate IsRoot(sigma: seq<bv8>, i: nat)
    requires i < 16
  {
    Eval(sigma, Field.Gf16.Embed(Exp16(15 - i)), MAX_POLY) == 0
  }

  /** The word after the root search has looked at the first n bits. */
  ghost function Flipped(u: bv16, n: nat): bv16
    requires n <= 15
  {
    if n == 0 then u
    else if IsRoot(FormatSigma(u), n - 1) then Xor(Flipped(u, n - 1), Mask16(n - 1))
    else Flipped(u, n - 1)
  }

  /** What becomes of a received word; it is given up if it is no format word then. */
  ghost function FixedFormat(u: bv16): bv16 {
    if Vanishes(u) then u else Flipped(u, 15)
  }

  lemma {:induction false} FlippedBits(u: bv16, n: nat)
    requires n <= 15 && Fits(u, 15)
    ensures Fits(Flipped(u, n), 15)
    ensures forall j | 0 <= j < 15 :: Bit16(Flipped(u, n), j) == (Bit16(u, j) != (j < n && IsRoot(FormatSigma(u), j)))
  {
    hide Xor, Mask16, Bit16, Fits, IsRoot, FormatSigma;
    if n > 0 {
      var g := Flipped(u, n - 1);
      FlippedBits(u, n - 1);
      FitsFlip(g, n - 1);
      forall j | 0 <= j < 15 ensures Bit16(Xor(g, Mask16(n - 1)), j) == (Bit16(g, j) != (n - 1 == j)) {
        FlipBit(g, n - 1, j);
      }
    }
  }

  lemma RootsAreWrongBits(u: bv16, w: bv16, i: nat)
    requires IsFormatCode(w) && |WrongBits(u, w, 15)| <= 3 && i < 15
    ensures IsRoot(FormatSigma(u), i) <==> Bit16(u, i) != Bit16(w, i)
  {
    hide Add, Mul, Alpha, Bit16, Field.Embed, PowerSum, Fits, FormatSyndrome, WordSyndrome, BitLocators, WrongBits,
      Exp16, IsErrorList, AreSyndromes, IsShortest, Hor, Eval, Disc, Image, Massey;
    var xs, s := BitLocators(u, w, 15), FormatSyndromesOf(u);
    var st := Massey(Image(Field.Gf16, s), 6);
    var x, y := Alpha(17 * i), Field.Gf16.Embed(Exp16(15 - i));
    BitLocatorFacts(u, w, 15);
    WrongBitSyndromes(u, w, s);
    MasseyIsShortest(Image(Field.Gf16, s), 6);
    RootsAreLocators(st.c, st.len, Image(Field.Gf16, s), 6, xs, xs, x);
    ExpIsPower(Field.Gf16, 15 - i);
    AlphaAdd(17 * i, 17 * (15 - i)); Alpha255(); AlphaNonZero(17 * i);
    EvalIsHor(st.c, x, y, st.len);
  }

  /** A format word within three bits of the received word is what comes out. */
  lemma FixedIsNearest(u: bv16, w: bv16)
    requires Fits(u, 15) && IsFormatCode(w) && |WrongBits(u, w, 15)| <= 3
    ensures FixedFormat(u) == w && Vanishes(w)
  {
    hide *;
    CodeMeans(w);
    FixedDef(u);
    if Vanishes(u) {
      CodeMeans(u);
      FormatMinimumDistance(u, w);
    } else {
      FlippedBits(u, 15);
      forall j | 0 <= j < 15 ensures Bit16(Flipped(u, 15), j) == Bit16(w, j) {
        RootsAreWrongBits(u, w, j);
      }
      SameBits(Flipped(u, 15), w, 15);
    }
  }

  lemma FixedDef(u: bv16)
    ensures FixedFormat(u) == if Vanishes(u) then u else Flipped(u, 15)
  {
    hide Vanishes, Flipped;
  }

  /** Corrects a received format word. */
  method CorrectFormat(u: bv16) returns (outcome: DecodeError, f: bv16)
    requires Fits(u, 15)
    ensures Fits(f, 15)
    ensures outcome == if Vanishes(FixedFormat(u)) then Success else FormatEcc
    ensures outcome.Success? ==> f == FixedFormat(u) && IsFormatCode(f)
    ensures forall w | IsFormatCode(w) && |WrongBits(u, w, 15)| <= 3 :: outcome.Success? && f == w
  {
    hide *;
    var s := new bv8[MAX_POLY](i => 0);
    var sigma := new bv8[MAX_POLY](i => 0);
    RoomForSix();
    CodeMeans(u);
    FixedDef(u);
    forall w | IsFormatCode(w) && |WrongBits(u, w, 15)| <= 3 ensures FixedFormat(u) == w && Vanishes(w) {
      FixedIsNearest(u, w);
    }
    var nonzero := FormatSyndromes(u, s);
    if !nonzero {
      VanishesMeans(u);
      return Success, u;
    }
    VanishesMeans(u);
    SigmaDef(u, s[..]);
    BerlekampMassey(s, 6, Field.Gf16, sigma);
    ghost var c := sigma[..];
    f := u;
    NothingFlipped(u);
    for i := 0 to 15
      invariant sigma[..] == c && f == Flipped(u, i)
    {
      RootDef(u, c, i);
      var value := PolyEval(sigma, Exp16(15 - i), Field.Gf16);
      EmbedZero(Field.Gf16, value);
      if value == 0 {
        f := Xor(f, Mask16(i));
      }
    }
    FlippedBits(u, 15);
    CodeMeans(f);
    VanishesMeans(f);
    nonzero := FormatSyndromes(f, s);
    if nonzero {
      return FormatEcc, u;
    }
    return Success, f;
  }

  lemma VanishesMeans(u: bv16)
    ensures Vanishes(u) <==> !exists i :: 0 <= i < 6 && WordSyndrome(u, i) != 0
  {
    hide WordSyndrome;
  }

  lemma SigmaDef(u: bv16, s: seq<bv8>)
    requires |s| == MAX_POLY && forall i | 0 <= i < MAX_POLY :: s[i] == if i < 6 then WordSyndrome(u, i) else 0
    ensures FormatSigma(u) == Massey(Image(Field.Gf16, s), 6).c
  {
    hide WordSyndrome, Massey, Image;
    assert s == FormatSyndromesOf(u);
  }

  lemma NothingFlipped(u: bv16)
    ensures Flipped(u, 0) == u
  {}

  lemma RootDef(u: bv16, c: seq<bv8>, i: nat)
    requires i < 15 && FormatSigma(u) == Image(Field.Gf16, c)
    ensures Field.Gf16.Has(Exp16(15 - i))
    ensures Flipped(u, i + 1) ==
            if Eval(Image(Field.Gf16, c), Field.Gf16.Embed(Exp16(15 - i)), MAX_POLY) == 0
            then Xor(Flipped(u, i), Mask16(i))
            else Flipped(u, i)
  {
    hide Eval, Field.Embed, Xor, Mask16, FormatSigma, Image;
    assert Exp16(15 - i) < 16;
    hide Exp16;
  }

  lemma CodeMeans(u: bv16)
    ensures IsFormatCode(u) <==> Fits(u, 15) && Vanishes(u)
  {
    hide WordSyndrome, Fits;
  }

  lemma FitsFlip(u: bv16, i: nat)
    requires Fits(u, 15) && i < 15
    ensures Fits(Xor(u, Mask16(i)), 15)
  {
    hide Xor, Mask16;
    MaskSize(i);
    Fits15(u);
    Fits15(Xor(u, Mask16(i)));
    XorSmall(u, Mask16(i));
  }

  lemma XorSmall(u: bv16, v: bv16)
    requires u < 0x8000 && v < 0x8000
    ensures Xor(u, v) < 0x8000
  {}
}
