/** From segments and texts to finished symbols. */
module Encoding {
  import opened Versions
  import opened Layouts
  import opened Bytes
  import opened BitStrings
  import opened Segments
  import opened SegmentStream
  import opened Grids
  import opened FunctionCells
  import opened Matrix
  import opened Symbols

  datatype EncodeError = InvalidValue | SegmentTooLong | DataTooLong(used: int, capacity: int)

  datatype Outcome = Encoded(qr: QrCode) | Refused(error: EncodeError)

  // ----- how many bits are needed

  /** The length of the stream, or -1 if some length does not fit its field. */
  ghost function TotalBits(segs: seq<Segment>, ver: nat): int
    requires ver <= 40
  {
    if AllFit(segs, ver) then |StreamBits(segs, ver)| else -1
  }

  lemma StreamStep(segs: seq<Segment>, i: nat, ver: nat)
    requires ver <= 40 && i < |segs|
    ensures StreamBits(segs[i..], ver) == Framed(segs[i], ver) + StreamBits(segs[i + 1..], ver)
    ensures |Framed(segs[i], ver)| == 4 + segs[i].mode.NumCharCountBits(ver) + |segs[i].data|
  {
    hide Mode.NumCharCountBits, BitsOf;
    assert segs[i..][1..] == segs[i + 1..];
  }

  lemma StreamEnd(segs: seq<Segment>, ver: nat)
    requires ver <= 40
    ensures StreamBits(segs[|segs|..], ver) == [] && segs[0..] == segs
  {}

  method GetTotalBits(segs: seq<Segment>, ver: nat) returns (result: int)
    requires 1 <= ver <= 40
    ensures result == TotalBits(segs, ver)
  {
    hide StreamBits, Framed, Mode.NumCharCountBits, Pow2;
    StreamEnd(segs, ver);
    result := 0;
    for i := 0 to |segs|
      invariant AllFit(segs[..i], ver) && 0 <= result
      invariant result + |StreamBits(segs[i..], ver)| == |StreamBits(segs, ver)|
    {
      var ccbits := segs[i].mode.NumCharCountBits(ver);
      if segs[i].numChars >= Pow2(ccbits) {
        assert !Fits(segs[i], ver);
        return -1;
      }
      StreamStep(segs, i, ver);
      result := result + 4 + ccbits;
      result := result + |segs[i].data|;
    }
  }

  /** The segments fit a symbol of the version and level. */
  ghost predicate FitsIn(segs: seq<Segment>, ver: nat, ecl: Ecc)
    requires 1 <= ver <= 40
  {
    AllFit(segs, ver) && |StreamBits(segs, ver)| <= 8 * NumDataCodewords(ecl, ver)
  }

  // ----- padding

  ghost function Zeros(n: nat): seq<bool> { BitsOf(0, n) }

  lemma {:induction false} ZerosAre(n: nat)
    ensures forall i | 0 <= i < n :: !Zeros(n)[i]
  {
    if n > 0 {
      ZerosAre(n - 1);
      assert Zeros(n) == Zeros(n - 1) + [false];
    }
  }

  /** n pad bytes, two in turn. */
  ghost function PadBits(n: nat): seq<bool> {
    if n == 0 then [] else PadBits(n - 1) + BitsOf(if n % 2 == 1 then 0xEC else 0x11, 8)
  }

  lemma {:induction false} PadLength(n: nat)
    ensures |PadBits(n)| == 8 * n
  {
    if n > 0 {
      PadLength(n - 1);
    }
  }

  /** The terminator is shortened at the end of the symbol. */
  function TerminatorLength(used: nat, capacity: nat): nat
    requires used <= capacity
  {
    if capacity - used < 4 then capacity - used else 4
  }

  function ToByteBoundary(n: nat): nat { (8 - n % 8) % 8 }

  /** Terminator, zeros up to a whole byte, and pad bytes. */
  ghost function Tail(used: nat, capacity: nat): seq<bool>
    requires used <= capacity
  {
    var t := TerminatorLength(used, capacity);
    var a := ToByteBoundary(used + t);
    Zeros(t) + Zeros(a) + PadBits(if used + t + a < capacity then (capacity - used - t - a) / 8 else 0)
  }

  lemma TailFacts(used: nat, capacity: nat)
    requires used <= capacity && capacity % 8 == 0
    ensures |Tail(used, capacity)| == capacity - used && IsTail(Tail(used, capacity))
    ensures used + TerminatorLength(used, capacity)
            + ToByteBoundary(used + TerminatorLength(used, capacity)) <= capacity
    ensures (used + TerminatorLength(used, capacity) + ToByteBoundary(used + TerminatorLength(used, capacity))) % 8 == 0
  {
    hide BitsOf, PadBits;
    var t := TerminatorLength(used, capacity);
    var a := ToByteBoundary(used + t);
    Boundary(used + t, capacity);
    ZerosAre(t);
    var n := (capacity - used - t - a) / 8;
    PadLength(n);
    PadLength(0);
  }

  lemma Boundary(n: nat, capacity: nat)
    requires n <= capacity && capacity % 8 == 0
    ensures n + ToByteBoundary(n) <= capacity && (n + ToByteBoundary(n)) % 8 == 0
    ensures (capacity - n - ToByteBoundary(n)) % 8 == 0
  {
    var q, r := n / 8, n % 8;
    assert n == 8 * q + r && capacity == 8 * (capacity / 8);
    if r > 0 {
      assert n + ToByteBoundary(n) == 8 * (q + 1);
    }
  }

  /** All bits of the data string: the stream and the tail. */
  ghost function PaddedBits(segs: seq<Segment>, ver: nat, capacity: nat): seq<bool>
    requires ver <= 40 && |StreamBits(segs, ver)| <= capacity
  {
    StreamBits(segs, ver) + Tail(|StreamBits(segs, ver)|, capacity)
  }

  function NextPad(b: bv8): bv8 { b ^ (0xEC ^ 0x11) }

  lemma PadTurns()
    ensures NextPad(0xEC) == 0x11 && NextPad(0x11) == 0xEC
  {}

  function PadValue(b: bv8): nat { b as nat }

  lemma PadValues()
    ensures PadValue(0xEC) == 0xEC && PadValue(0x11) == 0x11
  {}

  /** Appends pad bytes until the capacity is reached. */
  method AppendPads(start: seq<bool>, dataCapacityBits: nat, ghost total: nat) returns (bb: seq<bool>)
    requires dataCapacityBits == |start| + 8 * total
    ensures bb == start + PadBits(total)
  {
    hide BitsOf, PadBits, NextPad, PadValue, Pow2;
    bb := start;
    ghost var n := 0;
    var padByte: bv8 := 0xEC;
    NoPads();
    Powers();
    while |bb| < dataCapacityBits
      invariant n <= total && |bb| == |start| + 8 * n && bb == start + PadBits(n)
      invariant padByte == if n % 2 == 0 then 0xEC else 0x11
    {
      PadTurns(); PadValues();
      bb := AppendBits(bb, PadValue(padByte), 8);
      n := n + 1;
      PadStep(n);
      padByte := NextPad(padByte);
    }
  }

  /** Appends the terminator and the padding. */
  method AppendTail(used: seq<bool>, dataCapacityBits: nat) returns (bb: seq<bool>)
    requires |used| <= dataCapacityBits && dataCapacityBits % 8 == 0
    ensures bb == used + Tail(|used|, dataCapacityBits)
  {
    hide BitsOf, PadBits, Pow2;
    TailFacts(|used|, dataCapacityBits);
    Powers();
    var t := if dataCapacityBits - |used| < 4 then dataCapacityBits - |used| else 4;
    var ended := AppendBits(used, 0, t);
    var a := (8 - |ended| % 8) % 8;
    var whole := AppendBits(ended, 0, a);
    Boundary(|used| + t, dataCapacityBits);
    ghost var total := (dataCapacityBits - |whole|) / 8;
    bb := AppendPads(whole, dataCapacityBits, total);
    assert bb == used + (Zeros(t) + Zeros(a) + PadBits(total));
  }

  lemma NoPads()
    ensures PadBits(0) == []
  {}

  lemma PadStep(n: nat)
    requires n > 0
    ensures PadBits(n) == PadBits(n - 1) + BitsOf(if n % 2 == 1 then 0xEC else 0x11, 8)
  {
    hide BitsOf;
  }

  /** Packs bits into bytes, the most significant first. */
  method PackBits(bb: seq<bool>) returns (data: seq<bv8>)
    requires |bb| % 8 == 0
    ensures Bits(data) == bb
  {
    hide Bits, IsPacked, Or, Mask;
    var codewords := new bv8[|bb| / 8](i => 0);
    NothingPacked(bb, codewords[..]);
    for i := 0 to |bb|
      invariant IsPacked(bb, codewords[..], i)
    {
      ghost var before := codewords[..];
      if bb[i] {
        codewords[i / 8] := Or(codewords[i / 8], Mask(i % 8));
      }
      BitPacked(bb, before, codewords[..], i);
    }
    data := codewords[..];
    AllPacked(bb, data);
  }

  /** The first n bits are packed, and the others are zero. */
  ghost predicate IsPacked(bb: seq<bool>, codewords: seq<bv8>, n: nat) {
    8 * |codewords| == |bb| && forall k | 0 <= k < |bb| :: Bits(codewords)[k] == (k < n && bb[k])
  }

  lemma NothingPacked(bb: seq<bool>, codewords: seq<bv8>)
    requires 8 * |codewords| == |bb| && forall i | 0 <= i < |codewords| :: codewords[i] == 0
    ensures IsPacked(bb, codewords, 0)
  {
    hide BitAt;
    forall k | 0 <= k < |bb| ensures !Bits(codewords)[k] {
      Bytes.ZeroBits(k % 8);
    }
  }

  lemma BitPacked(bb: seq<bool>, before: seq<bv8>, after: seq<bv8>, i: nat)
    requires i < |bb| && IsPacked(bb, before, i)
    requires after == if bb[i] then before[i / 8 := Or(before[i / 8], Mask(i % 8))] else before
    ensures IsPacked(bb, after, i + 1)
  {
    hide Bits, Or, Mask;
    if bb[i] {
      forall k | 0 <= k < |bb| ensures Bits(after)[k] == (k < i + 1 && bb[k]) {
        SetBitOf(before, after, i, k);
      }
    }
  }

  lemma AllPacked(bb: seq<bool>, codewords: seq<bv8>)
    requires IsPacked(bb, codewords, |bb|)
    ensures Bits(codewords) == bb
  {
    hide BitAt;
  }

  // ----- segments to symbols

  function Rank(ecl: Ecc): nat {
    match ecl
    case Low => 0
    case Medium => 1
    case Quartile => 2
    case High => 3
  }

  /** The level is raised as far as the data still fits, or kept. */
  ghost predicate IsBoosted(segs: seq<Segment>, ver: nat, ecl: Ecc, boostEcl: bool, result: Ecc)
    requires 1 <= ver <= 40
  {
    && FitsIn(segs, ver, result)
    && (if boostEcl then Rank(result) >= Rank(ecl) && forall e | Rank(e) > Rank(result) :: !FitsIn(segs, ver, e)
        else result == ecl)
  }

  /** The version is the least in the range in which the segments fit. */
  ghost predicate IsLeastVersion(segs: seq<Segment>, ecl: Ecc, minVersion: int, maxVersion: int, ver: int)
    requires 1 <= minVersion && maxVersion <= 40
  {
    && minVersion <= ver <= maxVersion && FitsIn(segs, ver, ecl)
    && forall v | minVersion <= v < ver :: !FitsIn(segs, v, ecl)
  }

  /** The grid is the finished symbol whose data string is the stream of the segments, padded. */
  ghost predicate ShowsSegments(m: Grid, ver: nat, ecl: Ecc, msk: nat, automatic: bool, segs: seq<Segment>)
    requires 1 <= ver <= 40 && msk < 8
  {
    exists data: seq<bv8> :: FitsIn(segs, ver, ecl) && |data| == NumDataCodewords(ecl, ver)
      && Bits(data) == PaddedBits(segs, ver, 8 * |data|) && IsFinished(m, ver, ecl, msk, automatic, data)
  }

  lemma CapacityIsPositive(ecl: Ecc, ver: nat)
    requires 1 <= ver <= 40
    ensures 0 <= NumDataCodewords(ecl, ver) <= 3706
  {
    hide NumDataCodewords, EncoderLayout, DecoderLayout, RawDataModules, VersionDb, NumBlocks;
    LayoutsAgree(ecl, ver);
    LayoutIsSmaller(EncoderLayout(ecl, ver));
  }

  lemma LayoutIsSmaller(l: Layout)
    requires l.Valid()
    ensures l.DataTotal() <= l.Total()
  {
    MulMonotone(1, l.nb, l.ec);
    assert l.nb * l.dw == l.dw * l.nb && l.ec * l.nb == l.nb * l.ec;
  }

  /** The error when no version up to maxVersion will do. */
  ghost function TooLong(segs: seq<Segment>, ecl: Ecc, maxVersion: nat): (e: EncodeError)
    requires 1 <= maxVersion <= 40
    ensures e != InvalidValue
  {
    if AllFit(segs, maxVersion) then DataTooLong(|StreamBits(segs, maxVersion)|, 8 * NumDataCodewords(ecl, maxVersion))
    else SegmentTooLong
  }

  /** Finds the least version that fits. */
  method ChooseVersion(segs: seq<Segment>, ecl: Ecc, minVersion: nat, maxVersion: nat)
    returns (version: nat, dataUsedBits: int, error: Option<EncodeError>)
    requires 1 <= minVersion <= maxVersion <= 40
    ensures minVersion <= version <= maxVersion && dataUsedBits == TotalBits(segs, version)
    ensures error.None? ==> IsLeastVersion(segs, ecl, minVersion, maxVersion, version)
    ensures error.Some? ==> version == maxVersion && forall v | minVersion <= v <= maxVersion :: !FitsIn(segs, v, ecl)
    ensures error.Some? ==> error.value == TooLong(segs, ecl, maxVersion)
  {
    hide NumDataCodewords, AllFit, StreamBits;
    version := minVersion;
    while true
      invariant minVersion <= version <= maxVersion
      invariant forall v | minVersion <= v < version :: !FitsIn(segs, v, ecl)
      decreases maxVersion - version
    {
      var dataCapacityBits := NumDataCodewords(ecl, version) * 8;
      dataUsedBits := GetTotalBits(segs, version);
      if dataUsedBits != -1 && dataUsedBits <= dataCapacityBits {
        return version, dataUsedBits, None;
      }
      assert !FitsIn(segs, version, ecl);
      if version >= maxVersion {
        if dataUsedBits == -1 {
          return version, dataUsedBits, Some(SegmentTooLong);
        }
        return version, dataUsedBits, Some(DataTooLong(dataUsedBits, dataCapacityBits));
      }
      version := version + 1;
    }
  }

  method BoostLevel(segs: seq<Segment>, version: nat, dataUsedBits: int, level: Ecc, boostEcl: bool) returns (ecl: Ecc)
    requires 1 <= version <= 40 && FitsIn(segs, version, level) && dataUsedBits == TotalBits(segs, version)
    ensures IsBoosted(segs, version, level, boostEcl, ecl)
  {
    hide NumDataCodewords, StreamBits, AllFit;
    ecl := level;
    var levels := [Medium, Quartile, High];
    for i := 0 to 3
      invariant !boostEcl ==> ecl == level
      invariant FitsIn(segs, version, ecl) && (boostEcl && Rank(level) <= i ==> Rank(ecl) >= Rank(level))
      invariant boostEcl ==> forall e | Rank(ecl) < Rank(e) <= i :: !FitsIn(segs, version, e)
      invariant boostEcl && ecl != level ==> Rank(ecl) <= i
    {
      var newEcl := levels[i];
      assert Rank(newEcl) == i + 1;
      if boostEcl && dataUsedBits <= NumDataCodewords(newEcl, version) * 8 {
        ecl := newEcl;
      }
    }
  }

  /** The bits of the segments, one after the other. */
  method JoinSegments(segs: seq<Segment>, ver: nat) returns (bb: seq<bool>)
    requires 1 <= ver <= 40 && AllFit(segs, ver)
    ensures bb == StreamBits(segs, ver)
  {
    hide StreamBits, BitsOf, Pow2, Mode.NumCharCountBits;
    bb := [];
    StreamEnd(segs, ver);
    Powers();
    for i := 0 to |segs|
      invariant bb + StreamBits(segs[i..], ver) == StreamBits(segs, ver)
    {
      ghost var before := bb;
      assert Fits(segs[i], ver);
      bb := AppendBits(bb, segs[i].mode.ModeBits(), 4);
      CountWidth(segs[i].mode, ver);
      bb := AppendBits(bb, segs[i].numChars, segs[i].mode.NumCharCountBits(ver));
      bb := bb + segs[i].data;
      assert bb == before + Framed(segs[i], ver);
      StreamStep(segs, i, ver);
      Regroup(before, Framed(segs[i], ver), StreamBits(segs[i + 1..], ver));
    }
    assert bb + [] == bb;
  }

  lemma CountWidth(mode: Mode, ver: nat)
    requires ver <= 40
    ensures mode.NumCharCountBits(ver) <= 16
  {}

  /** Encodes segments into the smallest symbol of the range that holds them. */
  method EncodeSegments(segs: seq<Segment>, level: Ecc, minVersion: int, maxVersion: int, mask: int, boostEcl: bool)
    returns (r: Outcome)
    ensures r == Refused(InvalidValue) <==> !(1 <= minVersion <= maxVersion <= 40) || mask < -1 || mask > 7
    ensures 1 <= minVersion <= maxVersion <= 40 && -1 <= mask <= 7 ==>
              && (r.Encoded? <==> exists v :: minVersion <= v <= maxVersion && FitsIn(segs, v, level))
              && (r.Refused? ==> r.error == TooLong(segs, level, maxVersion))
    ensures r.Encoded? ==>
              && 1 <= minVersion <= maxVersion <= 40 && r.qr.mask < 8
              && IsLeastVersion(segs, level, minVersion, maxVersion, r.qr.version)
              && IsBoosted(segs, r.qr.version, level, boostEcl, r.qr.ecl)
              && (mask >= 0 ==> r.qr.mask == mask)
              && ShowsSegments(r.qr.modules, r.qr.version, r.qr.ecl, r.qr.mask, mask == -1, segs)
  {
    hide *;
    if !(1 <= minVersion <= maxVersion <= 40) || mask < -1 || mask > 7 {
      return Refused(InvalidValue);
    }
    var version, dataUsedBits, error := ChooseVersion(segs, level, minVersion, maxVersion);
    if error.Some? {
      return Refused(error.value);
    }
    LeastFits(segs, level, minVersion, maxVersion, version);
    var ecl := BoostLevel(segs, version, dataUsedBits, level, boostEcl);
    CapacityIsPositive(ecl, version);
    BoostedFits(segs, version, level, boostEcl, ecl);
    var bb := JoinSegments(segs, version);
    var dataCapacityBits := NumDataCodewords(ecl, version) * 8;
    TailFacts(|bb|, dataCapacityBits);
    bb := AppendTail(bb, dataCapacityBits);
    var dataCodewords := PackBits(bb);
    var qr := new QrCode(version, ecl, dataCodewords, mask);
    ShownMeans(qr.modules, version, ecl, qr.mask, mask == -1, segs, dataCodewords);
    return Encoded(qr);
  }

  lemma LeastFits(segs: seq<Segment>, ecl: Ecc, minVersion: int, maxVersion: int, ver: int)
    requires 1 <= minVersion && maxVersion <= 40 && IsLeastVersion(segs, ecl, minVersion, maxVersion, ver)
    ensures 1 <= ver <= 40 && FitsIn(segs, ver, ecl)
  {
    hide FitsIn;
  }

  lemma BoostedFits(segs: seq<Segment>, ver: nat, ecl: Ecc, boostEcl: bool, result: Ecc)
    requires 1 <= ver <= 40 && IsBoosted(segs, ver, ecl, boostEcl, result)
    ensures FitsIn(segs, ver, result) && AllFit(segs, ver)
    ensures |StreamBits(segs, ver)| <= 8 * NumDataCodewords(result, ver)
  {
    hide AllFit, StreamBits, NumDataCodewords;
  }

  lemma ShownMeans(m: Grid, ver: nat, ecl: Ecc, msk: nat, automatic: bool, segs: seq<Segment>, data: seq<bv8>)
    requires 1 <= ver <= 40 && msk < 8 && FitsIn(segs, ver, ecl) && |data| == NumDataCodewords(ecl, ver)
    requires |StreamBits(segs, ver)| <= 8 * |data|
    requires Bits(data) == StreamBits(segs, ver) + Tail(|StreamBits(segs, ver)|, 8 * |data|)
    requires IsFinished(m, ver, ecl, msk, automatic, data)
    ensures ShowsSegments(m, ver, ecl, msk, automatic, segs)
  {
    hide FitsIn, Bits, StreamBits, IsFinished, NumDataCodewords, Tail;
  }

  /** Encodes a text with default settings. */
  method EncodeText(text: seq<bv8>, level: Ecc) returns (r: Outcome)
    ensures r != Refused(InvalidValue)
    ensures r.Encoded? <==> exists v :: 1 <= v <= 40 && FitsIn(SegmentsFor(text), v, level)
    ensures r.Encoded? ==>
              && r.qr.mask < 8 && IsLeastVersion(SegmentsFor(text), level, 1, 40, r.qr.version)
              && IsBoosted(SegmentsFor(text), r.qr.version, level, true, r.qr.ecl)
              && ShowsSegments(r.qr.modules, r.qr.version, r.qr.ecl, r.qr.mask, true, SegmentsFor(text))
  {
    hide *;
    var segs := MakeSegments(text);
    r := EncodeSegments(segs, level, 1, 40, -1, true);
  }
}
