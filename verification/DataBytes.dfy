/** The data string of a symbol as bytes: the weights of its bits, and the pad bytes at its end. */
module DataBytes {
  import opened BitStrings
  import opened Bytes
  import opened Encoding
  import opened Segments
  import opened SegmentStream

  // ----- the value of a byte

  /** Writing a value that was read. */
  lemma {:induction false} BitsOfValue(s: seq<bool>)
    ensures BitsOf(ValueOf(s), |s|) == s
  {
    if s != [] {
      var n := |s| - 1;
      BitsOfValue(s[..n]);
      assert s == s[..n] + [s[n]];
    }
  }

  function Digit(c: bool): nat {
    if c then 1 else 0
  }

  function Octet(s: seq<bool>): nat
    requires |s| == 8
  {
    128 * Digit(s[0]) + 64 * Digit(s[1]) + 32 * Digit(s[2]) + 16 * Digit(s[3])
    + 8 * Digit(s[4]) + 4 * Digit(s[5]) + 2 * Digit(s[6]) + Digit(s[7])
  }

  /** The bits of a byte have the weights 128 to 1. */
  lemma ByteValue(b: bv8)
    ensures b as nat == Octet(Bits([b]))
  {}

  lemma EightBits(s: seq<bool>)
    requires |s| == 8
    ensures ValueOf(s) == Octet(s)
  {
    hide ValueOf, Digit;
    NextTwo(s, 2);
    NextTwo(s, 4);
    NextTwo(s, 6);
    NextTwo(s, 8);
    assert s[..8] == s;
  }

  lemma NextTwo(s: seq<bool>, n: nat)
    requires 2 <= n <= |s|
    ensures ValueOf(s[..n]) == 4 * ValueOf(s[..n - 2]) + 2 * Digit(s[n - 2]) + Digit(s[n - 1])
    ensures ValueOf(s[..0]) == 0
  {
    assert s[..n][..n - 1] == s[..n - 1] && s[..n - 1][..n - 2] == s[..n - 2];
  }

  /** The bits of a byte are those of its value. */
  lemma ByteBits(b: bv8)
    ensures Bits([b]) == BitsOf(b as nat, 8)
  {
    hide BitAt, ValueOf, BitsOf, Octet;
    ByteValue(b);
    EightBits(Bits([b]));
    BitsOfValue(Bits([b]));
  }

  // ----- padding

  /** The pad bytes in turn. */
  function PadByte(k: nat): bv8 {
    if k % 2 == 0 then 0xEC else 0x11
  }

  lemma PadByteBits(k: nat)
    ensures Bits([PadByte(k)]) == BitsOf(if k % 2 == 0 then 0xEC else 0x11, 8)
  {
    hide Bits, BitsOf;
    ByteBits(PadByte(k));
  }

  lemma {:induction false} PadsAt(n: nat, k: nat)
    requires k < n
    ensures |PadBits(n)| == 8 * n && PadBits(n)[8 * k..8 * k + 8] == Bits([PadByte(k)])
  {
    hide BitsOf, Bits;
    PadLength(n); PadLength(n - 1);
    if k < n - 1 {
      PadsAt(n - 1, k);
      assert PadBits(n)[8 * k..8 * k + 8] == PadBits(n - 1)[8 * k..8 * k + 8];
    } else {
      PadByteBits(k);
    }
  }

  /** Where the pad bytes start when the segments take n bits: after at least four zeros. */
  function FirstPad(n: nat): nat {
    (n + 11) / 8
  }

  /** Behind the bits of the segments come zeros up to a whole byte, at least four unless the symbol ends before,
      and then the bytes 0xEC and 0x11 in turn to the end of the symbol. */
  lemma Padding(segs: seq<Segment>, ver: nat, data: seq<bv8>)
    requires ver <= 40 && |StreamBits(segs, ver)| <= 8 * |data|
    requires Bits(data) == PaddedBits(segs, ver, 8 * |data|)
    ensures var n := |StreamBits(segs, ver)|;
            && Bits(data)[..n] == StreamBits(segs, ver)
            && (forall k | n <= k < 8 * FirstPad(n) && k < 8 * |data| :: !Bits(data)[k])
            && (forall i | FirstPad(n) <= i < |data| :: data[i] == PadByte(i - FirstPad(n)))
  {
    hide StreamBits, Bits, PadBits, BitsOf, PadByte, TerminatorLength, ToByteBoundary, FirstPad;
    var n, cap := |StreamBits(segs, ver)|, 8 * |data|;
    var t := TerminatorLength(n, cap);
    var a := ToByteBoundary(n + t);
    var m := if n + t + a < cap then |data| - FirstPad(n) else 0;
    TailFacts(n, cap);
    PadsStart(n, |data|);
    ZerosAre(t); ZerosAre(a);
    PadLength(m);
    assert Bits(data) == StreamBits(segs, ver) + (Zeros(t) + Zeros(a) + PadBits(m));
    forall i | FirstPad(n) <= i < |data| ensures data[i] == PadByte(i - FirstPad(n)) {
      SamePads(data, FirstPad(n), m, i - FirstPad(n));
    }
  }

  lemma SamePads(data: seq<bv8>, first: nat, m: nat, k: nat)
    requires k < m && first + m == |data| && Bits(data)[8 * first..] == PadBits(m)
    ensures data[first + k] == PadByte(k)
  {
    hide BitAt, PadBits, PadByte;
    PadsAt(m, k);
    forall p | 0 <= p < 8 ensures BitAt(data[first + k], p) == BitAt(PadByte(k), p) {
      assert Bits(data)[8 * (first + k) + p] == PadBits(m)[8 * k..8 * k + 8][p] == Bits([PadByte(k)])[p];
    }
    SameByte(data[first + k], PadByte(k));
  }

  lemma PadsStart(n: nat, size: nat)
    requires n <= 8 * size
    ensures var t := TerminatorLength(n, 8 * size);
            var a := ToByteBoundary(n + t);
            if n + t + a < 8 * size then n + t + a == 8 * FirstPad(n) else FirstPad(n) >= size
  {
    var q, r := (n + 4) / 8, (n + 4) % 8;
    assert n + 4 == 8 * q + r && FirstPad(n) == if r == 0 then q else q + 1;
  }
}
