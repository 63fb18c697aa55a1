/** The decoder reads back what the segments of the encoder say. */
module SegmentStream {
  import opened BitStrings
  import opened Results
  import opened Segments
  import opened Payload

  // ----- what segments say

  /** The segment stands for the text; an ECI segment stands for no text. */
  ghost predicate Spells(seg: Segment, text: seq<bv8>) {
    match seg.mode
    case Numeric => AreDigits(text) && seg.numChars == |text| && seg.data == NumericBits(text)
    case Alphanumeric => AreLetters(text) && seg.numChars == |text| && seg.data == AlphaBits(text)
    case ByteMode => seg.numChars == |text| && seg.data == ByteBits(text)
    case Kanji => false
    case Eci => text == [] && seg.numChars == 0 && exists v: nat :: v < 1000000 && seg.data == EciBits(v)
  }

  /** A segment with its mode and length in front. */
  ghost function Framed(seg: Segment, ver: nat): seq<bool>
    requires ver <= 40
  {
    BitsOf(seg.mode.ModeBits(), 4) + BitsOf(seg.numChars, seg.mode.NumCharCountBits(ver)) + seg.data
  }

  ghost function StreamBits(segs: seq<Segment>, ver: nat): seq<bool>
    requires ver <= 40
  {
    if segs == [] then [] else Framed(segs[0], ver) + StreamBits(segs[1..], ver)
  }

  ghost function Concat(texts: seq<seq<bv8>>): seq<bv8> {
    if texts == [] then [] else texts[0] + Concat(texts[1..])
  }

  ghost predicate AllSpell(segs: seq<Segment>, texts: seq<seq<bv8>>) {
    |segs| == |texts| && forall i | 0 <= i < |segs| :: Spells(segs[i], texts[i])
  }

  // ----- values of parts

  lemma {:induction false} ValueAppend(a: seq<bool>, b: seq<bool>)
    ensures ValueOf(a + b) == ValueOf(a) * Pow2(|b|) + ValueOf(b)
    decreases |b|
  {
    hide ValueOf, Pow2;
    if b == [] {
      assert a + b == a;
      ValueNone(b);
    } else {
      var n := |b| - 1;
      assert (a + b)[..|a + b| - 1] == a + b[..n];
      ValueAppend(a, b[..n]);
      ValueLast(a + b);
      ValueLast(b);
      Twice(ValueOf(a), Pow2(n));
    }
  }

  lemma ValueNone(b: seq<bool>)
    requires b == []
    ensures ValueOf(b) == 0 && Pow2(0) == 1
  {}

  lemma ValueLast(b: seq<bool>)
    requires b != []
    ensures ValueOf(b) == 2 * ValueOf(b[..|b| - 1]) + (if b[|b| - 1] then 1 else 0)
    ensures Pow2(|b|) == 2 * Pow2(|b| - 1)
  {}

  lemma Twice(x: nat, y: nat)
    ensures x * (2 * y) == 2 * (x * y)
  {}

  /** Taking a field off the front of the bits. */
  lemma TakeField(val: nat, len: nat, rest: seq<bool>)
    requires val < Pow2(len)
    ensures var bits := BitsOf(val, len) + rest;
            && |bits| >= len && bits[..len] == BitsOf(val, len) && bits[len..] == rest && ValueOf(bits[..len]) == val
            && NextValue(bits, len) == val && After(bits, len) == rest
  {
    hide ValueOf, Pow2;
    ValueOfBits(val, len);
    assert (BitsOf(val, len) + rest)[..len] == BitsOf(val, len);
  }

  lemma CountWidths(ver: nat)
    requires 1 <= ver <= 40
    ensures Mode.Numeric.NumCharCountBits(ver) == CountBits(ver, 10, 12, 14)
    ensures Mode.Alphanumeric.NumCharCountBits(ver) == CountBits(ver, 9, 11, 13)
    ensures Mode.ByteMode.NumCharCountBits(ver) == CountBits(ver, 8, 16, 16)
    ensures Mode.Eci.NumCharCountBits(ver) == 0
  {}

  // ----- each kind of segment

  lemma LastPlace(a: nat, d: nat, base: nat)
    requires d < base
    ensures (a * base + d) / base == a && (a * base + d) % base == d
  {
    Remainder(a * base + d, base, a, d);
  }

  lemma DigitCharsStep(a: nat, d: nat, n: nat)
    requires d < 10
    ensures DigitChars(a * 10 + d, n + 1) == DigitChars(a, n) + [DigitChar(d)]
  {
    hide DigitChar;
    LastPlace(a, d, 10);
  }

  lemma AlphaCharsStep(a: nat, d: nat, n: nat)
    requires d < 45
    ensures AlphaChars(a * 45 + d, n + 1) == AlphaChars(a, n) + [AlphaChar(d)]
  {
    hide AlphaChar;
    LastPlace(a, d, 45);
  }

  lemma DigitsLast(s: seq<bv8>)
    requires AreDigits(s) && s != []
    ensures IsDigit(s[|s| - 1]) && AreDigits(s[..|s| - 1])
    ensures DigitsValue(s) == DigitsValue(s[..|s| - 1]) * 10 + DigitValue(s[|s| - 1])
  {
    hide IsDigit, DigitValue;
  }

  /** The characters of a few digits. */
  lemma {:induction false} DigitsBack(s: seq<bv8>)
    requires AreDigits(s)
    ensures DigitChars(DigitsValue(s), |s|) == s
  {
    hide DigitChar, IsDigit, DigitValue, DigitsValue;
    if s != [] {
      var init, c := s[..|s| - 1], s[|s| - 1];
      DigitsLast(s);
      DigitsBack(init);
      DigitOf(c);
      DigitCharsStep(DigitsValue(init), DigitValue(c), |init|);
      assert init + [c] == s;
    }
  }

  lemma {:induction false} LettersBack(s: seq<bv8>)
    requires AreLetters(s)
    ensures AlphaChars(LettersValue(s), |s|) == s
  {
    hide AlphaChar, AlphaIndexFrom;
    if s != [] {
      var init, c := s[..|s| - 1], s[|s| - 1];
      assert IsAlpha(c);
      LettersBack(init);
      AlphaCharsStep(LettersValue(init), AlphaIndex(c), |init|);
      assert init + [c] == s;
    }
  }

  lemma NumericFront(s: seq<bv8>, n: nat)
    requires AreDigits(s) && s != [] && n == Fewer(|s|, 3)
    ensures AreDigits(s[..n]) && AreDigits(s[n..]) && NumericBits(s) == BitsOf(DigitsValue(s[..n]), 3 * n + 1)
        + NumericBits(s[n..])
  {
    hide IsDigit, DigitsValue, BitsOf;
    if n < 3 {
      assert s[..n] == s;
    }
  }

  lemma AlphaFront(s: seq<bv8>, n: nat)
    requires s != [] && n == Fewer(|s|, 2)
    ensures AlphaBits(s) == BitsOf(LettersValue(s[..n]), 5 * n + 1) + AlphaBits(s[n..])
  {
    hide LettersValue, BitsOf;
    if n < 2 {
      assert s[..n] == s;
    }
  }

  lemma {:induction false} NumeralsBack(s: seq<bv8>, rest: seq<bool>)
    requires AreDigits(s)
    ensures Numerals(NumericBits(s) + rest, |s|) == Ok((rest, s))
    decreases |s|
  {
    hide IsDigit, DigitsValue, ValueOf, Pow2, DigitChars, BitsOf, NumericBits, Numerals;
    if s == [] {
      NoNumerals(s, rest);
    } else {
      var n := Fewer(|s|, 3);
      var group, more := s[..n], s[n..];
      NumericFront(s, n);
      DigitsBound(group);
      DigitsBack(group);
      NumeralsBack(more, rest);
      TakeField(DigitsValue(group), 3 * n + 1, NumericBits(more) + rest);
      Regroup(BitsOf(DigitsValue(group), 3 * n + 1), NumericBits(more), rest);
      NumeralsStep(NumericBits(s) + rest, |s|, n);
      assert group + more == s;
    }
  }

  lemma Regroup(a: seq<bool>, b: seq<bool>, c: seq<bool>)
    ensures a + b + c == a + (b + c)
  {}

  lemma NoNumerals(s: seq<bv8>, rest: seq<bool>)
    requires s == []
    ensures AreDigits(s) && Numerals(NumericBits(s) + rest, |s|) == Ok((rest, s))
        && Letters(AlphaBits(s) + rest, |s|) == Ok((rest, s))
  {
    assert [] + rest == rest;
  }

  lemma {:induction false} LettersRead(s: seq<bv8>, rest: seq<bool>)
    requires AreLetters(s)
    ensures Letters(AlphaBits(s) + rest, |s|) == Ok((rest, s))
    decreases |s|
  {
    hide IsAlpha, LettersValue, ValueOf, Pow2, AlphaChars, BitsOf, AlphaBits, Letters;
    if s == [] {
      NoNumerals(s, rest);
    } else {
      var n := Fewer(|s|, 2);
      var group, more := s[..n], s[n..];
      AlphaFront(s, n);
      LettersBound(group);
      LettersBack(group);
      LettersRead(more, rest);
      TakeField(LettersValue(group), 5 * n + 1, AlphaBits(more) + rest);
      Regroup(BitsOf(LettersValue(group), 5 * n + 1), AlphaBits(more), rest);
      LettersStep(AlphaBits(s) + rest, |s|, n);
      assert group + more == s;
    }
  }

  lemma {:induction false} ByteBitsFront(s: seq<bv8>)
    requires s != []
    ensures ByteBits(s) == BitsOf(s[0] as nat, 8) + ByteBits(s[1..])
    decreases |s|
  {
    hide BitsOf;
    var n := |s| - 1;
    if n > 0 {
      ByteBitsFront(s[..n]);
      assert s[..n][1..] == s[1..][..n - 1];
    }
  }

  lemma {:induction false} ByteBitsLength(s: seq<bv8>)
    ensures |ByteBits(s)| == 8 * |s|
  {
    if s != [] {
      ByteBitsLength(s[..|s| - 1]);
    }
  }

  lemma {:induction false} BytesBack(s: seq<bv8>, rest: seq<bool>)
    ensures |ByteBits(s)| == 8 * |s|
    ensures ByteChars(ByteBits(s) + rest, |s|) == s && (ByteBits(s) + rest)[8 * |s|..] == rest
    decreases |s|
  {
    hide BitsOf, ValueOf, ToByte, Pow2;
    ByteBitsLength(s);
    if s != [] {
      ByteBitsFront(s);
      BytesBack(s[1..], rest);
      ByteSize(s[0]);
      ToByteOf(s[0]);
      TakeField(s[0] as nat, 8, ByteBits(s[1..]) + rest);
      assert ByteBits(s) + rest == BitsOf(s[0] as nat, 8) + (ByteBits(s[1..]) + rest);
    }
  }

  // ----- ECI assignments

  /** What the decoder makes of an assignment: it keeps the bits that tell the length. */
  function EciSeen(v: nat): nat {
    if v < 128 then v else if v < 16384 then 0x8000 + v else 0xC00000 + v
  }

  lemma EciValue(v: nat)
    requires v < 1000000
    ensures ValueOf(EciBits(v)) == EciSeen(v) && |EciBits(v)| == (if v < 128 then 8 else if v < 16384 then 16 else 24)
    ensures EciSeen(v) == v <==> v < 128
  {
    hide ValueOf, BitsOf, Pow2;
    Powers();
    if v < 128 {
      ValueOfBits(v, 8);
    } else if v < 16384 {
      ValueOfBits(2, 2); ValueOfBits(v, 14);
      ValueAppend(BitsOf(2, 2), BitsOf(v, 14));
    } else {
      ValueOfBits(6, 3); ValueOfBits(v, 21);
      ValueAppend(BitsOf(6, 3), BitsOf(v, 21));
    }
  }

  /** The first eight bits and the others. */
  lemma SplitByte(b: seq<bool>)
    requires |b| >= 8
    ensures ValueOf(b) == ValueOf(b[..8]) * Pow2(|b| - 8) + ValueOf(b[8..]) && ValueOf(b[8..]) < Pow2(|b| - 8)
  {
    hide ValueOf, Pow2;
    ValueAppend(b[..8], b[8..]);
    ValueBound(b[8..]);
    assert b == b[..8] + b[8..];
  }

  lemma Slices(b: seq<bool>, rest: seq<bool>)
    requires |b| >= 8
    ensures |b + rest| >= 8 && (b + rest)[..8] == b[..8] && (b + rest)[8..] == b[8..] + rest
    ensures (b[8..] + rest)[..|b| - 8] == b[8..] && (b[8..] + rest)[|b| - 8..] == rest
  {
    assert (b + rest)[..8] == b[..8];
  }

  lemma EciRead(v: nat, rest: seq<bool>, st: State)
    requires v < 1000000 && st.bits == EciBits(v) + rest
    ensures DecodedEci(st) == Ok(st.(bits := rest, eci := EciSeen(v)))
  {
    hide ValueOf, EciBits, Pow2;
    EciValue(v);
    var e := EciBits(v);
    Slices(e, rest);
    SplitByte(e);
    Powers();
    if v < 128 {
      assert e[..8] == e && e[8..] == [];
    }
  }

  // ----- a whole segment

  /** The length fits its field. */
  predicate Fits(seg: Segment, ver: nat)
    requires ver <= 40
  {
    seg.numChars < Pow2(seg.mode.NumCharCountBits(ver))
  }

  ghost function EciAfter(seg: Segment, eci: nat): nat {
    if seg.mode == Eci then ValueOf(seg.data) else eci
  }

  lemma SegmentRead(ver: nat, seg: Segment, text: seq<bv8>, rest: seq<bool>, st: State)
    requires 1 <= ver <= 40 && Spells(seg, text) && Fits(seg, ver) && |st.payload| + |text| + 1 <= MAX_PAYLOAD
    requires st.bits == BitsOf(seg.numChars, seg.mode.NumCharCountBits(ver)) + (seg.data + rest)
    ensures DecodedSegment(ver, seg.mode.ModeBits(), st) ==
            Ok(State(rest, st.payload + text, st.dataType, EciAfter(seg, st.eci)))
  {
    hide BitsOf, ValueOf, Pow2, Numerals, Letters, NumericBits, AlphaBits, ByteBits, EciBits, AreDigits, AreLetters,
        ByteChars,
      NextValue, After, CountBits, Mode.NumCharCountBits, EciSeen;
    CountWidths(ver);
    TakeField(seg.numChars, seg.mode.NumCharCountBits(ver), seg.data + rest);
    match seg.mode
    case Numeric => NumeralsBack(text, rest);
    case Alphanumeric => LettersRead(text, rest);
    case ByteMode => BytesBack(text, rest);
    case Eci =>
      var v: nat :| v < 1000000 && seg.data == EciBits(v);
      assert st.bits == EciBits(v) + rest;
      EciRead(v, rest, st);
      EciValue(v);
      assert st.payload + [] == st.payload;
    case Kanji => assert false;
  }

  lemma FramedRead(ver: nat, seg: Segment, text: seq<bv8>, rest: seq<bool>, st: State)
    requires 1 <= ver <= 40 && Spells(seg, text) && Fits(seg, ver) && |st.payload| + |text| + 1 <= MAX_PAYLOAD
    requires st.bits == Framed(seg, ver) + rest
    ensures Decoded(ver, st) ==
            Decoded(ver, WithType(State(rest, st.payload + text, st.dataType, EciAfter(seg, st.eci)),
                seg.mode.ModeBits()))
  {
    hide BitsOf, ValueOf, Pow2, Spells, Fits, Decoded, DecodedSegment, Mode.NumCharCountBits, NextValue, After,
        EciAfter;
    Powers();
    var head, field := BitsOf(seg.mode.ModeBits(), 4), BitsOf(seg.numChars, seg.mode.NumCharCountBits(ver));
    assert st.bits == head + (field + (seg.data + rest));
    TakeField(seg.mode.ModeBits(), 4, field + (seg.data + rest));
    SegmentRead(ver, seg, text, rest, st.(bits := st.bits[4..]));
    DecodedStep(ver, st);
  }

  // ----- a stream of segments

  predicate AllFit(segs: seq<Segment>, ver: nat)
    requires ver <= 40
  {
    forall i | 0 <= i < |segs| :: Fits(segs[i], ver)
  }

  /** The state after all segments. */
  ghost function AfterAll(segs: seq<Segment>, texts: seq<seq<bv8>>, st: State): State
    requires |segs| == |texts|
  {
    if segs == [] then st
    else AfterAll(segs[1..], texts[1..],
                  WithType(State(st.bits, st.payload + texts[0], st.dataType, EciAfter(segs[0], st.eci)),
                      segs[0].mode.ModeBits()))
  }

  lemma {:induction false} AfterAllFields(segs: seq<Segment>, texts: seq<seq<bv8>>, st: State)
    requires |segs| == |texts|
    ensures AfterAll(segs, texts, st).payload == st.payload + Concat(texts) && AfterAll(segs, texts, st).bits == st.bits
  {
    hide EciAfter;
    if segs != [] {
      var next := WithType(State(st.bits, st.payload + texts[0], st.dataType, EciAfter(segs[0], st.eci)),
          segs[0].mode.ModeBits());
      AfterAllFields(segs[1..], texts[1..], next);
      assert st.payload + texts[0] + Concat(texts[1..]) == st.payload + (texts[0] + Concat(texts[1..]));
    } else {
      assert st.payload + [] == st.payload;
    }
  }

  /** Decoding the bits of the segments gives the state after all of them, with the tail still to come. */
  lemma {:induction false} StreamRead(ver: nat, segs: seq<Segment>, texts: seq<seq<bv8>>, tail: seq<bool>, st: State)
    requires 1 <= ver <= 40 && AllSpell(segs, texts) && AllFit(segs, ver)
    requires |st.payload| + |Concat(texts)| + 1 <= MAX_PAYLOAD && st.bits == StreamBits(segs, ver) + tail
    ensures |AfterAll(segs, texts, st).payload| < MAX_PAYLOAD
    ensures Decoded(ver, st) == Decoded(ver, AfterAll(segs, texts, st).(bits := tail))
    decreases |segs|
  {
    hide Spells, Fits, Framed, Decoded, EciAfter;
    AfterAllFields(segs, texts, st);
    if segs == [] {
      assert [] + tail == tail;
      assert st == st.(bits := tail);
    } else {
      var rest := StreamBits(segs[1..], ver) + tail;
      Regroup(Framed(segs[0], ver), StreamBits(segs[1..], ver), tail);
      FramedRead(ver, segs[0], texts[0], rest, st);
      var next := WithType(State(rest, st.payload + texts[0], st.dataType, EciAfter(segs[0], st.eci)),
          segs[0].mode.ModeBits());
      StreamRead(ver, segs[1..], texts[1..], tail, next);
      OnlyBits(segs[1..], texts[1..], next, st.bits);
    }
  }

  lemma {:induction false} OnlyBits(segs: seq<Segment>, texts: seq<seq<bv8>>, st: State, bits: seq<bool>)
    requires |segs| == |texts|
    ensures AfterAll(segs, texts, st.(bits := bits)) == AfterAll(segs, texts, st).(bits := bits)
    decreases |segs|
  {
    hide EciAfter;
    if segs != [] {
      var next := WithType(State(st.bits, st.payload + texts[0], st.dataType, EciAfter(segs[0], st.eci)),
          segs[0].mode.ModeBits());
      OnlyBits(segs[1..], texts[1..], next, bits);
    }
  }

  /** What follows the segments is no segment: too few bits, or a terminator. */
  predicate IsTail(tail: seq<bool>) {
    forall i | 0 <= i < Fewer(4, |tail|) :: !tail[i]
  }

  lemma {:induction false} ZeroValue(b: seq<bool>)
    requires forall i | 0 <= i < |b| :: !b[i]
    ensures ValueOf(b) == 0
  {
    if b != [] {
      ZeroValue(b[..|b| - 1]);
    }
  }

  lemma TailRead(ver: nat, st: State)
    requires IsTail(st.bits) && |st.payload| < MAX_PAYLOAD
    ensures Decoded(ver, st).Ok?
    ensures var v := Decoded(ver, st).value; v.payload == st.payload && v.dataType == st.dataType && v.eci == st.eci
  {
    hide ValueOf, Decoded;
    DecodedStep(ver, st);
    if |st.bits| >= 4 {
      ZeroValue(st.bits[..4]);
    }
  }

  // ----- a stream that fits a symbol fits the payload buffer

  lemma {:induction false} NumericRoom(s: seq<bv8>)
    requires AreDigits(s)
    ensures 10 * |s| <= 3 * |NumericBits(s)|
  {
    hide IsDigit, DigitsValue;
    if |s| >= 3 {
      NumericRoom(s[3..]);
    }
  }

  lemma {:induction false} AlphaRoom(s: seq<bv8>)
    ensures 10 * |s| <= 3 * |AlphaBits(s)|
  {
    hide LettersValue;
    if |s| >= 2 {
      AlphaRoom(s[2..]);
    }
  }

  lemma SegmentRoom(seg: Segment, text: seq<bv8>)
    requires Spells(seg, text)
    ensures 10 * |text| <= 3 * |seg.data|
  {
    hide NumericBits, AlphaBits, ByteBits, EciBits, AreDigits, AreLetters;
    match seg.mode
    case Numeric => NumericRoom(text);
    case Alphanumeric => AlphaRoom(text);
    case ByteMode => ByteBitsLength(text);
    case Eci =>
    case Kanji => assert false;
  }

  lemma {:induction false} StreamRoom(segs: seq<Segment>, texts: seq<seq<bv8>>, ver: nat)
    requires ver <= 40 && AllSpell(segs, texts)
    ensures 10 * |Concat(texts)| <= 3 * |StreamBits(segs, ver)|
    decreases |segs|
  {
    hide Spells, BitsOf, Mode.NumCharCountBits;
    if segs != [] {
      SegmentRoom(segs[0], texts[0]);
      StreamRoom(segs[1..], texts[1..], ver);
    }
  }

  /** The segments chosen for a text spell it. */
  lemma ChosenSpell(text: seq<bv8>)
    ensures var texts := if text == [] then [] else [text];
            AllSpell(SegmentsFor(text), texts) && Concat(texts) == text
  {
    hide NumericBits, AlphaBits, ByteBits, IsDigit, IsAlpha;
    if text != [] {
      var texts := [text];
      assert texts[1..] == [];
      assert text + [] == text;
    }
  }
}
