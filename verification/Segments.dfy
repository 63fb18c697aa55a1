/** The encoder's segments: digits, letters, bytes and ECI assignments as bits. */
module Segments {
  import opened BitStrings

  datatype Option<T> = None | Some(value: T)

  datatype Mode = Numeric | Alphanumeric | ByteMode | Kanji | Eci {
    function ModeBits(): nat {
      match this
      case Numeric => 1
      case Alphanumeric => 2
      case ByteMode => 4
      case Kanji => 8
      case Eci => 7
    }

    /** The width of the length field, for one of three ranges of versions. */
    function NumCharCountBits(ver: nat): nat
      requires ver <= 40
    {
      match this
      case Numeric => Pick((ver + 7) / 17, 10, 12, 14)
      case Alphanumeric => Pick((ver + 7) / 17, 9, 11, 13)
      case ByteMode => Pick((ver + 7) / 17, 8, 16, 16)
      case Kanji => Pick((ver + 7) / 17, 8, 10, 12)
      case Eci => Pick((ver + 7) / 17, 0, 0, 0)
    }
  }

  function Pick(i: nat, a: nat, b: nat, c: nat): nat {
    if i == 0 then a else if i == 1 then b else c
  }

  datatype Segment = Segment(mode: Mode, numChars: nat, data: seq<bool>)

  /** Appends the lowest len bits of val, which must have no others. */
  method AppendBits(bb: seq<bool>, val: nat, len: nat) returns (r: seq<bool>)
    requires len <= 31 && val < Pow2(len)
    ensures r == bb + BitsOf(val, len)
  {
    r := bb;
    var i := len;
    BitsDown(val, len);
    while i > 0
      invariant 0 <= i <= len && r + BitsOf(val, i) == bb + BitsOf(val, len)
    {
      i := i - 1;
      TopBit(val, i);
      r := r + [Digit2(val, i)];
    }
  }

  /** Bit i of val. */
  predicate Digit2(val: nat, i: nat)
    decreases i
  {
    if i == 0 then val % 2 == 1 else Digit2(val / 2, i - 1)
  }

  lemma BitsDown(val: nat, len: nat)
    ensures [] + BitsOf(val, len) == BitsOf(val, len)
  {}

  lemma {:induction false} TopBit(val: nat, i: nat)
    ensures BitsOf(val, i + 1) == [Digit2(val, i)] + BitsOf(val, i)
    decreases i
  {
    if i > 0 {
      TopBit(val / 2, i - 1);
      assert BitsOf(val, i + 1) == [Digit2(val / 2, i - 1)] + BitsOf(val / 2, i - 1) + [val % 2 == 1];
    }
  }

  // ----- digits

  predicate AreDigits(s: seq<bv8>) {
    forall i | 0 <= i < |s| :: IsDigit(s[i])
  }

  /** The value of a few digits. */
  function DigitsValue(s: seq<bv8>): nat
    requires AreDigits(s)
  {
    if s == [] then 0 else DigitsValue(s[..|s| - 1]) * 10 + DigitValue(s[|s| - 1])
  }

  /** Three digits take ten bits, two take seven and one takes four. */
  function NumericBits(s: seq<bv8>): seq<bool>
    requires AreDigits(s)
  {
    if s == [] then []
    else if |s| < 3 then BitsOf(DigitsValue(s), |s| * 3 + 1)
    else BitsOf(DigitsValue(s[..3]), 10) + NumericBits(s[3..])
  }

  lemma {:induction false} NumericBitsSplit(s: seq<bv8>, t: seq<bv8>)
    requires AreDigits(s + t) && |s| % 3 == 0
    ensures AreDigits(s) && AreDigits(t) && NumericBits(s + t) == NumericBits(s) + NumericBits(t)
    decreases |s|
  {
    hide IsDigit, DigitsValue, BitsOf;
    forall i | 0 <= i < |s| ensures IsDigit(s[i]) { assert (s + t)[i] == s[i]; }
    forall i | 0 <= i < |t| ensures IsDigit(t[i]) { assert (s + t)[|s| + i] == t[i]; }
    if s == [] {
      assert s + t == t;
    } else {
      assert (s + t)[..3] == s[..3] && (s + t)[3..] == s[3..] + t;
      NumericBitsSplit(s[3..], t);
    }
  }

  lemma {:induction false} DigitsBound(s: seq<bv8>)
    requires AreDigits(s) && |s| <= 3
    ensures DigitsValue(s) < (if |s| == 0 then 1 else if |s| == 1 then 10 else if |s| == 2 then 100 else 1000)
    ensures DigitsValue(s) < Pow2(if |s| == 3 then 10 else |s| * 3 + 1)
  {
    Powers();
    if s != [] {
      DigitsBound(s[..|s| - 1]);
      DigitOf(s[|s| - 1]);
    }
  }

  lemma PushDigit(s: seq<bv8>, c: bv8)
    requires AreDigits(s) && IsDigit(c)
    ensures AreDigits(s + [c]) && DigitsValue(s + [c]) == DigitsValue(s) * 10 + DigitValue(c)
  {
    hide IsDigit, DigitValue;
    assert (s + [c])[..|s|] == s;
  }

  /** A full group, or the last one. */
  lemma FlushDigits(s: seq<bv8>, group: seq<bv8>)
    requires AreDigits(s) && AreDigits(group) && |s| % 3 == 0 && 1 <= |group| <= 3
    ensures var len := if |group| == 3 then 10 else |group| * 3 + 1;
            && AreDigits(s + group) && DigitsValue(group) < Pow2(len) && len <= 10
            && NumericBits(s + group) == NumericBits(s) + BitsOf(DigitsValue(group), len)
  {
    hide IsDigit, DigitsValue, BitsOf, Pow2;
    forall i | 0 <= i < |s + group| ensures IsDigit((s + group)[i]) {}
    NumericBitsSplit(s, group);
    DigitsBound(group);
    if |group| == 3 {
      OneGroup(group);
    }
  }

  /** A numeric segment, or nothing if some character is not a digit. */
  method MakeNumeric(digits: seq<bv8>) returns (r: Option<Segment>)
    ensures r.Some? <==> AreDigits(digits)
    ensures r.Some? ==> r.value == Segment(Numeric, |digits|, NumericBits(digits))
  {
    hide IsDigit, NumericBits, DigitsValue, DigitValue, BitsOf, Pow2;
    var bb: seq<bool> := [];
    var accumData, accumCount, charCount := 0, 0, 0;
    ghost var done: seq<bv8>, group: seq<bv8> := [], [];
    NoDigits();
    for i := 0 to |digits|
      invariant charCount == i && digits[..i] == done + group && |done| % 3 == 0 && accumCount == |group| < 3
      invariant AreDigits(done) && AreDigits(group) && bb == NumericBits(done) && accumData == DigitsValue(group)
    {
      var c := digits[i];
      if !IsDigit(c) {
        return None;
      }
      PushDigit(group, c);
      accumData := accumData * 10 + DigitValue(c);
      group := group + [c];
      accumCount := accumCount + 1;
      if accumCount == 3 {
        FlushDigits(done, group);
        bb := AppendBits(bb, accumData, 10);
        done, group := done + group, [];
        NoDigits();
        accumData := 0;
        accumCount := 0;
      }
      charCount := charCount + 1;
    }
    assert digits == done + group;
    if accumCount > 0 {
      FlushDigits(done, group);
      bb := AppendBits(bb, accumData, accumCount * 3 + 1);
    } else {
      assert digits == done;
    }
    return Some(Segment(Numeric, charCount, bb));
  }

  lemma NoDigits()
    ensures AreDigits([]) && NumericBits([]) == [] && DigitsValue([]) == 0
  {}

  lemma OneGroup(s: seq<bv8>)
    requires AreDigits(s) && |s| == 3
    ensures NumericBits(s) == BitsOf(DigitsValue(s), 10)
  {
    assert s[..3] == s && s[3..] == [];
  }

  // ----- letters

  predicate AreLetters(s: seq<bv8>) {
    forall i | 0 <= i < |s| :: IsAlpha(s[i])
  }

  function LettersValue(s: seq<bv8>): nat {
    if s == [] then 0 else LettersValue(s[..|s| - 1]) * 45 + AlphaIndex(s[|s| - 1])
  }

  /** Two letters take eleven bits and one takes six. */
  function AlphaBits(s: seq<bv8>): seq<bool> {
    if s == [] then []
    else if |s| < 2 then BitsOf(LettersValue(s), 6)
    else BitsOf(LettersValue(s[..2]), 11) + AlphaBits(s[2..])
  }

  lemma {:induction false} AlphaBitsSplit(s: seq<bv8>, t: seq<bv8>)
    requires |s| % 2 == 0
    ensures AlphaBits(s + t) == AlphaBits(s) + AlphaBits(t)
    decreases |s|
  {
    hide LettersValue, BitsOf;
    if s == [] {
      assert s + t == t;
    } else {
      assert (s + t)[..2] == s[..2] && (s + t)[2..] == s[2..] + t;
      AlphaBitsSplit(s[2..], t);
    }
  }

  lemma {:induction false} LettersBound(s: seq<bv8>)
    requires AreLetters(s) && |s| <= 2
    ensures LettersValue(s) < (if |s| == 0 then 1 else if |s| == 1 then 45 else 2025)
    ensures |s| > 0 ==> LettersValue(s) < Pow2(|s| * 5 + 1)
  {
    hide AlphaIndex;
    Powers();
    if s != [] {
      LettersBound(s[..|s| - 1]);
      assert IsAlpha(s[|s| - 1]);
    }
  }

  lemma PushLetter(s: seq<bv8>, c: bv8)
    requires AreLetters(s) && IsAlpha(c)
    ensures AreLetters(s + [c]) && LettersValue(s + [c]) == LettersValue(s) * 45 + AlphaIndex(c)
  {
    hide IsAlpha, AlphaIndex;
    assert (s + [c])[..|s|] == s;
  }

  lemma FlushLetters(s: seq<bv8>, group: seq<bv8>)
    requires AreLetters(s) && AreLetters(group) && |s| % 2 == 0 && 1 <= |group| <= 2
    ensures AreLetters(s + group) && LettersValue(group) < Pow2(|group| * 5 + 1)
    ensures AlphaBits(s + group) == AlphaBits(s) + BitsOf(LettersValue(group), |group| * 5 + 1)
  {
    hide IsAlpha, LettersValue, BitsOf, Pow2;
    forall i | 0 <= i < |s + group| ensures IsAlpha((s + group)[i]) {}
    AlphaBitsSplit(s, group);
    LettersBound(group);
    if |group| == 2 {
      assert group[..2] == group && group[2..] == [];
    }
  }

  method MakeAlphanumeric(text: seq<bv8>) returns (r: Option<Segment>)
    ensures r.Some? <==> AreLetters(text)
    ensures r.Some? ==> r.value == Segment(Alphanumeric, |text|, AlphaBits(text))
  {
    hide IsAlpha, AlphaBits, LettersValue, AlphaIndex, BitsOf, Pow2;
    var bb: seq<bool> := [];
    var accumData, accumCount, charCount := 0, 0, 0;
    ghost var done: seq<bv8>, group: seq<bv8> := [], [];
    NoLetters();
    for i := 0 to |text|
      invariant charCount == i && text[..i] == done + group && |done| % 2 == 0 && accumCount == |group| < 2
      invariant AreLetters(done) && AreLetters(group) && bb == AlphaBits(done) && accumData == LettersValue(group)
    {
      var c := text[i];
      if !IsAlpha(c) {
        return None;
      }
      PushLetter(group, c);
      accumData := accumData * 45 + AlphaIndex(c);
      group := group + [c];
      accumCount := accumCount + 1;
      if accumCount == 2 {
        FlushLetters(done, group);
        bb := AppendBits(bb, accumData, 11);
        done, group := done + group, [];
        NoLetters();
        accumData := 0;
        accumCount := 0;
      }
      charCount := charCount + 1;
      assert text[..i + 1] == text[..i] + [c];
      assert text[..i + 1] == done + group;
    }
    assert text == done + group;
    if accumCount > 0 {
      FlushLetters(done, group);
      bb := AppendBits(bb, accumData, 6);
    } else {
      assert text == done;
    }
    return Some(Segment(Alphanumeric, charCount, bb));
  }

  lemma NoLetters()
    ensures AreLetters([]) && AlphaBits([]) == [] && LettersValue([]) == 0
  {}

  // ----- bytes

  function ByteBits(s: seq<bv8>): seq<bool> {
    if s == [] then [] else ByteBits(s[..|s| - 1]) + BitsOf(s[|s| - 1] as nat, 8)
  }

  method MakeBytes(data: seq<bv8>) returns (r: Segment)
    ensures r == Segment(ByteMode, |data|, ByteBits(data))
  {
    hide BitsOf;
    var bb: seq<bool> := [];
    for i := 0 to |data|
      invariant bb == ByteBits(data[..i])
    {
      assert data[..i + 1][..i] == data[..i];
      ByteSize(data[i]);
      bb := AppendBits(bb, data[i] as nat, 8);
    }
    assert data[..|data|] == data;
    return Segment(ByteMode, |data|, bb);
  }

  lemma ByteSize(b: bv8)
    ensures b as nat < Pow2(8)
  {
    ByteOf(b);
    Powers();
    hide Pow2;
  }

  // ----- ECI assignments

  function EciBits(v: nat): seq<bool> {
    if v < 128 then BitsOf(v, 8)
    else if v < 16384 then BitsOf(2, 2) + BitsOf(v, 14)
    else BitsOf(6, 3) + BitsOf(v, 21)
  }

  method MakeEci(assignVal: int) returns (r: Option<Segment>)
    ensures r.Some? <==> 0 <= assignVal < 1000000
    ensures r.Some? ==> r.value == Segment(Eci, 0, EciBits(assignVal))
  {
    hide BitsOf, Pow2;
    Powers();
    var bb: seq<bool> := [];
    if assignVal < 0 {
      return None;
    } else if assignVal < 128 {
      bb := AppendBits(bb, assignVal, 8);
    } else if assignVal < 16384 {
      bb := AppendBits(bb, 2, 2);
      bb := AppendBits(bb, assignVal, 14);
    } else if assignVal < 1000000 {
      bb := AppendBits(bb, 6, 3);
      bb := AppendBits(bb, assignVal, 21);
    } else {
      return None;
    }
    return Some(Segment(Eci, 0, bb));
  }

  // ----- choosing a segment for a text

  method CheckNumeric(text: seq<bv8>) returns (r: bool)
    ensures r == AreDigits(text)
  {
    for i := 0 to |text|
      invariant AreDigits(text[..i])
    {
      if !IsDigit(text[i]) {
        return false;
      }
    }
    return true;
  }

  method CheckAlphanumeric(text: seq<bv8>) returns (r: bool)
    ensures r == AreLetters(text)
  {
    hide IsAlpha;
    for i := 0 to |text|
      invariant AreLetters(text[..i])
    {
      if !IsAlpha(text[i]) {
        return false;
      }
    }
    return true;
  }

  /** The segments that the encoder chooses: none for no text, else one, as dense as it can be. */
  function SegmentsFor(text: seq<bv8>): seq<Segment> {
    if text == [] then []
    else if AreDigits(text) then [Segment(Numeric, |text|, NumericBits(text))]
    else if AreLetters(text) then [Segment(Alphanumeric, |text|, AlphaBits(text))]
    else [Segment(ByteMode, |text|, ByteBits(text))]
  }

  method MakeSegments(text: seq<bv8>) returns (result: seq<Segment>)
    ensures result == SegmentsFor(text)
  {
    hide NumericBits, AlphaBits, ByteBits, IsDigit, IsAlpha;
    if text == [] {
      return [];
    }
    var numeric := CheckNumeric(text);
    if numeric {
      var seg := MakeNumeric(text);
      return [seg.value];
    }
    var alphanumeric := CheckAlphanumeric(text);
    if alphanumeric {
      var seg := MakeAlphanumeric(text);
      return [seg.value];
    }
    var seg := MakeBytes(text);
    return [seg];
  }
}
