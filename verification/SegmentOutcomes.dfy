/** When the decoder refuses a segment, how many bits a segment takes, and what a kanji segment says. */
module SegmentOutcomes {
  import opened BitStrings
  import opened Results
  import opened Payload
  import opened SegmentStream
  import opened Characters

  /** The width of the length field (table 3 of ISO/IEC 18004) for digits, letters, bytes and kanji. */
  function LengthWidth(kind: nat, version: nat): nat {
    var row := if kind == 1 then [10, 12, 14] else if kind == 2 then [9, 11, 13] else if kind == 4 then [8, 16, 16]
               else [8, 10, 12];
    row[if version <= 9 then 0 else if version <= 26 then 1 else 2]
  }

  /** The bits of n characters: three digits take 10, two letters 11, a byte 8 and a kanji 13. */
  function DataNeeded(kind: nat, n: nat): nat {
    if kind == 1 then 10 * (n / 3) + (if n % 3 == 0 then 0 else if n % 3 == 1 then 4 else 7)
    else if kind == 2 then 11 * (n / 2) + 6 * (n % 2)
    else if kind == 4 then 8 * n
    else 13 * n
  }

  /** The bytes of n characters. */
  function TextLength(kind: nat, n: nat): nat {
    if kind == 8 then 2 * n else n
  }

  lemma {:induction false} NumeralsNeed(bits: seq<bool>, n: nat)
    ensures Numerals(bits, n).Ok? <==> |bits| >= DataNeeded(1, n)
    ensures Numerals(bits, n).Ok? ==> |Numerals(bits, n).value.0| == |bits| - DataNeeded(1, n)
    ensures Numerals(bits, n).Err? ==> Numerals(bits, n).error == DataUnderflow
    decreases n
  {
    hide ValueOf, DigitChars, DataNeeded;
    NumericNeeds(n);
    if n > 0 {
      var k := Fewer(n, 3);
      NumeralsStep(bits, n, k);
      if |bits| >= 3 * k + 1 {
        NumeralsNeed(bits[3 * k + 1..], n - k);
      }
    }
  }

  lemma NumericNeeds(n: nat)
    ensures n == 0 ==> DataNeeded(1, n) == 0
    ensures n > 0 ==> DataNeeded(1, n) == DataNeeded(1, n - Fewer(n, 3)) + 3 * Fewer(n, 3) + 1
  {}

  lemma {:induction false} LettersNeed(bits: seq<bool>, n: nat)
    ensures Letters(bits, n).Ok? <==> |bits| >= DataNeeded(2, n)
    ensures Letters(bits, n).Ok? ==> |Letters(bits, n).value.0| == |bits| - DataNeeded(2, n)
    ensures Letters(bits, n).Err? ==> Letters(bits, n).error == DataUnderflow
    decreases n
  {
    hide ValueOf, AlphaChars, DataNeeded;
    AlphaNeeds(n);
    if n > 0 {
      var k := Fewer(n, 2);
      LettersStep(bits, n, k);
      if |bits| >= 5 * k + 1 {
        LettersNeed(bits[5 * k + 1..], n - k);
      }
    }
  }

  lemma AlphaNeeds(n: nat)
    ensures n == 0 ==> DataNeeded(2, n) == 0
    ensures n > 0 ==> DataNeeded(2, n) == DataNeeded(2, n - Fewer(n, 2)) + 5 * Fewer(n, 2) + 1
  {}

  /** A segment overflows if its characters and a closing zero do not fit into 8896 bytes, underflows if its bits
      are not all there, and otherwise takes exactly its bits and appends exactly its characters. */
  lemma Outcome(version: nat, kind: nat, st: State)
    requires kind in {1, 2, 4, 8} && |st.payload| < MAX_PAYLOAD
    ensures var n := NextValue(st.bits, LengthWidth(kind, version));
            var left := |After(st.bits, LengthWidth(kind, version))|;
            var r := DecodedSegment(version, kind, st);
            if |st.payload| + TextLength(kind, n) >= 8896 then r == Err(DataOverflow)
            else if left < DataNeeded(kind, n) then r == Err(DataUnderflow)
            else r.Ok? && |r.value.bits| == left - DataNeeded(kind, n) && st.payload <= r.value.payload
                 && |r.value.payload| == |st.payload| + TextLength(kind, n)
  {
    hide NextValue, After, Numerals, Letters, ByteChars, KanjiChars;
    var n, rest := NextValue(st.bits, LengthWidth(kind, version)), After(st.bits, LengthWidth(kind, version));
    if kind == 1 {
      NumeralsNeed(rest, n);
    } else if kind == 2 {
      LettersNeed(rest, n);
    }
  }

  /** An ECI segment of one, two or three bytes, by the value of the first one. */
  function EciWidth(first: nat): nat {
    if 128 <= first < 192 then 16 else if 192 <= first < 224 then 24 else 8
  }

  /** An ECI segment says the number in all of its bits; it underflows if they are not all there. */
  lemma EciOutcome(st: State)
    ensures var width := if |st.bits| < 8 then 8 else EciWidth(ValueOf(st.bits[..8]));
            DecodedEci(st) == if |st.bits| < width then Err(DataUnderflow)
                              else Ok(st.(bits := st.bits[width..], eci := ValueOf(st.bits[..width])))
  {
    hide ValueOf;
    var bits := st.bits;
    if |bits| >= 8 {
      var first := ValueOf(bits[..8]);
      ValueBound(bits[..8]);
      Powers();
      assert first / 64 == 2 <==> 128 <= first < 192;
      assert first / 32 == 6 <==> 192 <= first < 224;
      if EciWidth(first) == 16 && |bits| >= 16 {
        ValueAppend(bits[..8], bits[8..][..8]);
        assert bits[..16] == bits[..8] + bits[8..][..8] && bits[8..][8..] == bits[16..];
      } else if EciWidth(first) == 24 && |bits| >= 24 {
        ValueAppend(bits[..8], bits[8..][..16]);
        assert bits[..24] == bits[..8] + bits[8..][..16] && bits[8..][16..] == bits[24..];
      }
    }
  }

  lemma KanjiWidth(version: nat)
    ensures LengthWidth(8, version) == CountBits(version, 8, 10, 12)
  {}

  /** A kanji segment is read back as the two bytes of each kanji. */
  lemma KanjiSegmentRead(version: nat, words: seq<nat>, rest: seq<bool>, st: State)
    requires forall i | 0 <= i < |words| :: IsKanji(words[i])
    requires |words| < Pow2(LengthWidth(8, version)) && |st.payload| + 2 * |words| < MAX_PAYLOAD
    requires st.bits == BitsOf(|words|, LengthWidth(8, version)) + (KanjiBits(words) + rest)
    ensures DecodedSegment(version, 8, st) == Ok(st.(bits := rest, payload := st.payload + KanjiBytes(words)))
  {
    hide BitsOf, ValueOf, Pow2, NextValue, After, KanjiBits, KanjiChars, KanjiBytes, IsKanji, DecodedNumeric,
      DecodedAlpha, DecodedByte, DecodedEci, LengthWidth, CountBits;
    KanjiWidth(version);
    TakeField(|words|, LengthWidth(8, version), KanjiBits(words) + rest);
    KanjiRead(words, rest);
  }
}
