/** The segment that is chosen for a text needs the fewest bits, and what that means for versions and levels. */
module SegmentChoice {
  import opened Versions
  import opened BitStrings
  import opened Segments
  import opened SegmentStream
  import opened Layouts
  import opened Encoding
  import opened Capacities

  // ----- lengths

  /** The bits of n characters: three digits in ten bits, two letters in eleven, a byte in eight. */
  function DataBits(mode: Mode, n: nat): nat {
    match mode
    case Numeric => 10 * (n / 3) + (if n % 3 == 0 then 0 else if n % 3 == 1 then 4 else 7)
    case Alphanumeric => 11 * (n / 2) + 6 * (n % 2)
    case ByteMode => 8 * n
    case _ => 0
  }

  function FramedBits(mode: Mode, n: nat, ver: nat): nat
    requires ver <= 40
  {
    4 + mode.NumCharCountBits(ver) + DataBits(mode, n)
  }

  lemma {:induction false} NumericLength(s: seq<bv8>)
    requires AreDigits(s)
    ensures |NumericBits(s)| == DataBits(Numeric, |s|)
    decreases |s|
  {
    hide IsDigit, DigitsValue, BitsOf;
    if |s| >= 3 {
      NumericLength(s[3..]);
    }
  }

  lemma {:induction false} AlphaLength(s: seq<bv8>)
    ensures |AlphaBits(s)| == DataBits(Alphanumeric, |s|)
    decreases |s|
  {
    hide LettersValue, BitsOf;
    if |s| >= 2 {
      AlphaLength(s[2..]);
    }
  }

  /** The mode of a segment that spells a text can be read off the text only as far as it is allowed there. */
  ghost predicate CanSpell(mode: Mode, text: seq<bv8>) {
    match mode
    case Numeric => AreDigits(text)
    case Alphanumeric => AreLetters(text)
    case ByteMode => true
    case _ => false
  }

  lemma SpelledLength(seg: Segment, text: seq<bv8>, ver: nat)
    requires ver <= 40 && text != [] && Spells(seg, text)
    ensures CanSpell(seg.mode, text) && seg.numChars == |text|
    ensures |StreamBits([seg], ver)| == |Framed(seg, ver)| == FramedBits(seg.mode, |text|, ver)
  {
    hide AreDigits, AreLetters, NumericBits, AlphaBits, ByteBits, EciBits, Mode.NumCharCountBits, BitsOf, DataBits;
    assert [seg][1..] == [];
    match seg.mode
    case Numeric => NumericLength(text);
    case Alphanumeric => AlphaLength(text);
    case ByteMode => BytesLength(text);
    case Eci =>
  }

  lemma BytesLength(text: seq<bv8>)
    ensures |ByteBits(text)| == DataBits(ByteMode, |text|)
  {
    ByteBitsLength(text);
  }

  /** Digits take no more bits than letters, and letters no more than bytes, length fields included. */
  lemma Denser(n: nat, ver: nat)
    requires n >= 1 && 1 <= ver <= 40
    ensures FramedBits(Numeric, n, ver) <= FramedBits(Alphanumeric, n, ver) <= FramedBits(ByteMode, n, ver)
  {}

  // ----- the chosen segment

  lemma Chosen(text: seq<bv8>)
    requires text != []
    ensures |SegmentsFor(text)| == 1 && Spells(SegmentsFor(text)[0], text)
    ensures SegmentsFor(text) == [SegmentsFor(text)[0]]
    ensures SegmentsFor(text)[0].mode == if AreDigits(text) then Numeric
                                         else if AreLetters(text) then Alphanumeric else ByteMode
  {
    hide NumericBits, AlphaBits, ByteBits, AreDigits, AreLetters;
    Digits(text);
  }

  lemma Digits(text: seq<bv8>)
    ensures SegmentsFor(text) == if text == [] then []
                                 else if AreDigits(text) then [Segment(Numeric, |text|, NumericBits(text))]
                                 else if AreLetters(text) then [Segment(Alphanumeric, |text|, AlphaBits(text))]
                                 else [Segment(ByteMode, |text|, ByteBits(text))]
  {
    hide NumericBits, AlphaBits, ByteBits, AreDigits, AreLetters;
  }

  /** No segment that spells the text, in whatever mode, is shorter than the chosen one. */
  lemma ChosenIsDensest(text: seq<bv8>, seg: Segment, ver: nat)
    requires 1 <= ver <= 40 && text != [] && Spells(seg, text)
    ensures |SegmentsFor(text)| == 1 && Spells(SegmentsFor(text)[0], text)
    ensures |Framed(SegmentsFor(text)[0], ver)| <= |Framed(seg, ver)|
  {
    hide Spells, SegmentsFor, FramedBits, Framed, AreDigits, AreLetters;
    Chosen(text);
    SpelledLength(seg, text, ver);
    SpelledLength(SegmentsFor(text)[0], text, ver);
    Denser(|text|, ver);
  }

  /** A symbol that holds the text in any mode has a length field that is wide enough in the chosen mode. */
  lemma ChosenFits(text: seq<bv8>, seg: Segment, ver: nat, ecl: Ecc)
    requires 1 <= ver <= 40 && text != [] && Spells(seg, text) && FitsIn([seg], ver, ecl)
    ensures FitsIn(SegmentsFor(text), ver, ecl)
  {
    hide Spells, SegmentsFor, AreDigits, AreLetters, FitsIn, FramedBits, NumDataCodewords, Pow2, Mode.NumCharCountBits;
    Chosen(text);
    var chosen := SegmentsFor(text)[0];
    OneFits(seg, text, ver, ecl);
    OneFits(chosen, text, ver, ecl);
    Denser(|text|, ver);
    CapacityTo26(ver, ecl);
    Wide(seg.mode, chosen.mode, |text|, ver);
  }

  /** A segment that spells a text fits if its length fits the field and its bits the symbol. */
  lemma OneFits(seg: Segment, text: seq<bv8>, ver: nat, ecl: Ecc)
    requires 1 <= ver <= 40 && text != [] && Spells(seg, text)
    ensures CanSpell(seg.mode, text)
    ensures FitsIn([seg], ver, ecl) <==>
            |text| < Pow2(seg.mode.NumCharCountBits(ver)) &&
            FramedBits(seg.mode, |text|, ver) <= 8 * NumDataCodewords(ecl, ver)
  {
    hide Spells, CanSpell, FramedBits, Framed, StreamBits, NumDataCodewords, Pow2, Mode.NumCharCountBits;
    SpelledLength(seg, text, ver);
    assert FitsIn([seg], ver, ecl) ==> Fits([seg][0], ver);
  }

  lemma CapacityTo26(ver: nat, ecl: Ecc)
    requires 1 <= ver <= 40
    ensures NumDataCodewords(ecl, ver) <= 2956
    ensures ver <= 26 ==> NumDataCodewords(ecl, ver) <= 1370
  {
    hide NumDataCodewords;
    LargestCapacity(ecl, ver);
    if ver <= 26 {
      CapacityGrows(ecl, ver, 26);
      Tabulated(26);
    }
  }

  lemma Wide(mode: Mode, chosen: Mode, n: nat, ver: nat)
    requires 1 <= ver <= 40 && n < Pow2(mode.NumCharCountBits(ver))
    requires FramedBits(mode, n, ver) <= 8 * (if ver <= 26 then 1370 else 2956)
    requires mode == ByteMode || (mode == Alphanumeric && chosen != ByteMode) || (mode == Numeric && chosen == Numeric)
    requires chosen == Numeric || chosen == Alphanumeric || chosen == ByteMode
    ensures n < Pow2(chosen.NumCharCountBits(ver))
  {
    hide Pow2;
    Powers();
  }

  // ----- texts and symbols

  /** Some segment, in whatever mode, spells the text and fits the symbol; no text needs none. */
  ghost predicate TextFits(text: seq<bv8>, ver: nat, ecl: Ecc)
    requires 1 <= ver <= 40
  {
    text == [] || exists seg :: Spells(seg, text) && FitsIn([seg], ver, ecl)
  }

  lemma TextFitsMeans(text: seq<bv8>, ver: nat, ecl: Ecc)
    requires 1 <= ver <= 40
    ensures TextFits(text, ver, ecl) <==> FitsIn(SegmentsFor(text), ver, ecl)
  {
    hide Spells, FitsIn, SegmentsFor;
    if text == [] {
      NothingFits(ver, ecl);
      assert SegmentsFor(text) == [] by { Digits(text); }
    } else {
      Chosen(text);
      if TextFits(text, ver, ecl) {
        var seg :| Spells(seg, text) && FitsIn([seg], ver, ecl);
        ChosenFits(text, seg, ver, ecl);
      }
    }
  }

  lemma NothingFits(ver: nat, ecl: Ecc)
    requires 1 <= ver <= 40
    ensures FitsIn([], ver, ecl)
  {
    hide NumDataCodewords;
    LargestCapacity(ecl, ver);
  }

  /** The version is the least in which some segment for the text fits at the level. */
  ghost predicate IsLeastFor(text: seq<bv8>, level: Ecc, version: nat) {
    && 1 <= version <= 40 && TextFits(text, version, level)
    && forall v | 1 <= v < version :: !TextFits(text, v, level)
  }

  /** The level protects at least as well as the one asked for, and better ones leave no room for the text:
      measured by the data codewords that are left. */
  ghost predicate IsStrongestFor(text: seq<bv8>, level: Ecc, version: nat, ecl: Ecc)
    requires 1 <= version <= 40
  {
    && TextFits(text, version, ecl) && NumDataCodewords(ecl, version) <= NumDataCodewords(level, version)
    && forall e | NumDataCodewords(e, version) < NumDataCodewords(ecl, version) :: !TextFits(text, version, e)
  }

  lemma LeastMeans(text: seq<bv8>, level: Ecc, version: int)
    requires IsLeastVersion(SegmentsFor(text), level, 1, 40, version)
    ensures version >= 1 && IsLeastFor(text, level, version)
  {
    hide FitsIn, SegmentsFor, TextFits;
    TextFitsMeans(text, version, level);
    forall v | 1 <= v < version ensures !TextFits(text, v, level) {
      TextFitsMeans(text, v, level);
    }
  }

  /** The levels by rank are the levels by strength. */
  lemma RankIsStrength(a: Ecc, b: Ecc, ver: nat)
    requires 1 <= ver <= 40
    ensures Rank(a) < Rank(b) <==> NumDataCodewords(b, ver) < NumDataCodewords(a, ver)
    ensures Rank(a) == Rank(b) <==> a == b
  {
    hide NumDataCodewords, TABLE;
    Tabulated(ver);
    RowsOrdered();
  }

  lemma StrongestMeans(text: seq<bv8>, level: Ecc, version: nat, ecl: Ecc)
    requires 1 <= version <= 40 && IsBoosted(SegmentsFor(text), version, level, true, ecl)
    ensures IsStrongestFor(text, level, version, ecl)
  {
    hide FitsIn, SegmentsFor, TextFits, NumDataCodewords, Rank;
    TextFitsMeans(text, version, ecl);
    RankIsStrength(ecl, level, version);
    forall e | NumDataCodewords(e, version) < NumDataCodewords(ecl, version) ensures !TextFits(text, version, e) {
      RankIsStrength(ecl, e, version);
      TextFitsMeans(text, version, e);
    }
  }

  // ----- how long a text can be

  /** The longest texts of digits, of letters and of bytes. */
  ghost function LongestText(text: seq<bv8>): nat {
    if AreDigits(text) then 7089 else if AreLetters(text) then 4296 else 2953
  }

  /** The largest symbol at level Low holds 7089 digits, 4296 letters or 2953 bytes, and no more. */
  lemma LargestTexts(text: seq<bv8>)
    ensures TextFits(text, 40, Low) <==> |text| <= LongestText(text)
  {
    hide Spells, SegmentsFor, AreDigits, AreLetters, FitsIn, FramedBits, NumDataCodewords, TextFits, LongestText, Pow2,
      Mode.NumCharCountBits;
    TextFitsMeans(text, 40, Low);
    if text == [] {
      Digits(text);
      NothingFits(40, Low);
    } else {
      Chosen(text);
      var chosen := SegmentsFor(text)[0];
      OneFits(chosen, text, 40, Low);
      LargestCapacity(Low, 40);
      LongestMeans(text);
      LengthLimit(chosen.mode, |text|);
    }
  }

  lemma LongestMeans(text: seq<bv8>)
    ensures LongestText(text) == if AreDigits(text) then 7089 else if AreLetters(text) then 4296 else 2953
  {
    hide AreDigits, AreLetters;
  }

  lemma LengthLimit(mode: Mode, n: nat)
    requires mode == Numeric || mode == Alphanumeric || mode == ByteMode
    ensures n < Pow2(mode.NumCharCountBits(40)) && FramedBits(mode, n, 40) <= 8 * 2956 <==>
            n <= (match mode case Numeric => 7089 case Alphanumeric => 4296 case _ => 2953)
  {
    hide Pow2;
    Powers();
  }

  /** A text that does not fit version 40 at level Low fits no symbol. */
  lemma NoLongerText(text: seq<bv8>, ver: nat, ecl: Ecc)
    requires 1 <= ver <= 40 && TextFits(text, ver, ecl)
    ensures |text| <= LongestText(text) <= 7089
  {
    hide Spells, SegmentsFor, AreDigits, AreLetters, FitsIn, FramedBits, NumDataCodewords, TextFits, LongestText, Pow2,
      Mode.NumCharCountBits;
    LongestMeans(text);
    if text != [] {
      TextFitsMeans(text, ver, ecl);
      Chosen(text);
      OneFits(SegmentsFor(text)[0], text, ver, ecl);
      LargestCapacity(ecl, ver);
      AnyLimit(SegmentsFor(text)[0].mode, |text|, ver);
    }
  }

  lemma AnyLimit(mode: Mode, n: nat, ver: nat)
    requires 1 <= ver <= 40 && (mode == Numeric || mode == Alphanumeric || mode == ByteMode)
    requires n < Pow2(mode.NumCharCountBits(ver)) && FramedBits(mode, n, ver) <= 8 * 2956
    ensures n <= (match mode case Numeric => 7089 case Alphanumeric => 4296 case _ => 2953)
  {
    hide Pow2;
    Powers();
  }

  /** Every text of up to 2953 bytes can be encoded at level Low. */
  lemma GuaranteedLength(text: seq<bv8>)
    requires |text| <= 2953
    ensures TextFits(text, 40, Low)
  {
    hide TextFits, LongestText;
    LargestTexts(text);
    LongestMeans(text);
  }
}
