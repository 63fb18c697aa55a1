/** The characters behind the numbers in digit, letter and kanji segments. */
module Characters {
  import opened BitStrings
  import opened Payload
  import opened SegmentStream

  // ----- digits and letters

  const SIGNS := " $%*+-./:"

  /** The character with value k in the alphanumeric mode (table 5 of ISO/IEC 18004): first the digits, then the
      capital letters, then nine signs. */
  function Alphanumeric(k: nat): char
    requires k < 45
  {
    if k < 10 then ('0' as int + k) as char
    else if k < 36 then ('A' as int + k - 10) as char
    else SIGNS[k - 36]
  }

  lemma LetterOf(k: nat)
    requires k < 45
    ensures AlphaChar(k) as int == Alphanumeric(k) as int
  {}

  lemma DigitIs(k: nat)
    requires k < 10
    ensures DigitChar(k) as int == Alphanumeric(k) as int
  {}

  /** A letter is encoded as its place among these characters, of which no two are equal. */
  lemma LetterIsPlace(c: bv8)
    ensures IsAlpha(c) <==> exists k: nat :: k < 45 && Alphanumeric(k) as int == c as int
    ensures forall k: nat | k < 45 && Alphanumeric(k) as int == c as int :: AlphaIndex(c) == k
  {
    hide Alphanumeric, AlphaChar, AlphaIndexFrom;
    forall k: nat | k < 45 ensures AlphaChar(k) as int == Alphanumeric(k) as int {
      LetterOf(k);
    }
    Distinct();
    SameCode(c);
  }

  lemma SameCode(c: bv8)
    ensures forall k: nat | k < 45 :: AlphaChar(k) == c <==> AlphaChar(k) as int == c as int
  {
    hide AlphaChar;
  }

  lemma Distinct()
    ensures forall j: nat, k: nat | j < k < 45 :: Alphanumeric(j) != Alphanumeric(k)
  {}

  // ----- kanji

  /** The two-byte codes of Shift JIS that a kanji segment can hold. */
  predicate IsKanji(w: nat) {
    (0x8140 <= w <= 0x9FFC || 0xE040 <= w <= 0xEBBF) && 0x40 <= w % 256 <= 0xFC
  }

  /** The 13-bit value of a kanji (section 7.4.6 of ISO/IEC 18004). */
  function KanjiValue(w: nat): nat
    requires IsKanji(w)
  {
    var d := w - (if w <= 0x9FFC then 0x8140 else 0xC140);
    d / 256 * 0xC0 + d % 256
  }

  /** Every kanji is decoded from its value. */
  lemma KanjiBack(w: nat)
    requires IsKanji(w)
    ensures KanjiValue(w) < 8192 && KanjiWord(KanjiValue(w)) == w
  {
    var d := w - (if w <= 0x9FFC then 0x8140 else 0xC140);
    assert d % 256 == w % 256 - 0x40;
    Split(d / 256, d % 256);
  }

  lemma Split(q: nat, r: nat)
    requires r < 0xC0
    ensures (q * 0xC0 + r) / 0xC0 == q && (q * 0xC0 + r) % 0xC0 == r
  {}

  function KanjiBits(words: seq<nat>): seq<bool>
    requires forall i | 0 <= i < |words| :: IsKanji(words[i])
  {
    if words == [] then [] else BitsOf(KanjiValue(words[0]), 13) + KanjiBits(words[1..])
  }

  function KanjiBytes(words: seq<nat>): seq<bv8> {
    if words == [] then [] else [ToByte(words[0] / 256), ToByte(words[0])] + KanjiBytes(words[1..])
  }

  /** A row of kanji is read back from their values in 13 bits each, as two bytes each. */
  lemma {:induction false} KanjiRead(words: seq<nat>, rest: seq<bool>)
    requires forall i | 0 <= i < |words| :: IsKanji(words[i])
    ensures |KanjiBits(words)| == 13 * |words|
    ensures KanjiChars(KanjiBits(words) + rest, |words|) == KanjiBytes(words)
    ensures (KanjiBits(words) + rest)[13 * |words|..] == rest
    decreases |words|
  {
    hide BitsOf, ValueOf, Pow2, KanjiValue, KanjiWord, IsKanji, ToByte;
    if words != [] {
      var first, others := BitsOf(KanjiValue(words[0]), 13), KanjiBits(words[1..]);
      KanjiRead(words[1..], rest);
      KanjiBack(words[0]);
      Powers();
      TakeField(KanjiValue(words[0]), 13, others + rest);
      assert KanjiBits(words) + rest == first + (others + rest);
      assert (first + (others + rest))[13 * |words|..] == (others + rest)[13 * |words[1..]|..];
    }
  }
}
