/** The decoder's reading of the data bits: segments of digits, letters, bytes and kanji. */
module Payload {
  import opened BitStrings
  import opened Results

  datatype Result<T> = Ok(value: T) | Err(error: DecodeError)

  predicate IsDataError(e: DecodeError) {
    e == DataOverflow || e == DataUnderflow
  }

  /** What is left of the bits, and what has been decoded so far. */
  datatype State = State(bits: seq<bool>, payload: seq<bv8>, dataType: nat, eci: nat)

  function Fewer(a: nat, b: nat): nat { if a < b then a else b }

  /** The value of the next len bits, or of all that are left. */
  function NextValue(bits: seq<bool>, len: nat): nat {
    ValueOf(bits[..Fewer(len, |bits|)])
  }

  function After(bits: seq<bool>, len: nat): (r: seq<bool>)
    ensures |r| <= |bits|
    ensures len > 0 && |bits| > 0 ==> |r| < |bits|
  {
    bits[Fewer(len, |bits|)..]
  }

  /** Three widths of a length field, by version. */
  function CountBits(version: nat, small: nat, medium: nat, large: nat): nat {
    if version < 10 then small else if version < 27 then medium else large
  }

  /** The lowest n digits of t. */
  function DigitChars(t: nat, n: nat): (s: seq<bv8>)
    ensures |s| == n
  {
    if n == 0 then [] else DigitChars(t / 10, n - 1) + [DigitChar(t % 10)]
  }

  function AlphaChars(t: nat, n: nat): (s: seq<bv8>)
    ensures |s| == n
  {
    if n == 0 then [] else AlphaChars(t / 45, n - 1) + [AlphaChar(t % 45)]
  }

  /** Decodes count digits, three to a group. */
  function Numerals(bits: seq<bool>, count: nat): (r: Result<(seq<bool>, seq<bv8>)>)
    ensures r.Ok? ==> |r.value.0| <= |bits| && |r.value.1| == count
    ensures r.Err? ==> IsDataError(r.error)
  {
    if count == 0 then Ok((bits, []))
    else
      var n := Fewer(count, 3);
      if |bits| < 3 * n + 1 then Err(DataUnderflow)
      else
        match Numerals(bits[3 * n + 1..], count - n)
        case Err(e) => Err(e)
        case Ok((rest, s)) => Ok((rest, DigitChars(ValueOf(bits[..3 * n + 1]), n) + s))
  }

  /** Decodes count letters, two to a group. */
  function Letters(bits: seq<bool>, count: nat): (r: Result<(seq<bool>, seq<bv8>)>)
    ensures r.Ok? ==> |r.value.0| <= |bits| && |r.value.1| == count
    ensures r.Err? ==> IsDataError(r.error)
  {
    if count == 0 then Ok((bits, []))
    else
      var n := Fewer(count, 2);
      if |bits| < 5 * n + 1 then Err(DataUnderflow)
      else
        match Letters(bits[5 * n + 1..], count - n)
        case Err(e) => Err(e)
        case Ok((rest, s)) => Ok((rest, AlphaChars(ValueOf(bits[..5 * n + 1]), n) + s))
  }

  function ByteChars(bits: seq<bool>, count: nat): (s: seq<bv8>)
    requires |bits| >= 8 * count
    ensures |s| == count
  {
    if count == 0 then [] else [ToByte(ValueOf(bits[..8]))] + ByteChars(bits[8..], count - 1)
  }

  /** The two bytes of a kanji of 13 bits. */
  function KanjiWord(d: nat): nat {
    var intermediate := d / 0xc0 * 256 + d % 0xc0;
    if intermediate + 0x8140 <= 0x9ffc then intermediate + 0x8140 else intermediate + 0xc140
  }

  function KanjiChars(bits: seq<bool>, count: nat): (s: seq<bv8>)
    requires |bits| >= 13 * count
    ensures |s| == 2 * count
  {
    if count == 0 then []
    else
      var w := KanjiWord(ValueOf(bits[..13]));
      [ToByte(w / 256), ToByte(w)] + KanjiChars(bits[13..], count - 1)
  }

  /** Appends what a segment decoded. */
  function Extend(st: State, decoded: Result<(seq<bool>, seq<bv8>)>): Result<State> {
    match decoded
    case Err(e) => Err(e)
    case Ok((rest, s)) => Ok(st.(bits := rest, payload := st.payload + s))
  }

  function DecodedNumeric(version: nat, st: State): (r: Result<State>)
    ensures r.Ok? ==> |r.value.bits| <= |st.bits| && |r.value.payload| < MAX_PAYLOAD
    ensures r.Err? ==> IsDataError(r.error)
  {
    var count := NextValue(st.bits, CountBits(version, 10, 12, 14));
    var rest := After(st.bits, CountBits(version, 10, 12, 14));
    if |st.payload| + count + 1 > MAX_PAYLOAD then Err(DataOverflow) else Extend(st, Numerals(rest, count))
  }

  function DecodedAlpha(version: nat, st: State): (r: Result<State>)
    ensures r.Ok? ==> |r.value.bits| <= |st.bits| && |r.value.payload| < MAX_PAYLOAD
    ensures r.Err? ==> IsDataError(r.error)
  {
    var count := NextValue(st.bits, CountBits(version, 9, 11, 13));
    var rest := After(st.bits, CountBits(version, 9, 11, 13));
    if |st.payload| + count + 1 > MAX_PAYLOAD then Err(DataOverflow) else Extend(st, Letters(rest, count))
  }

  function DecodedByte(version: nat, st: State): (r: Result<State>)
    ensures r.Ok? ==> |r.value.bits| <= |st.bits| && |r.value.payload| < MAX_PAYLOAD
    ensures r.Err? ==> IsDataError(r.error)
  {
    var count := NextValue(st.bits, CountBits(version, 8, 16, 16));
    var rest := After(st.bits, CountBits(version, 8, 16, 16));
    if |st.payload| + count + 1 > MAX_PAYLOAD then Err(DataOverflow)
    else if |rest| < 8 * count then Err(DataUnderflow)
    else Extend(st, Ok((rest[8 * count..], ByteChars(rest, count))))
  }

  function DecodedKanji(version: nat, st: State): (r: Result<State>)
    ensures r.Ok? ==> |r.value.bits| <= |st.bits| && |r.value.payload| < MAX_PAYLOAD
    ensures r.Err? ==> IsDataError(r.error)
  {
    var count := NextValue(st.bits, CountBits(version, 8, 10, 12));
    var rest := After(st.bits, CountBits(version, 8, 10, 12));
    if |st.payload| + 2 * count + 1 > MAX_PAYLOAD then Err(DataOverflow)
    else if |rest| < 13 * count then Err(DataUnderflow)
    else Extend(st, Ok((rest[13 * count..], KanjiChars(rest, count))))
  }

  /** One, two or three bytes, told apart by the first bits, which stay in the value. */
  function DecodedEci(st: State): (r: Result<State>)
    ensures r.Ok? ==> |r.value.bits| <= |st.bits| && r.value.payload == st.payload
    ensures r.Err? ==> IsDataError(r.error)
  {
    if |st.bits| < 8 then Err(DataUnderflow)
    else
      var first, rest := ValueOf(st.bits[..8]), st.bits[8..];
      if first / 64 == 2 then
        if |rest| < 8 then Err(DataUnderflow)
        else Ok(st.(bits := rest[8..], eci := first * 256 + ValueOf(rest[..8])))
      else if first / 32 == 6 then
        if |rest| < 16 then Err(DataUnderflow)
        else Ok(st.(bits := rest[16..], eci := first * 65536 + ValueOf(rest[..16])))
      else Ok(st.(bits := rest, eci := first))
  }

  /** Decodes one segment of the given type. */
  function DecodedSegment(version: nat, kind: nat, st: State): (r: Result<State>)
    requires |st.payload| < MAX_PAYLOAD
    ensures r.Ok? ==> |r.value.bits| <= |st.bits| && |r.value.payload| < MAX_PAYLOAD
    ensures r.Err? ==> IsDataError(r.error)
  {
    if kind == 1 then DecodedNumeric(version, st)
    else if kind == 2 then DecodedAlpha(version, st)
    else if kind == 4 then DecodedByte(version, st)
    else if kind == 8 then DecodedKanji(version, st)
    else DecodedEci(st)
  }

  predicate IsKind(kind: nat) {
    kind in {1, 2, 4, 7, 8}
  }

  /** The data type is the highest type seen that is a power of two. */
  function WithType(st: State, kind: nat): State {
    if kind != 7 && kind > st.dataType then st.(dataType := kind) else st
  }

  /** Decodes segments until fewer than four bits are left or an unknown type is met. */
  function Decoded(version: nat, st: State): (r: Result<State>)
    requires |st.payload| < MAX_PAYLOAD
    ensures r.Ok? ==> |r.value.payload| < MAX_PAYLOAD
    ensures r.Err? ==> IsDataError(r.error)
    decreases |st.bits|
  {
    if |st.bits| < 4 then Ok(st)
    else
      var kind := ValueOf(st.bits[..4]);
      if !IsKind(kind) then Ok(st.(bits := st.bits[4..]))
      else
        match DecodedSegment(version, kind, st.(bits := st.bits[4..]))
        case Err(e) => Err(e)
        case Ok(next) => Decoded(version, WithType(next, kind))
  }

  /** Puts decoded characters in front of what is decoded later. */
  ghost function Prepend(s: seq<bv8>, r: Result<(seq<bool>, seq<bv8>)>): Result<(seq<bool>, seq<bv8>)> {
    match r
    case Err(e) => Err(e)
    case Ok((rest, t)) => Ok((rest, s + t))
  }

  /** One group of n digits. */
  lemma NumeralsStep(bits: seq<bool>, count: nat, n: nat)
    requires n > 0 && n == Fewer(count, 3)
    ensures |bits| < 3 * n + 1 ==> Numerals(bits, count) == Err(DataUnderflow)
    ensures |bits| >= 3 * n + 1 ==>
              Numerals(bits, count) == Prepend(DigitChars(ValueOf(bits[..3 * n + 1]), n),
                  Numerals(bits[3 * n + 1..], count - n))
  {
    hide ValueOf, DigitChars;
  }

  lemma LettersStep(bits: seq<bool>, count: nat, n: nat)
    requires n > 0 && n == Fewer(count, 2)
    ensures |bits| < 5 * n + 1 ==> Letters(bits, count) == Err(DataUnderflow)
    ensures |bits| >= 5 * n + 1 ==>
              Letters(bits, count) == Prepend(AlphaChars(ValueOf(bits[..5 * n + 1]), n),
                  Letters(bits[5 * n + 1..], count - n))
  {
    hide ValueOf, AlphaChars;
  }

  /** One segment more. */
  lemma DecodedStep(version: nat, st: State)
    requires |st.payload| < MAX_PAYLOAD
    ensures |st.bits| < 4 ==> Decoded(version, st) == Ok(st)
    ensures |st.bits| >= 4 ==>
              var kind, rest := ValueOf(st.bits[..4]), st.(bits := st.bits[4..]);
              var r := DecodedSegment(version, kind, rest);
              && (!IsKind(kind) ==> Decoded(version, st) == Ok(rest))
              && (IsKind(kind) && r.Err? ==> Decoded(version, st) == Err(r.error))
              && (IsKind(kind) && r.Ok? ==>
                    && |r.value.bits| < |st.bits|
                    && Decoded(version, st) == Decoded(version, WithType(r.value, kind)))
  {
    hide DecodedSegment, ValueOf, IsKind;
  }
}
