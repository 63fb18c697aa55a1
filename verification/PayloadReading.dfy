/** The decoder's methods that read the data bits, proved against the specification. */
module PayloadReading {
  import opened Bytes
  import opened BitStrings
  import opened Results
  import opened Codestream
  import opened Payload

  ghost predicate Ready(data: QuircData, ds: DataStream)
    reads data, ds
  {
    && data.Valid() && ds.Valid() && data.payload != ds.data
    && ds.ptr <= ds.dataBits <= 8 * MAX_PAYLOAD && data.payloadLen < MAX_PAYLOAD
  }

  /** The bits not yet taken. */
  ghost function Remaining(ds: DataStream): (b: seq<bool>)
    requires ds.ptr <= ds.dataBits <= 8 * ds.data.Length
    reads ds, ds.data
    ensures |b| == ds.dataBits - ds.ptr
  {
    Bits(ds.data[..])[ds.ptr..ds.dataBits]
  }

  ghost function StateOf(data: QuircData, ds: DataStream): State
    requires Ready(data, ds)
    reads data, ds, ds.data, data.payload
  {
    State(Remaining(ds), data.payload[..data.payloadLen], data.dataType, data.eci)
  }

  /** The outcome and state are as specified. */
  ghost predicate Matches(outcome: DecodeError, st: State, spec: Result<State>) {
    match spec
    case Ok(v) => outcome == Success && st == v
    case Err(e) => outcome == e
  }

  lemma OneMoreBit(b: seq<bool>, n: nat)
    requires n < |b|
    ensures ValueOf(b[..n + 1]) == 2 * ValueOf(b[..n]) + (if b[n] then 1 else 0)
  {
    assert b[..n + 1][..n] == b[..n];
  }

  /** Takes up to len bits. */
  method TakeBits(ds: DataStream, len: nat) returns (ret: nat)
    requires ds.ptr <= ds.dataBits <= 8 * ds.data.Length
    modifies ds`ptr
    ensures old(ds.ptr) <= ds.ptr <= ds.dataBits
    ensures ret == NextValue(old(Remaining(ds)), len) && Remaining(ds) == After(old(Remaining(ds)), len)
  {
    hide BitAt, ValueOf, Bits;
    ghost var start, all, contents := ds.ptr, Remaining(ds), ds.data[..];
    ret := 0;
    var left := len;
    EmptyValue(all);
    while left > 0 && ds.ptr < ds.dataBits
      invariant 0 <= left <= len && ds.ptr == start + (len - left) <= ds.dataBits
      invariant ret == ValueOf(all[..len - left]) && ds.data[..] == contents
    {
      var b := ds.data[ds.ptr / 8];
      var bitpos := ds.ptr % 8;
      OneMoreBit(all, len - left);
      BitTaken(contents, start, ds.dataBits, len - left);
      ret := ret * 2;
      if BitAt(b, bitpos) {
        ret := ret + 1;
      }
      ds.ptr := ds.ptr + 1;
      left := left - 1;
    }
    assert len - left == Fewer(len, |all|);
    RestTaken(Bits(contents), start, ds.dataBits, len - left);
  }

  lemma BitTaken(contents: seq<bv8>, start: nat, end: nat, k: nat)
    requires start + k < end <= 8 * |contents|
    ensures Bits(contents)[start..end][k] == BitAt(contents[(start + k) / 8], (start + k) % 8)
  {
    hide BitAt;
  }

  lemma RestTaken(b: seq<bool>, start: nat, end: nat, k: nat)
    requires start + k <= end <= |b|
    ensures b[start..end][k..] == b[start + k..end]
  {}

  lemma EmptyValue(b: seq<bool>)
    ensures ValueOf(b[..0]) == 0
  {}

  /** Writes the lowest digits of tuple behind the payload, the last one first. */
  method WriteDigits(data: QuircData, tuple: nat, digits: nat)
    requires data.Valid() && data.payloadLen + digits <= MAX_PAYLOAD
    modifies data`payloadLen, data.payload
    ensures data.payloadLen == old(data.payloadLen) + digits
    ensures data.payload[..data.payloadLen] == old(data.payload[..data.payloadLen]) + DigitChars(tuple, digits)
  {
    hide DigitChar;
    ghost var before, all := data.payload[..data.payloadLen], DigitChars(tuple, digits);
    var rest, i := tuple, digits;
    while i > 0
      invariant 0 <= i <= digits && data.payloadLen == |before| && data.payload[..|before|] == before
      invariant all[..i] == DigitChars(rest, i)
      invariant forall k | i <= k < digits :: data.payload[|before| + k] == all[k]
    {
      i := i - 1;
      LastDigit(all[..i + 1], rest, i);
      data.payload[data.payloadLen + i] := DigitChar(rest % 10);
      rest := rest / 10;
    }
    data.payloadLen := data.payloadLen + digits;
  }

  lemma LastDigit(s: seq<bv8>, t: nat, n: nat)
    requires s == DigitChars(t, n + 1)
    ensures s[n] == DigitChar(t % 10) && s[..n] == DigitChars(t / 10, n)
  {
    hide DigitChar;
  }

  method WriteLetters(data: QuircData, tuple: nat, digits: nat)
    requires data.Valid() && data.payloadLen + digits <= MAX_PAYLOAD
    modifies data`payloadLen, data.payload
    ensures data.payloadLen == old(data.payloadLen) + digits
    ensures data.payload[..data.payloadLen] == old(data.payload[..data.payloadLen]) + AlphaChars(tuple, digits)
  {
    hide AlphaChar;
    ghost var before, all := data.payload[..data.payloadLen], AlphaChars(tuple, digits);
    var rest := tuple;
    for i := 0 to digits
      invariant data.payloadLen == |before| && data.payload[..|before|] == before
      invariant all[..digits - i] == AlphaChars(rest, digits - i)
      invariant forall k | digits - i <= k < digits :: data.payload[|before| + k] == all[k]
    {
      LastLetter(all[..digits - i], rest, digits - i - 1);
      data.payload[data.payloadLen + digits - i - 1] := AlphaChar(rest % 45);
      rest := rest / 45;
    }
    data.payloadLen := data.payloadLen + digits;
  }

  lemma LastLetter(s: seq<bv8>, t: nat, n: nat)
    requires s == AlphaChars(t, n + 1)
    ensures s[n] == AlphaChar(t % 45) && s[..n] == AlphaChars(t / 45, n)
  {
    hide AlphaChar;
  }

  method NumericTuple(data: QuircData, ds: DataStream, bits: nat, digits: nat) returns (ok: bool)
    requires Ready(data, ds) && data.payloadLen + digits < MAX_PAYLOAD
    modifies ds`ptr, data`payloadLen, data.payload
    ensures Ready(data, ds) && ok == (old(|Remaining(ds)|) >= bits)
    ensures ok ==> Remaining(ds) == old(Remaining(ds))[bits..]
    ensures ok ==> data.payloadLen == old(data.payloadLen) + digits
    ensures ok ==> data.payload[..data.payloadLen] ==
                   old(data.payload[..data.payloadLen]) + DigitChars(ValueOf(old(Remaining(ds))[..bits]), digits)
  {
    hide ValueOf, Bits, Remaining, DigitChars;
    if ds.dataBits - ds.ptr < bits {
      return false;
    }
    var tuple := TakeBits(ds, bits);
    assert Ready(data, ds);
    WriteDigits(data, tuple, digits);
    return true;
  }

  method AlphaTuple(data: QuircData, ds: DataStream, bits: nat, digits: nat) returns (ok: bool)
    requires Ready(data, ds) && data.payloadLen + digits < MAX_PAYLOAD
    modifies ds`ptr, data`payloadLen, data.payload
    ensures Ready(data, ds) && ok == (old(|Remaining(ds)|) >= bits)
    ensures ok ==> Remaining(ds) == old(Remaining(ds))[bits..]
    ensures ok ==> data.payloadLen == old(data.payloadLen) + digits
    ensures ok ==> data.payload[..data.payloadLen] ==
                   old(data.payload[..data.payloadLen]) + AlphaChars(ValueOf(old(Remaining(ds))[..bits]), digits)
  {
    hide ValueOf, Bits, Remaining, AlphaChars;
    if ds.dataBits - ds.ptr < bits {
      return false;
    }
    var tuple := TakeBits(ds, bits);
    assert Ready(data, ds);
    WriteLetters(data, tuple, digits);
    return true;
  }

  lemma PrependNothing(r: Result<(seq<bool>, seq<bv8>)>)
    ensures Prepend([], r) == r
  {
    if r.Ok? {
      assert [] + r.value.1 == r.value.1;
    }
  }

  lemma PrependTwice(s: seq<bv8>, t: seq<bv8>, r: Result<(seq<bool>, seq<bv8>)>)
    ensures Prepend(s, Prepend(t, r)) == Prepend(s + t, r)
  {
    if r.Ok? {
      assert s + (t + r.value.1) == s + t + r.value.1;
    }
  }

  /** With s decoded so far and the rest to come, all will be decoded after the state st. */
  ghost predicate Partway(s: seq<bv8>, st: State, all: Result<(seq<bool>, seq<bv8>)>,
      rest: Result<(seq<bool>, seq<bv8>)>) {
    st.payload <= s && all == Prepend(s[|st.payload|..], rest)
  }

  lemma GroupDone(s: seq<bv8>, st: State, all: Result<(seq<bool>, seq<bv8>)>, group: seq<bv8>,
      rest: Result<(seq<bool>, seq<bv8>)>)
    requires Partway(s, st, all, Prepend(group, rest))
    ensures Partway(s + group, st, all, rest)
  {
    hide Prepend;
    PrependTwice(s[|st.payload|..], group, rest);
    assert (s + group)[|st.payload|..] == s[|st.payload|..] + group;
  }

  lemma NothingDone(st: State, all: Result<(seq<bool>, seq<bv8>)>)
    ensures Partway(st.payload, st, all, all)
  {
    PrependNothing(all);
    assert st.payload[|st.payload|..] == [];
  }

  lemma AllDone(s: seq<bv8>, st: State, all: Result<(seq<bool>, seq<bv8>)>, rest: seq<bool>)
    requires Partway(s, st, all, Ok((rest, [])))
    ensures all == Ok((rest, s[|st.payload|..])) && s == st.payload + s[|st.payload|..]
  {
    assert s[|st.payload|..] + [] == s[|st.payload|..];
  }

  lemma Underflow(s: seq<bv8>, st: State, all: Result<(seq<bool>, seq<bv8>)>)
    requires Partway(s, st, all, Err(DataUnderflow))
    ensures all == Err(DataUnderflow)
  {}

  lemma NoneLeft(bits: seq<bool>)
    ensures Numerals(bits, 0) == Ok((bits, [])) && Letters(bits, 0) == Ok((bits, []))
  {}

  /** Reads count digits, in groups of three, two or one. */
  method ReadNumerals(data: QuircData, ds: DataStream, n: nat) returns (outcome: DecodeError)
    requires Ready(data, ds) && data.payloadLen + n < MAX_PAYLOAD
    modifies ds`ptr, data`payloadLen, data.payload
    ensures Ready(data, ds)
    ensures Matches(outcome, StateOf(data, ds), Extend(old(StateOf(data, ds)), Numerals(old(Remaining(ds)), n)))
  {
    hide ValueOf, Bits, Remaining, Numerals, DigitChars, Prepend, Partway;
    ghost var st := StateOf(data, ds);
    var count := n;
    ghost var all := Numerals(Remaining(ds), count);
    NothingDone(st, all);
    while count >= 3
      invariant Ready(data, ds) && 0 <= count && data.payloadLen + count < MAX_PAYLOAD
      invariant Partway(data.payload[..data.payloadLen], st, all, Numerals(Remaining(ds), count))
    {
      ghost var b, s := Remaining(ds), data.payload[..data.payloadLen];
      NumeralsStep(b, count, 3);
      var ok := NumericTuple(data, ds, 10, 3);
      if !ok {
        Underflow(s, st, all);
        return DataUnderflow;
      }
      GroupDone(s, st, all, DigitChars(ValueOf(b[..10]), 3), Numerals(b[10..], count - 3));
      count := count - 3;
    }
    ghost var b, s := Remaining(ds), data.payload[..data.payloadLen];
    if count >= 2 {
      NumeralsStep(b, count, 2);
      var ok := NumericTuple(data, ds, 7, 2);
      if !ok {
        Underflow(s, st, all);
        return DataUnderflow;
      }
      GroupDone(s, st, all, DigitChars(ValueOf(b[..7]), 2), Numerals(b[7..], 0));
      count := count - 2;
    }
    if count > 0 {
      NumeralsStep(b, count, 1);
      var ok := NumericTuple(data, ds, 4, 1);
      if !ok {
        Underflow(s, st, all);
        return DataUnderflow;
      }
      GroupDone(s, st, all, DigitChars(ValueOf(b[..4]), 1), Numerals(b[4..], 0));
      count := count - 1;
    }
    NoneLeft(Remaining(ds));
    AllDone(data.payload[..data.payloadLen], st, all, Remaining(ds));
    return Success;
  }

  method DecodeNumeric(data: QuircData, ds: DataStream, version: nat) returns (outcome: DecodeError)
    requires Ready(data, ds)
    modifies ds`ptr, data`payloadLen, data.payload
    ensures Ready(data, ds)
    ensures Matches(outcome, StateOf(data, ds), DecodedNumeric(version, old(StateOf(data, ds))))
  {
    hide ValueOf, Bits, Remaining, Numerals, NextValue, After;
    var bits := 14;
    if version < 10 {
      bits := 10;
    } else if version < 27 {
      bits := 12;
    }
    var count := TakeBits(ds, bits);
    assert Ready(data, ds);
    if data.payloadLen + count + 1 > MAX_PAYLOAD {
      return DataOverflow;
    }
    outcome := ReadNumerals(data, ds, count);
  }

  /** Reads count letters, in groups of two or one. */
  method ReadLetters(data: QuircData, ds: DataStream, n: nat) returns (outcome: DecodeError)
    requires Ready(data, ds) && data.payloadLen + n < MAX_PAYLOAD
    modifies ds`ptr, data`payloadLen, data.payload
    ensures Ready(data, ds)
    ensures Matches(outcome, StateOf(data, ds), Extend(old(StateOf(data, ds)), Letters(old(Remaining(ds)), n)))
  {
    hide ValueOf, Bits, Remaining, Letters, AlphaChars, Prepend, Partway;
    ghost var st := StateOf(data, ds);
    var count := n;
    ghost var all := Letters(Remaining(ds), count);
    NothingDone(st, all);
    while count >= 2
      invariant Ready(data, ds) && 0 <= count && data.payloadLen + count < MAX_PAYLOAD
      invariant Partway(data.payload[..data.payloadLen], st, all, Letters(Remaining(ds), count))
    {
      ghost var b, s := Remaining(ds), data.payload[..data.payloadLen];
      LettersStep(b, count, 2);
      var ok := AlphaTuple(data, ds, 11, 2);
      if !ok {
        Underflow(s, st, all);
        return DataUnderflow;
      }
      GroupDone(s, st, all, AlphaChars(ValueOf(b[..11]), 2), Letters(b[11..], count - 2));
      count := count - 2;
    }
    if count > 0 {
      ghost var b, s := Remaining(ds), data.payload[..data.payloadLen];
      LettersStep(b, count, 1);
      var ok := AlphaTuple(data, ds, 6, 1);
      if !ok {
        Underflow(s, st, all);
        return DataUnderflow;
      }
      GroupDone(s, st, all, AlphaChars(ValueOf(b[..6]), 1), Letters(b[6..], 0));
      count := count - 1;
    }
    NoneLeft(Remaining(ds));
    AllDone(data.payload[..data.payloadLen], st, all, Remaining(ds));
    return Success;
  }

  method DecodeAlpha(data: QuircData, ds: DataStream, version: nat) returns (outcome: DecodeError)
    requires Ready(data, ds)
    modifies ds`ptr, data`payloadLen, data.payload
    ensures Ready(data, ds)
    ensures Matches(outcome, StateOf(data, ds), DecodedAlpha(version, old(StateOf(data, ds))))
  {
    hide ValueOf, Bits, Remaining, Letters, NextValue, After;
    var bits := 13;
    if version < 10 {
      bits := 9;
    } else if version < 27 {
      bits := 11;
    }
    var count := TakeBits(ds, bits);
    assert Ready(data, ds);
    if data.payloadLen + count + 1 > MAX_PAYLOAD {
      return DataOverflow;
    }
    outcome := ReadLetters(data, ds, count);
  }

  method PutByte(data: QuircData, b: bv8)
    requires data.Valid() && data.payloadLen < MAX_PAYLOAD
    modifies data`payloadLen, data.payload
    ensures data.payloadLen == old(data.payloadLen) + 1
    ensures data.payload[..data.payloadLen] == old(data.payload[..data.payloadLen]) + [b]
  {
    data.payload[data.payloadLen] := b;
    data.payloadLen := data.payloadLen + 1;
  }

  lemma TwoMore(s: seq<bv8>, a: bv8, b: bv8)
    ensures s + [a] + [b] == s + [a, b]
  {}

  method DecodeByte(data: QuircData, ds: DataStream, version: nat) returns (outcome: DecodeError)
    requires Ready(data, ds)
    modifies ds`ptr, data`payloadLen, data.payload
    ensures Ready(data, ds)
    ensures Matches(outcome, StateOf(data, ds), DecodedByte(version, old(StateOf(data, ds))))
  {
    hide ValueOf, Bits, Remaining, ByteChars, ToByte;
    ghost var st := StateOf(data, ds);
    var bits := 16;
    if version < 10 {
      bits := 8;
    }
    var count := TakeBits(ds, bits);
    assert Ready(data, ds);
    if data.payloadLen + count + 1 > MAX_PAYLOAD {
      return DataOverflow;
    }
    if ds.dataBits - ds.ptr < count * 8 {
      return DataUnderflow;
    }
    ghost var rest, all := Remaining(ds), st.payload + ByteChars(Remaining(ds), count);
    for i := 0 to count
      invariant Ready(data, ds) && data.payloadLen == |st.payload| + i && Remaining(ds) == rest[8 * i..]
      invariant all == data.payload[..data.payloadLen] + ByteChars(Remaining(ds), count - i)
    {
      ghost var b, done := Remaining(ds), data.payload[..data.payloadLen];
      ByteCharsStep(done, b, count - i);
      DropOne(rest, 8, i);
      OneByte(data, ds);
    }
    NoBytes(Remaining(ds), data.payload[..data.payloadLen]);
    return Success;
  }

  method OneByte(data: QuircData, ds: DataStream)
    requires Ready(data, ds) && data.payloadLen + 1 < MAX_PAYLOAD && |Remaining(ds)| >= 8
    modifies ds`ptr, data`payloadLen, data.payload
    ensures Ready(data, ds) && Remaining(ds) == old(Remaining(ds))[8..]
    ensures data.payloadLen == old(data.payloadLen) + 1
    ensures data.payload[..data.payloadLen] ==
            old(data.payload[..data.payloadLen]) + [ToByte(ValueOf(old(Remaining(ds))[..8]))]
  {
    hide ValueOf, Bits, Remaining, ToByte;
    var v := TakeBits(ds, 8);
    PutByte(data, ToByte(v));
  }

  lemma DropOne(b: seq<bool>, n: nat, i: nat)
    requires n * i + n <= |b|
    ensures n * i <= |b| && n * (i + 1) <= |b| && b[n * i..][n..] == b[n * (i + 1)..]
  {
    assert n * (i + 1) == n * i + n;
  }

  lemma NoBytes(bits: seq<bool>, s: seq<bv8>)
    ensures s + ByteChars(bits, 0) == s && s + KanjiChars(bits, 0) == s
  {}

  lemma ByteCharsStep(s: seq<bv8>, b: seq<bool>, count: nat)
    requires count > 0 && |b| >= 8 * count
    ensures s + ByteChars(b, count) == s + [ToByte(ValueOf(b[..8]))] + ByteChars(b[8..], count - 1)
  {
    hide ToByte, ValueOf;
  }

  method DecodeKanji(data: QuircData, ds: DataStream, version: nat) returns (outcome: DecodeError)
    requires Ready(data, ds)
    modifies ds`ptr, data`payloadLen, data.payload
    ensures Ready(data, ds)
    ensures Matches(outcome, StateOf(data, ds), DecodedKanji(version, old(StateOf(data, ds))))
  {
    hide ValueOf, Bits, Remaining, KanjiChars, ToByte, KanjiWord;
    ghost var st := StateOf(data, ds);
    var bits := 12;
    if version < 10 {
      bits := 8;
    } else if version < 27 {
      bits := 10;
    }
    var count := TakeBits(ds, bits);
    assert Ready(data, ds);
    if data.payloadLen + count * 2 + 1 > MAX_PAYLOAD {
      return DataOverflow;
    }
    if ds.dataBits - ds.ptr < count * 13 {
      return DataUnderflow;
    }
    ReadKanji(data, ds, count);
    return Success;
  }

  method ReadKanji(data: QuircData, ds: DataStream, count: nat)
    requires Ready(data, ds) && data.payloadLen + 2 * count < MAX_PAYLOAD && |Remaining(ds)| >= 13 * count
    modifies ds`ptr, data`payloadLen, data.payload
    ensures Ready(data, ds) && Remaining(ds) == old(Remaining(ds))[13 * count..]
    ensures data.payloadLen == old(data.payloadLen) + 2 * count
    ensures data.payload[..data.payloadLen] ==
            old(data.payload[..data.payloadLen]) + KanjiChars(old(Remaining(ds)), count)
  {
    hide ValueOf, Bits, Remaining, KanjiChars, ToByte, KanjiWord;
    ghost var start, rest := data.payloadLen, Remaining(ds);
    ghost var all := data.payload[..data.payloadLen] + KanjiChars(rest, count);
    for i := 0 to count
      invariant Ready(data, ds) && data.payloadLen == start + 2 * i && Remaining(ds) == rest[13 * i..]
      invariant all == data.payload[..data.payloadLen] + KanjiChars(Remaining(ds), count - i)
    {
      ghost var b, done := Remaining(ds), data.payload[..data.payloadLen];
      KanjiCharsStep(done, b, count - i);
      DropOne(rest, 13, i);
      OneKanji(data, ds);
    }
    NoBytes(Remaining(ds), data.payload[..data.payloadLen]);
  }

  method OneKanji(data: QuircData, ds: DataStream)
    requires Ready(data, ds) && data.payloadLen + 2 < MAX_PAYLOAD && |Remaining(ds)| >= 13
    modifies ds`ptr, data`payloadLen, data.payload
    ensures Ready(data, ds) && Remaining(ds) == old(Remaining(ds))[13..]
    ensures data.payloadLen == old(data.payloadLen) + 2
    ensures var w := KanjiWord(ValueOf(old(Remaining(ds))[..13]));
            data.payload[..data.payloadLen] == old(data.payload[..data.payloadLen]) + [ToByte(w / 256), ToByte(w)]
  {
    hide ValueOf, Bits, Remaining, ToByte, KanjiWord;
    ghost var done := data.payload[..data.payloadLen];
    var d := TakeBits(ds, 13);
    var sjw := KanjiWord(d);
    PutByte(data, ToByte(sjw / 256));
    PutByte(data, ToByte(sjw));
    TwoMore(done, ToByte(sjw / 256), ToByte(sjw));
  }

  lemma KanjiCharsStep(s: seq<bv8>, b: seq<bool>, count: nat)
    requires count > 0 && |b| >= 13 * count
    ensures var w := KanjiWord(ValueOf(b[..13]));
            s + KanjiChars(b, count) == s + [ToByte(w / 256), ToByte(w)] + KanjiChars(b[13..], count - 1)
  {
    hide ToByte, ValueOf, KanjiWord;
  }

  method DecodeEci(data: QuircData, ds: DataStream) returns (outcome: DecodeError)
    requires Ready(data, ds)
    modifies ds`ptr, data`eci
    ensures Ready(data, ds)
    ensures Matches(outcome, StateOf(data, ds), DecodedEci(old(StateOf(data, ds))))
  {
    hide ValueOf, Bits;
    if ds.dataBits - ds.ptr < 8 {
      return DataUnderflow;
    }
    var first := TakeBits(ds, 8);
    data.eci := first;
    if first / 64 == 2 {
      if ds.dataBits - ds.ptr < 8 {
        return DataUnderflow;
      }
      var second := TakeBits(ds, 8);
      data.eci := data.eci * 256 + second;
    } else if first / 32 == 6 {
      if ds.dataBits - ds.ptr < 16 {
        return DataUnderflow;
      }
      var second := TakeBits(ds, 16);
      data.eci := data.eci * 65536 + second;
    }
    return Success;
  }

  // ----- the whole payload

  method DecodeSegment(data: QuircData, ds: DataStream, version: nat, kind: nat) returns (outcome: DecodeError)
    requires Ready(data, ds) && IsKind(kind)
    modifies ds`ptr, data`payloadLen, data`eci, data.payload
    ensures Ready(data, ds)
    ensures Matches(outcome, StateOf(data, ds), DecodedSegment(version, kind, old(StateOf(data, ds))))
  {
    hide DecodedNumeric, DecodedAlpha, DecodedByte, DecodedKanji, DecodedEci, Matches, Remaining;
    match kind {
      case 1 => outcome := DecodeNumeric(data, ds, version);
      case 2 => outcome := DecodeAlpha(data, ds, version);
      case 4 => outcome := DecodeByte(data, ds, version);
      case 8 => outcome := DecodeKanji(data, ds, version);
      case _ => outcome := DecodeEci(data, ds);
    }
  }

  /** Outcome and state are those of decoding from the state before. */
  ghost predicate IsDecoded(outcome: DecodeError, st: State, version: int, before: State) {
    version >= 0 && |before.payload| < MAX_PAYLOAD && Matches(outcome, st, Decoded(version, before))
  }

  /** Decodes all segments and ends the payload with a zero byte. */
  method DecodePayload(data: QuircData, ds: DataStream) returns (outcome: DecodeError)
    requires Ready(data, ds) && data.version >= 0
    modifies ds`ptr, data`payloadLen, data`eci, data`dataType, data.payload
    ensures Ready(data, ds)
    ensures IsDecoded(outcome, StateOf(data, ds), data.version, old(StateOf(data, ds)))
    ensures outcome == Success ==> data.payload[data.payloadLen] == 0
  {
    hide Decoded, DecodedSegment, ValueOf, Remaining, IsKind;
    ghost var spec := Decoded(data.version, StateOf(data, ds));
    while ds.dataBits - ds.ptr >= 4
      invariant Ready(data, ds) && Decoded(data.version, StateOf(data, ds)) == spec
      decreases ds.dataBits - ds.ptr
    {
      ghost var before := StateOf(data, ds);
      DecodedStep(data.version, before);
      var kind := TakeBits(ds, 4);
      assert StateOf(data, ds) == before.(bits := before.bits[4..]) && kind == ValueOf(before.bits[..4]);
      if !IsKind(kind) {
        Finish(data, ds);
        return Success;
      }
      var err := DecodeSegment(data, ds, data.version, kind);
      if err != Success {
        return err;
      }
      ghost var next := StateOf(data, ds);
      if kind != 7 && kind > data.dataType {
        data.dataType := kind;
      }
      assert StateOf(data, ds) == WithType(next, kind);
    }
    DecodedStep(data.version, StateOf(data, ds));
    Finish(data, ds);
    return Success;
  }

  /** Adds the terminating zero byte. There is always room: the payload never fills the buffer. */
  method Finish(data: QuircData, ds: DataStream)
    requires Ready(data, ds)
    modifies data.payload
    ensures Ready(data, ds) && StateOf(data, ds) == old(StateOf(data, ds)) && data.payload[data.payloadLen] == 0
  {
    hide Remaining;
    if data.payloadLen >= MAX_PAYLOAD {
      assert false;
    }
    data.payload[data.payloadLen] := 0;
  }
}
