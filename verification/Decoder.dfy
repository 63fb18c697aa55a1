/** The decoder: from a sampled code to its payload. */
module Decoder {
  import opened Versions
  import opened Grids
  import opened CellBitmap
  import opened FunctionCells
  import opened Bytes
  import opened Results
  import opened Layouts
  import opened Codestream
  import opened FormatReading
  import opened DataReading
  import opened Payload
  import opened PayloadReading

  /** The grid can be read as a symbol of the given version, level and mask that holds the data string:
      its format is read as such, and every block is close enough, whatever follows the codewords. */
  ghost predicate IsReadable(g: Grid, version: nat, ecl: Ecc, msk: nat, data: seq<bv8>)
    requires 1 <= version <= 40 && msk < 8
  {
    HoldsData(DecoderLayout(ecl.FormatBits(), version), g, version, msk, data)
        && ReadsFormat(g, Size(version), ecl, msk)
  }

  /** The blocks of the data, or near enough to them, are read from the grid. */
  ghost predicate HoldsData(l: Layout, g: Grid, version: nat, msk: nat, data: seq<bv8>)
    requires 1 <= version <= 40
  {
    l.Valid() && exists blocks :: IsDataOf(l, blocks, data) && AlwaysNear(l, g, version, msk, blocks)
  }

  ghost predicate IsDataOf(l: Layout, blocks: seq<seq<bv8>>, data: seq<bv8>)
    requires l.Valid()
  {
    && |blocks| == l.nb && (forall k | 0 <= k < |blocks| :: |blocks[k]| == l.BlockLen(k))
    && DataOf(l, blocks, |blocks|) == data
  }

  ghost predicate AlwaysNear(l: Layout, g: Grid, version: nat, msk: nat, blocks: seq<seq<bv8>>)
    requires 1 <= version <= 40 && l.Valid()
  {
    forall raw: seq<bv8> | |raw| == MAX_PAYLOAD && HasRead(raw, g, msk, DecoderPath(version), |DecoderPath(version)|) ::
      Codestream.Near(l, raw, blocks)
  }

  /** Outcome and result are those of decoding the bits. */
  ghost predicate Delivers(outcome: DecodeError, data: QuircData, spec: Result<State>)
    requires data.Valid() && data.payloadLen <= MAX_PAYLOAD
    reads data, data.payload
  {
    match spec
    case Ok(v) => outcome == Success && data.payload[..data.payloadLen] == v.payload && data.dataType == v.dataType
        && data.eci == v.eci
    case Err(e) => outcome == e
  }

  /** What decoding makes of the data in the cells of a grid: the raw bytes along the path are corrected,
      and the data bytes of the blocks are decoded. */
  ghost predicate CellsDecoded(g: Grid, version: nat, level: nat, msk: nat, outcome: DecodeError, data: QuircData)
    requires 1 <= version <= 40 && level < 4 && msk < 8 && data.Valid() && data.payloadLen <= MAX_PAYLOAD
    reads data, data.payload
  {
    exists raw: seq<bv8> | |raw| == MAX_PAYLOAD && HasRead(raw, g, msk, DecoderPath(version), |DecoderPath(version)|) ::
      BlocksDecoded(raw, version, level, outcome, data)
  }

  ghost predicate BlocksDecoded(raw: seq<bv8>, version: nat, level: nat, outcome: DecodeError, data: QuircData)
    requires 1 <= version <= 40 && level < 4 && data.Valid() && data.payloadLen <= MAX_PAYLOAD
    reads data, data.payload
  {
    var l := DecoderLayout(level, version);
    && IsDecoderLayout(l) && |raw| == MAX_PAYLOAD
    && if AllFixed(l, raw)
       then Delivers(outcome, data, Decoded(version, State(Bits(DataOf(l, FixedBlocks(l, raw), l.nb)), [], 0, 0)))
       else outcome == DataEcc
  }

  /** What decoding makes of any grid of the size of a symbol. */
  ghost predicate GridDecoded(g: Grid, version: nat, outcome: DecodeError, data: QuircData)
    requires 1 <= version <= 40 && data.Valid() && data.payloadLen <= MAX_PAYLOAD
    reads data, data.payload
  {
    if FormatLost(g, Size(version), false) && FormatLost(g, Size(version), true) then outcome == FormatEcc
    else
      && data.version == version
      && data.eccLevel == LevelOf(AnyFormat(g, Size(version))) < 4
      && data.mask == MaskNumber(AnyFormat(g, Size(version))) < 8
      && CellsDecoded(g, version, data.eccLevel, data.mask, outcome, data)
  }

  method Clear(data: QuircData)
    requires data.Valid()
    modifies data, data.payload
    ensures data.version == 0 && data.eccLevel == data.mask == data.dataType == data.eci == data.payloadLen == 0
    ensures forall i | 0 <= i < MAX_PAYLOAD :: data.payload[i] == 0
  {
    data.version, data.eccLevel, data.mask, data.dataType, data.eci, data.payloadLen := 0, 0, 0, 0, 0, 0;
    forall i | 0 <= i < MAX_PAYLOAD {
      data.payload[i] := 0;
    }
  }

  /** Reads the format from the first copy, or from the second if the first is lost. */
  method ReadAnyFormat(code: Code, data: QuircData) returns (outcome: DecodeError)
    requires code.Valid() && 21 <= code.size <= MAX_GRID_SIZE
    modifies data`eccLevel, data`mask
    ensures outcome == Success || outcome == FormatEcc
    ensures outcome == FormatEcc <==>
            FormatLost(code.Grid(), code.size, false) && FormatLost(code.Grid(), code.size, true)
    ensures outcome == Success ==> data.eccLevel == LevelOf(AnyFormat(code.Grid(), code.size)) < 4
    ensures outcome == Success ==> data.mask == MaskNumber(AnyFormat(code.Grid(), code.size)) < 8
  {
    hide *;
    AnyFormatDef(code.Grid(), code.size);
    outcome := ReadFormat(code, data, false);
    if outcome != Success {
      outcome := ReadFormat(code, data, true);
    }
  }

  lemma AnyFormatDef(g: Grid, size: int)
    ensures AnyFormat(g, size) == FormatOf(g, size, FormatLost(g, size, false))
  {
    hide FormatOf, FormatLost;
  }

  /** Decodes a code. Any code is handled; one that can be read as a symbol gives what its data string
      says, with its version, level and mask. */
  method Decode(code: Code, data: QuircData) returns (outcome: DecodeError)
    requires code.Valid() && data.Valid() && code.cellBitmap != data.payload
    modifies data, data.payload
    ensures code.size > MAX_GRID_SIZE || (code.size - 17) % 4 != 0 <==> outcome == InvalidGridSize
    ensures code.size < 21 && (code.size - 17) % 4 == 0 <==> outcome == InvalidVersion
    ensures outcome != InvalidGridSize ==> data.payloadLen < MAX_PAYLOAD
    ensures outcome == Success ==> data.payload[data.payloadLen] == 0
    ensures forall version: nat | 1 <= version <= 40 && code.size == Size(version) ::
              outcome != InvalidGridSize && GridDecoded(code.Grid(), version, outcome, data)
    ensures forall version: nat, ecl: Ecc, msk, bytes | 1 <= version <= 40 && code.size == Size(version) && msk < 8 &&
              IsReadable(code.Grid(), version, ecl, msk, bytes) ::
                && outcome != InvalidGridSize
                && Delivers(outcome, data, Decoded(version, State(Bits(bytes), [], 0, 0)))
                && data.version == version && data.eccLevel == ecl.FormatBits() && data.mask == msk
  {
    hide IsReadable, Delivers, Decoded, Code.Grid, CodeGrid, Bits, FormatLost, AnyFormat, LevelOf, MaskNumber,
      GridDecoded, CellsDecoded, Ecc.FormatBits, Size;
    AllSizes();
    if code.size > MAX_GRID_SIZE {
      return InvalidGridSize;
    }
    if (code.size - 17) % 4 != 0 {
      return InvalidGridSize;
    }
    Clear(data);
    data.version := (code.size - 17) / 4;
    if data.version < 1 || data.version > 40 {
      return InvalidVersion;
    }
    ghost var g, version: nat := code.Grid(), data.version;
    SizeOf(code.size, version);
    outcome := ReadAnyFormat(code, data);
    if outcome == Success {
      outcome := DecodeCells(code, data);
    }
    GridDecodedDef(g, version, outcome, data);
    forall ecl: Ecc, msk, bytes | msk < 8 && IsReadable(g, version, ecl, msk, bytes)
      ensures Delivers(outcome, data, Decoded(version, State(Bits(bytes), [], 0, 0)))
      ensures data.version == version && data.eccLevel == ecl.FormatBits() && data.mask == msk
    {
      ReadableGrid(g, version, ecl, msk, bytes, outcome, data);
    }
  }

  lemma GridDecodedDef(g: Grid, version: nat, outcome: DecodeError, data: QuircData)
    requires 1 <= version <= 40 && data.Valid() && data.payloadLen <= MAX_PAYLOAD
    requires if FormatLost(g, Size(version), false) && FormatLost(g, Size(version), true) then outcome == FormatEcc
             else
               && data.version == version
               && data.eccLevel == LevelOf(AnyFormat(g, Size(version))) < 4
               && data.mask == MaskNumber(AnyFormat(g, Size(version))) < 8
               && CellsDecoded(g, version, data.eccLevel, data.mask, outcome, data)
    ensures GridDecoded(g, version, outcome, data)
  {
    hide FormatLost, AnyFormat, LevelOf, MaskNumber, CellsDecoded, Size;
  }

  lemma AllSizes()
    ensures forall version: nat | 1 <= version <= 40 ::
              21 <= Size(version) <= MAX_GRID_SIZE && (Size(version) - 17) % 4 == 0
                  && (Size(version) - 17) / 4 == version
  {}

  lemma SizeOf(size: int, version: nat)
    requires version == (size - 17) / 4 && (size - 17) % 4 == 0
    ensures size == Size(version)
  {}

  /** A grid that can be read as a symbol decodes to what its data string says. */
  lemma ReadableGrid(g: Grid, version: nat, ecl: Ecc, msk: nat, bytes: seq<bv8>, outcome: DecodeError, data: QuircData)
    requires 1 <= version <= 40 && msk < 8 && data.Valid() && data.payloadLen <= MAX_PAYLOAD
    requires IsReadable(g, version, ecl, msk, bytes) && GridDecoded(g, version, outcome, data)
    ensures Delivers(outcome, data, Decoded(version, State(Bits(bytes), [], 0, 0)))
    ensures data.version == version && data.eccLevel == ecl.FormatBits() && data.mask == msk
  {
    hide FormatLost, AnyFormat, LevelOf, MaskNumber, HoldsData, DecoderLayout, Size, Ecc.FormatBits, Delivers, Decoded,
      Bits, HasRead, DecoderPath, BlocksDecoded, IsReadable;
    ReadableFormat(g, version, ecl, msk, bytes);
    var raw: seq<bv8> :| |raw| == MAX_PAYLOAD && HasRead(raw, g, msk, DecoderPath(version), |DecoderPath(version)|)
      && BlocksDecoded(raw, version, data.eccLevel, outcome, data);
    ReadableData(g, version, ecl, msk, bytes, raw);
    NearDecoded(raw, version, data.eccLevel, bytes, outcome, data);
  }

  lemma ReadableFormat(g: Grid, version: nat, ecl: Ecc, msk: nat, bytes: seq<bv8>)
    requires 1 <= version <= 40 && msk < 8 && IsReadable(g, version, ecl, msk, bytes)
    ensures !(FormatLost(g, Size(version), false) && FormatLost(g, Size(version), true))
    ensures LevelOf(AnyFormat(g, Size(version))) == ecl.FormatBits() && MaskNumber(AnyFormat(g, Size(version))) == msk
  {
    hide FormatLost, AnyFormat, LevelOf, MaskNumber, HoldsData, DecoderLayout, Size, Ecc.FormatBits;
  }

  lemma NearDecoded(raw: seq<bv8>, version: nat, level: nat, bytes: seq<bv8>, outcome: DecodeError, data: QuircData)
    requires 1 <= version <= 40 && level < 4 && data.Valid() && data.payloadLen <= MAX_PAYLOAD
    requires DecoderLayout(level, version).Valid() && HasNear(DecoderLayout(level, version), raw, bytes)
    requires BlocksDecoded(raw, version, level, outcome, data)
    ensures Delivers(outcome, data, Decoded(version, State(Bits(bytes), [], 0, 0)))
  {
    hide Delivers, Decoded, Bits, DecoderLayout, AllFixed, FixedBlocks, DataOf, HasNear;
    NearRecovered(DecoderLayout(level, version), raw, bytes);
  }

  /** Reads, corrects and decodes the data, once version, level and mask are known. */
  method DecodeCells(code: Code, data: QuircData) returns (outcome: DecodeError)
    requires code.Valid() && data.Valid() && code.cellBitmap != data.payload
    requires 1 <= data.version <= 40 && code.size == Size(data.version) && data.eccLevel < 4 && data.mask < 8
    requires data.dataType == data.eci == data.payloadLen == 0
    requires forall i | 0 <= i < MAX_PAYLOAD :: data.payload[i] == 0
    modifies data`dataType, data`eci, data`payloadLen, data.payload
    ensures data.payloadLen < MAX_PAYLOAD && outcome != InvalidGridSize && outcome != InvalidVersion
    ensures outcome == Success ==> data.payload[data.payloadLen] == 0
    ensures CellsDecoded(code.Grid(), data.version, data.eccLevel, data.mask, outcome, data)
  {
    hide Decoded, Matches, Delivers, Bits, DecoderLayout, IsDecoderLayout, Layout.Valid, Layout.DataTotal, Layout.Total,
      HasRead, DecoderPath, Size, AllFixed, FixedBlocks, DataOf, Recovered, Code.Grid, CodeGrid, Ready, StateOf,
      Remaining, BlocksDecoded, CellsDecoded;
    FitsGrid(data.version);
    ghost var g, version, level, msk := code.Grid(), data.version, data.eccLevel, data.mask;
    DecoderLayoutFits(level, version);
    ghost var l := DecoderLayout(level, version);
    LayoutLimits(l);
    var ds := new DataStream(data.payload);
    ReadData(code, data, ds);
    ghost var raw := ds.raw[..];
    outcome := ds.CodestreamEcc(data.version, data.eccLevel);
    if outcome != Success {
      NotDecoded(raw, version, level, ds.data[..], data);
      CellsDecodedDef(raw, g, version, level, msk, outcome, data);
      return;
    }
    ghost var total := l.DataTotal();
    ghost var all := ds.data[..total];
    RecoveredData(l, raw, ds.data);
    StartOfStream(data, ds, total);
    outcome := DecodePayload(data, ds);
    Delivered(outcome, data, ds, Decoded(version, State(Bits(all), [], 0, 0)));
    BlocksDecodedDef(raw, version, level, outcome, data);
    CellsDecodedDef(raw, g, version, level, msk, outcome, data);
  }

  lemma RecoveredData(l: Layout, raw: seq<bv8>, data: array<bv8>)
    requires l.Valid() && |raw| >= l.Total() && l.DataTotal() <= data.Length && Recovered(l, raw, true, data[..])
    ensures AllFixed(l, raw) && data[..l.DataTotal()] == DataOf(l, FixedBlocks(l, raw), l.nb)
  {
    hide AllFixed, FixedBlocks, DataOf, Layout.DataTotal, Layout.Total;
    assert data[..][..l.DataTotal()] == data[..l.DataTotal()];
  }

  lemma NotDecoded(raw: seq<bv8>, version: nat, level: nat, all: seq<bv8>, data: QuircData)
    requires 1 <= version <= 40 && level < 4 && data.Valid() && data.payloadLen <= MAX_PAYLOAD && |raw| == MAX_PAYLOAD
    requires IsDecoderLayout(DecoderLayout(level, version)) && |all| == MAX_PAYLOAD
    requires Recovered(DecoderLayout(level, version), raw, false, all)
    ensures BlocksDecoded(raw, version, level, DataEcc, data)
  {
    hide AllFixed, FixedBlocks, DataOf, DecoderLayout, Layout.DataTotal, Layout.Total;
  }

  lemma BlocksDecodedDef(raw: seq<bv8>, version: nat, level: nat, outcome: DecodeError, data: QuircData)
    requires 1 <= version <= 40 && level < 4 && data.Valid() && data.payloadLen <= MAX_PAYLOAD && |raw| == MAX_PAYLOAD
    requires var l := DecoderLayout(level, version);
             && IsDecoderLayout(l) && AllFixed(l, raw)
             && Delivers(outcome, data, Decoded(version, State(Bits(DataOf(l, FixedBlocks(l, raw), l.nb)), [], 0, 0)))
    ensures BlocksDecoded(raw, version, level, outcome, data)
  {
    hide AllFixed, FixedBlocks, DataOf, DecoderLayout, Layout.DataTotal, Layout.Total, Delivers, Decoded, Bits;
  }

  lemma CellsDecodedDef(raw: seq<bv8>, g: Grid, version: nat, level: nat, msk: nat, outcome: DecodeError,
      data: QuircData)
    requires 1 <= version <= 40 && level < 4 && msk < 8 && data.Valid() && data.payloadLen <= MAX_PAYLOAD
    requires |raw| == MAX_PAYLOAD && HasRead(raw, g, msk, DecoderPath(version), |DecoderPath(version)|)
    requires BlocksDecoded(raw, version, level, outcome, data)
    ensures CellsDecoded(g, version, level, msk, outcome, data)
  {
    hide HasRead, DecoderPath, BlocksDecoded;
  }

  lemma FitsGrid(version: nat)
    requires 1 <= version <= 40
    ensures 21 <= Size(version) <= MAX_GRID_SIZE
  {}

  /** What the blocks of a readable grid hold. */
  lemma ReadableData(g: Grid, version: nat, ecl: Ecc, msk: nat, bytes: seq<bv8>, raw: seq<bv8>)
    requires 1 <= version <= 40 && msk < 8 && IsReadable(g, version, ecl, msk, bytes)
    requires |raw| == MAX_PAYLOAD && HasRead(raw, g, msk, DecoderPath(version), |DecoderPath(version)|)
    ensures DecoderLayout(ecl.FormatBits(), version).Valid()
    ensures HasNear(DecoderLayout(ecl.FormatBits(), version), raw, bytes)
  {
    hide ReadsFormat, IsDataOf, DecoderLayout, Codestream.Near, HasRead, Size;
  }

  /** Some blocks near the raw bytes hold the data. */
  ghost predicate HasNear(l: Layout, raw: seq<bv8>, data: seq<bv8>)
    requires l.Valid()
  {
    exists blocks :: Codestream.Near(l, raw, blocks) && IsDataOf(l, blocks, data)
  }

  /** The blocks near the raw bytes are recovered. */
  lemma NearRecovered(l: Layout, raw: seq<bv8>, bytes: seq<bv8>)
    requires l.Valid() && |raw| >= l.Total() && HasNear(l, raw, bytes)
    ensures AllFixed(l, raw) && DataOf(l, FixedBlocks(l, raw), l.nb) == bytes
  {
    hide Codestream.Near, DataOf, AllFixed, FixedBlocks, Layout.Total, Layout.BlockLen;
    var blocks :| Codestream.Near(l, raw, blocks) && IsDataOf(l, blocks, bytes);
    NearIsFixed(l, raw, blocks);
  }

  lemma StartOfStream(data: QuircData, ds: DataStream, total: nat)
    requires data.Valid() && ds.Valid() && data.payload != ds.data && ds.ptr == 0 && ds.dataBits == 8 * total
        && total <= MAX_PAYLOAD
    requires data.dataType == data.eci == data.payloadLen == 0
    ensures Ready(data, ds) && StateOf(data, ds) == State(Bits(ds.data[..total]), [], 0, 0)
  {
    hide BitAt;
  }

  lemma Delivered(outcome: DecodeError, data: QuircData, ds: DataStream, spec: Result<State>)
    requires Ready(data, ds) && Matches(outcome, StateOf(data, ds), spec)
    requires spec.Err? ==> IsDataError(spec.error)
    ensures data.payloadLen < MAX_PAYLOAD && Delivers(outcome, data, spec)
        && (outcome == Success || IsDataError(outcome))
  {
    hide Bits, Remaining;
  }
}
