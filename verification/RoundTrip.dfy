/** What is encoded is decoded again, even from a symbol with damaged modules. */
module RoundTrip {
  import opened Versions
  import opened Grids
  import opened FunctionCells
  import opened CellCount
  import opened Zigzag
  import opened Bytes
  import opened BitStrings
  import opened Masks
  import opened FormatWord
  import opened Patterns
  import opened Matrix
  import opened Layouts
  import opened BlockCode
  import opened Interleaver
  import opened Results
  import opened CellBitmap
  import opened Codestream
  import opened FormatReading
  import opened DataReading
  import opened Segments
  import opened SegmentStream
  import opened Payload
  import opened Symbols
  import opened Encoding
  import opened Decoder
  import opened SegmentChoice
  import PathShift
  import Version21
  import Misreads

  // ----- damage

  /** The modules of a copy of the format bits that differ, among the first n. */
  ghost function FormatChanges(g: Grid, m: Grid, size: int, second: bool, n: nat): nat {
    if n == 0 then 0
    else FormatChanges(g, m, size, second, n - 1) +
         (if At(g, BitX(size, second, n - 1), BitY(size, second, n - 1)) ==
             At(m, BitX(size, second, n - 1), BitY(size, second, n - 1))
          then 0 else 1)
  }

  /** Some module of codeword p differs. */
  ghost predicate Changed(g: Grid, m: Grid, path: seq<Cell>, p: nat) {
    exists k :: 8 * p <= k < 8 * p + 8 && k < |path| && Differs(g, m, path[k])
  }

  predicate Differs(g: Grid, m: Grid, c: Cell) {
    At(g, c.x, c.y) != At(m, c.x, c.y)
  }

  /** The decoder does not find some bit of codeword p where the encoder put it. */
  ghost predicate Misread(version: nat, p: nat)
    requires 1 <= version <= 40
  {
    exists k :: 8 * p <= k < 8 * p + 8 && !FindsBit(version, k)
  }

  ghost predicate FindsBit(version: nat, k: nat)
    requires 1 <= version <= 40
  {
    k < |Path(version)| && k < |DecoderPath(version)| && DecoderPath(version)[k] == Path(version)[k]
  }

  /** Codeword p can be read wrongly: it has a changed module, or is misread anyway. */
  ghost predicate Wrong(g: Grid, m: Grid, version: nat, p: nat)
    requires 1 <= version <= 40
  {
    Changed(g, m, Path(version), p) || Misread(version, p)
  }

  /** The codewords of block i, from byte j on, that can be read wrongly. */
  ghost function BlockChanges(g: Grid, m: Grid, version: nat, l: Layout, i: nat, j: nat): nat
    requires 1 <= version <= 40 && l.Valid() && i < l.nb
    decreases l.BlockLen(i) - j
  {
    if j >= l.BlockLen(i) then 0
    else (if Wrong(g, m, version, l.Place(i, j)) then 1 else 0) + BlockChanges(g, m, version, l, i, j + 1)
  }

  /** The damage that is always repaired: three modules of the first copy of the format bits, or three of
      the second if the first is lost; and in every block half as many codewords as there are check
      codewords, one less in the long blocks; codewords that the decoder misreads anyway count as damaged. */
  ghost predicate Survives(g: Grid, m: Grid, version: nat, ecl: Ecc)
    requires 1 <= version <= 40
  {
    && BlocksSurvive(g, m, version, DecoderLayout(ecl.FormatBits(), version))
    && FormatSurvives(g, m, Size(version))
  }

  ghost predicate FormatSurvives(g: Grid, m: Grid, size: int) {
    || FormatChanges(g, m, size, false, 15) <= 3
    || (FormatLost(g, size, false) && FormatChanges(g, m, size, true, 15) <= 3)
  }

  ghost predicate BlocksSurvive(g: Grid, m: Grid, version: nat, l: Layout)
    requires 1 <= version <= 40
  {
    l.Valid() && forall i | 0 <= i < l.nb ::
      2 * (BlockChanges(g, m, version, l, i, 0) + (if i < l.ns then 0 else 1)) <= l.ec
  }

  // ----- the format bits

  lemma FormatShown(m: Grid, version: nat, ecl: Ecc, msk: nat, inverted: (int, int) -> bool, s: seq<bv8>,
      second: bool, j: nat)
    requires 1 <= version <= 40 && msk < 8 && j < 15
    requires m == SymbolGrid(version, FormatBits(ecl, msk), inverted, s)
    ensures At(m, BitX(Size(version), second, j), BitY(Size(version), second, j)) == Bit16(FormatBits(ecl, msk), j)
  {
    hide *;
    var x, y, bits := BitX(Size(version), second, j), BitY(Size(version), second, j), FormatBits(ecl, msk);
    SizeIsSize(version);
    BitPlaces(Size(version), j);
    if second {
      SecondCopyColour(Size(version), bits, x, y);
    } else {
      FirstCopyColour(Size(version), bits, x, y);
    }
    ColourOfFormat(version, bits, bits, x, y);
    GridShows(m, version, bits, inverted, s, x, y);
  }

  lemma GridShows(m: Grid, version: nat, format: bv16, inverted: (int, int) -> bool, s: seq<bv8>, x: int, y: int)
    requires 1 <= version <= 40 && 0 <= x < Size(version) && 0 <= y < Size(version)
    requires m == SymbolGrid(version, format, inverted, s)
    ensures IsSquare(m, Size(version))
    ensures At(m, x, y) == if Taken(version, AlignmentPositions(version))(x, y) then
                             PatternColour(version, format)(x, y)
                           else BitOn(Path(version), Bits(s), 8 * |s|, x, y) != inverted(x, y)
  {
    hide PatternColour, BitOn, Path, Taken, AlignmentPositions, Size;
    assert m[y][x] == SymbolModule(version, format, inverted, s, x, y);
  }

  /** The changes to a copy are its distance from the format bits. */
  lemma {:induction false} ChangesAreDistance(g: Grid, m: Grid, version: nat, ecl: Ecc, msk: nat,
      inverted: (int, int) -> bool, s: seq<bv8>, second: bool, n: nat)
    requires 1 <= version <= 40 && msk < 8 && n <= 15
    requires m == SymbolGrid(version, FormatBits(ecl, msk), inverted, s)
    ensures FormatDistance(g, Size(version), second, FormatBits(ecl, msk), n) ==
            FormatChanges(g, m, Size(version), second, n)
  {
    hide FormatBits, SymbolGrid, BitX, BitY, At, Bit16;
    if n > 0 {
      ChangesAreDistance(g, m, version, ecl, msk, inverted, s, second, n - 1);
      FormatShown(m, version, ecl, msk, inverted, s, second, n - 1);
    }
  }

  // ----- the codewords

  /** Away from version 21 the decoder takes the encoder's path and misreads nothing. */
  lemma SamePath(version: nat, p: nat)
    requires 1 <= version <= 40 && version != 21 && 8 * p + 8 <= |Path(version)|
    ensures !Misread(version, p)
  {
    hide Apat, AlignmentPositions, Size, Taken;
    AlignmentAgrees(version);
  }

  /** In version 21 it misreads some codewords. */
  lemma OtherPath(p: nat)
    requires p < 1156 && Misread(21, p)
    ensures Misreads.IsMisread(p)
  {
    hide Taken, Apat, AlignmentPositions, Cells, NoDuplicates, Version21.IsMisplaced, Misreads.IsMisread;
    PathFacts(21);
    Version21.Size21();
    Version21.Paths();
    Version21.PathsAgree(50);
    var k: nat :| 8 * p <= k < 8 * p + 8 && !FindsBit(21, k);
    Misreads.MisplacedIsMisread(k);
    assert k / 8 == p;
  }

  /** An unchanged module shows its bit of the codewords. */
  lemma CellShows(m: Grid, version: nat, format: bv16, msk: nat, s: seq<bv8>, k: nat)
    requires 1 <= version <= 40 && msk < 8 && k < 8 * |s| && k < |Path(version)|
    requires m == SymbolGrid(version, format, MaskOf(msk), s)
    ensures CellValue(m, msk, Path(version)[k]) == Bits(s)[k]
  {
    hide PatternColour, Path, Taken, AlignmentPositions, Size, Bits, SymbolGrid, RawDataModules, Inverts, MaskBit;
    var c := Path(version)[k];
    PathFacts(version);
    GridShows(m, version, format, MaskOf(msk), s, c.x, c.y);
    OnlyBit(Path(version), Bits(s), 8 * |s|, k);
    MasksAgree(msk, c.x, c.y);
  }

  lemma OnlyBit(path: seq<Cell>, bits: seq<bool>, n: nat, k: nat)
    requires NoDuplicates(path) && k < |path| && k < n && k < |bits|
    ensures BitOn(path, bits, n, path[k].x, path[k].y) == bits[k]
  {
    assert path[k] == Cell(path[k].x, path[k].y);
  }

  /** A codeword that is neither changed nor misread is read as it was written. */
  lemma UnchangedCodeword(g: Grid, m: Grid, version: nat, format: bv16, msk: nat, s: seq<bv8>, raw: seq<bv8>, p: nat)
    requires 1 <= version <= 40 && msk < 8 && p < |s| && 8 * |s| <= |Path(version)|
    requires m == SymbolGrid(version, format, MaskOf(msk), s)
    requires |raw| == MAX_PAYLOAD && HasRead(raw, g, msk, DecoderPath(version), |DecoderPath(version)|)
    requires !Wrong(g, m, version, p)
    ensures p < |raw| && raw[p] == s[p]
  {
    hide SymbolGrid, Path, DecoderPath, CellValue, BitAt, MaskOf, Bits, Size;
    assert FindsBit(version, 8 * p);
    forall b | 0 <= b < 8 ensures BitAt(raw[p], b) == BitAt(s[p], b) {
      var k := 8 * p + b;
      assert FindsBit(version, k);
      CellShows(m, version, format, msk, s, k);
      SameValue(g, m, msk, Path(version)[k]);
      assert k / 8 == p && k % 8 == b;
      assert Bits(raw)[k] == BitAt(raw[p], b) && Bits(s)[k] == BitAt(s[p], b);
    }
    SameByte(raw[p], s[p]);
  }

  lemma SameValue(g: Grid, m: Grid, msk: nat, c: Cell)
    requires !Differs(g, m, c)
    ensures CellValue(g, msk, c) == CellValue(m, msk, c)
  {
    hide MaskBit;
  }

  /** A block has at most as many wrong bytes as it has codewords that can be read wrongly. */
  lemma {:induction false} ChangesBoundDamage(g: Grid, m: Grid, version: nat, l: Layout, i: nat, j: nat, a: seq<bv8>,
      b: seq<bv8>)
    requires 1 <= version <= 40 && l.Valid() && i < l.nb && |a| == |b| && j + |a| == l.BlockLen(i)
    requires forall k | 0 <= k < |a| && a[k] != b[k] :: Wrong(g, m, version, l.Place(i, j + k))
    ensures Distance(a, b) <= BlockChanges(g, m, version, l, i, j)
    decreases |a|
  {
    hide Wrong, Layout.Place;
    if a != [] {
      forall k | 0 <= k < |a[1..]| && a[1..][k] != b[1..][k] ensures Wrong(g, m, version, l.Place(i, j + 1 + k)) {
        assert a[k + 1] != b[k + 1];
        assert Wrong(g, m, version, l.Place(i, j + (k + 1)));
      }
      ChangesBoundDamage(g, m, version, l, i, j + 1, a[1..], b[1..]);
      assert a[0] != b[0] ==> Wrong(g, m, version, l.Place(i, j + 0));
    }
  }

  lemma DamageIsBounded(g: Grid, m: Grid, version: nat, format: bv16, msk: nat, l: Layout, s: seq<bv8>, raw: seq<bv8>,
      block: seq<bv8>, i: nat)
    requires 1 <= version <= 40 && msk < 8 && 8 * |s| <= |Path(version)|
    requires m == SymbolGrid(version, format, MaskOf(msk), s)
    requires |raw| == MAX_PAYLOAD && HasRead(raw, g, msk, DecoderPath(version), |DecoderPath(version)|)
    requires l.Valid() && i < l.nb && |s| == l.Total() <= |raw| && |block| == l.BlockLen(i)
        && PlacedBlock(l, s, i) == block
    ensures Damage(l, raw, block, i) <= BlockChanges(g, m, version, l, i, 0)
  {
    hide SymbolGrid, Path, DecoderPath, HasRead, MaskOf, Wrong, Distance, Layout.Total, Layout.Place, Layout.BlockLen;
    var a := PlacedBlock(l, raw, i);
    forall k | 0 <= k < |a| && a[k] != block[k] ensures Wrong(g, m, version, l.Place(i, 0 + k)) {
      PlaceBounds(l, i, k);
      if !Wrong(g, m, version, l.Place(i, k)) {
        UnchangedCodeword(g, m, version, format, msk, s, raw, l.Place(i, k));
      }
    }
    ChangesBoundDamage(g, m, version, l, i, 0, a, block);
  }

  /** Whatever is read from a grid with surviving damage is near the blocks. */
  lemma SurvivingIsNear(g: Grid, m: Grid, version: nat, format: bv16, msk: nat, l: Layout, data: seq<bv8>,
      s: seq<bv8>, blocks: seq<seq<bv8>>)
    requires 1 <= version <= 40 && msk < 8 && 8 * |s| <= |Path(version)| && |s| <= MAX_PAYLOAD
    requires m == SymbolGrid(version, format, MaskOf(msk), s)
    requires BlocksSurvive(g, m, version, l) && |data| == l.DataTotal()
    requires AreBlocks(l, data, blocks, l.nb) && Interleaves(l, s, blocks)
    ensures AlwaysNear(l, g, version, msk, blocks)
  {
    hide SymbolGrid, Path, DecoderPath, HasRead, MaskOf, BlockChanges, Damage, IsBlock;
    forall raw: seq<bv8> | |raw| == MAX_PAYLOAD && HasRead(raw, g, msk, DecoderPath(version), |DecoderPath(version)|)
      ensures Codestream.Near(l, raw, blocks)
    {
      forall i | 0 <= i < l.nb
        ensures |blocks[i]| == l.BlockLen(i) && 2 * (Damage(l, raw, blocks[i], i) + (if i < l.ns then 0 else 1)) <= l.ec
      {
        DamageIsBounded(g, m, version, format, msk, l, s, raw, blocks[i], i);
      }
      TolerableIsNear(l, data, raw, blocks);
    }
  }

  /** A finished symbol can be read as what it shows, even with surviving damage. */
  lemma DamagedIsReadable(g: Grid, m: Grid, version: nat, ecl: Ecc, msk: nat, automatic: bool, data: seq<bv8>)
    requires 1 <= version <= 40 && msk < 8 && |data| == NumDataCodewords(ecl, version)
    requires IsFinished(m, version, ecl, msk, automatic, data) && Survives(g, m, version, ecl)
    ensures IsReadable(g, version, ecl, msk, data)
  {
    hide SymbolGrid, Path, MaskOf, BlocksSurvive, FormatSurvives, ReadsFormat, FormatBits, RawDataModules,
        NumDataCodewords,
      EncoderLayout, DecoderLayout, IsBest, AreBlocks, Interleaves, AlwaysNear, NoDuplicates, Ecc.FormatBits,
          NumBlocks, Size, VersionDb;
    var s :| IsInterleaved(ecl, version, data, s) && m == MaskedSymbol(version, ecl, s, msk);
    var l := EncoderLayout(ecl, version);
    var blocks :| AreBlocks(l, data, blocks, l.nb) && Interleaves(l, s, blocks);
    LayoutsAgree(ecl, version);
    PathFacts(version);
    WholeLayout(l, data, s, blocks);
    SurvivingIsNear(g, m, version, FormatBits(ecl, msk), msk, l, data, s, blocks);
    SurvivingFormat(g, m, version, ecl, msk, s);
  }

  lemma SurvivingFormat(g: Grid, m: Grid, version: nat, ecl: Ecc, msk: nat, s: seq<bv8>)
    requires 1 <= version <= 40 && msk < 8 && m == SymbolGrid(version, FormatBits(ecl, msk), MaskOf(msk), s)
    requires FormatSurvives(g, m, Size(version))
    ensures ReadsFormat(g, Size(version), ecl, msk)
  {
    hide SymbolGrid, MaskOf, FormatChanges, FormatDistance, FormatLost, FormatBits, ReadsFormat, Size;
    ChangesAreDistance(g, m, version, ecl, msk, MaskOf(msk), s, false, 15);
    ChangesAreDistance(g, m, version, ecl, msk, MaskOf(msk), s, true, 15);
    NearReads(g, Size(version), ecl, msk);
  }

  lemma WholeLayout(l: Layout, data: seq<bv8>, s: seq<bv8>, blocks: seq<seq<bv8>>)
    requires l.Valid() && |data| == l.DataTotal() && AreBlocks(l, data, blocks, l.nb) && Interleaves(l, s, blocks)
    ensures |s| == l.Total() && IsDataOf(l, blocks, data)
  {
    hide IsBlock;
    DataOfBlocks(l, data, blocks, l.nb);
  }

  // ----- the data string

  /** A padded stream decodes to its texts. */
  lemma StreamDecoded(version: nat, ecl: Ecc, segs: seq<Segment>, texts: seq<seq<bv8>>, data: seq<bv8>)
    requires 1 <= version <= 40 && FitsIn(segs, version, ecl) && AllSpell(segs, texts)
    requires |data| == NumDataCodewords(ecl, version) && Bits(data) == PaddedBits(segs, version, 8 * |data|)
    ensures var d, after := Decoded(version, State(Bits(data), [], 0, 0)), AfterAll(segs, texts, State([], [], 0, 0));
            && d.Ok? && d.value.payload == Concat(texts) && d.value.dataType == after.dataType
                && d.value.eci == after.eci
  {
    hide Bits, NumDataCodewords, StreamBits, Decoded, AfterAll, Tail, AllSpell, AllFit, Concat, IsTail;
    var st := State(Bits(data), [], 0, 0);
    var tail := Tail(|StreamBits(segs, version)|, 8 * |data|);
    CapacityIsPositive(ecl, version);
    StreamRoom(segs, texts, version);
    TailFacts(|StreamBits(segs, version)|, 8 * |data|);
    SameCount(segs, texts);
    StreamRead(version, segs, texts, tail, st);
    AfterAllFields(segs, texts, st);
    OnlyBits(segs, texts, st, []);
    assert [] + Concat(texts) == Concat(texts);
    TailRead(version, AfterAll(segs, texts, st).(bits := tail));
  }

  lemma SameCount(segs: seq<Segment>, texts: seq<seq<bv8>>)
    requires AllSpell(segs, texts)
    ensures |segs| == |texts|
  {
    hide Spells;
  }

  // ----- end to end

  /** Every received grid with surviving damage delivers the texts of the segments that were encoded. */
  lemma Received(g: Grid, m: Grid, version: nat, ecl: Ecc, msk: nat, automatic: bool, segs: seq<Segment>,
      texts: seq<seq<bv8>>)
    requires 1 <= version <= 40 && msk < 8
    requires ShowsSegments(m, version, ecl, msk, automatic, segs) && AllSpell(segs, texts)
        && Survives(g, m, version, ecl)
    ensures exists data :: IsReadable(g, version, ecl, msk, data) && Says(version, data, segs, texts)
  {
    hide Bits, NumDataCodewords, Decoded, AllSpell, IsFinished, Survives, AllFit, PaddedBits, IsReadable, AfterAll,
        StreamBits;
    var data :| FitsIn(segs, version, ecl) && |data| == NumDataCodewords(ecl, version)
      && Bits(data) == PaddedBits(segs, version, 8 * |data|) && IsFinished(m, version, ecl, msk, automatic, data);
    DamagedIsReadable(g, m, version, ecl, msk, automatic, data);
    StreamDecoded(version, ecl, segs, texts, data);
    SameCount(segs, texts);
  }

  /** The data string decodes to the texts, with the data type and ECI of the segments. */
  ghost predicate Says(version: nat, data: seq<bv8>, segs: seq<Segment>, texts: seq<seq<bv8>>) {
    |segs| == |texts| &&
    var d, after := Decoded(version, State(Bits(data), [], 0, 0)), AfterAll(segs, texts, State([], [], 0, 0));
    && d.Ok? && d.value.payload == Concat(texts) && d.value.dataType == after.dataType && d.value.eci == after.eci
  }

  /** The grid with the modules of a noise pattern inverted. */
  function Noisy(m: Grid, noise: (int, int) -> bool, size: nat): (g: Grid)
    ensures IsSquare(g, size)
    ensures forall x, y | 0 <= x < size && 0 <= y < size :: At(g, x, y) == (At(m, x, y) != noise(x, y))
  {
    seq(size, y => seq(size, x => At(m, x, y) != noise(x, y)))
  }

  /** What comes out at the far end. */
  datatype Reception = Reception(outcome: DecodeError, version: int, eccLevel: nat, mask: nat, dataType: nat,
      eci: nat, payload: seq<bv8>)

  method Receive(cells: Grid, size: nat) returns (r: Reception)
    requires IsSquare(cells, size)
    ensures forall version: nat, ecl: Ecc, msk, data | 1 <= version <= 40 && size == Size(version) && msk < 8 &&
              IsReadable(cells, version, ecl, msk, data) ::
                && (match Decoded(version, State(Bits(data), [], 0, 0))
                    case Ok(v) => r.outcome == Success && r.payload == v.payload && r.dataType == v.dataType
                        && r.eci == v.eci
                    case Err(e) => r.outcome == e)
                && r.version == version && r.eccLevel == ecl.FormatBits() && r.mask == msk
  {
    hide IsReadable, Decoded, Bits, CodeGrid, Size, Ecc.FormatBits, IsSquare, IsDataError;
    var code := new Code(size, cells);
    var data := new QuircData();
    ghost var g := if size <= MAX_GRID_SIZE then code.Grid() else cells;
    var outcome := Decode(code, data);
    forall v: nat, ecl: Ecc, msk, bytes | 1 <= v <= 40 && size == Size(v) && msk < 8
        && IsReadable(cells, v, ecl, msk, bytes)
      ensures outcome != InvalidGridSize && Delivers(outcome, data, Decoded(v, State(Bits(bytes), [], 0, 0)))
      ensures data.version == v && data.eccLevel == ecl.FormatBits() && data.mask == msk
    {
      AllSizes();
      assert code.Grid() == cells;
      assert IsReadable(code.Grid(), v, ecl, msk, bytes);
    }
    var payload := if data.payloadLen < MAX_PAYLOAD then data.payload[..data.payloadLen] else [];
    r := Reception(outcome, data.version, data.eccLevel, data.mask, data.dataType, data.eci, payload);
  }

  /** The reception gives the texts, and the version, level and mask of the symbol. */
  ghost predicate Delivered(r: Reception, version: nat, ecl: Ecc, msk: nat, segs: seq<Segment>, texts: seq<seq<bv8>>) {
    && r.outcome == Success && r.payload == Concat(texts)
    && r.version == version && r.eccLevel == ecl.FormatBits() && r.mask == msk
    && |segs| == |texts|
    && r.dataType == AfterAll(segs, texts, State([], [], 0, 0)).dataType
    && r.eci == AfterAll(segs, texts, State([], [], 0, 0)).eci
  }

  /** Encodes segments, inverts the modules of the noise, and decodes. */
  method Transmit(segs: seq<Segment>, level: Ecc, minVersion: int, maxVersion: int, mask: int, boostEcl: bool,
                  noise: (int, int) -> bool)
    returns (sent: bool, version: nat, ecl: Ecc, msk: nat, m: Grid, r: Reception)
    ensures sent <==> 1 <= minVersion <= maxVersion <= 40 && -1 <= mask <= 7 &&
                      exists v :: minVersion <= v <= maxVersion && FitsIn(segs, v, level)
    ensures sent ==>
              && IsLeastVersion(segs, level, minVersion, maxVersion, version)
              && IsBoosted(segs, version, level, boostEcl, ecl)
              && msk < 8 && (mask >= 0 ==> msk == mask)
              && ShowsSegments(m, version, ecl, msk, mask == -1, segs)
    ensures forall texts | sent && AllSpell(segs, texts) &&
              Survives(Noisy(m, noise, Size(version)), m, version, ecl) ::
                Delivered(r, version, ecl, msk, segs, texts)
  {
    hide *;
    version, ecl, msk, m := 0, Low, 0, [];
    r := Reception(Success, 0, 0, 0, 0, 0, []);
    var symbol := EncodeSegments(segs, level, minVersion, maxVersion, mask, boostEcl);
    if symbol.Refused? {
      return false, version, ecl, msk, m, r;
    }
    version, ecl, msk, m := symbol.qr.version, symbol.qr.ecl, symbol.qr.mask, symbol.qr.modules;
    LeastFits(segs, level, minVersion, maxVersion, version);
    var g := Noisy(m, noise, Size(version));
    r := Receive(g, Size(version));
    forall texts | AllSpell(segs, texts) && Survives(g, m, version, ecl)
      ensures Delivered(r, version, ecl, msk, segs, texts)
    {
      Received(g, m, version, ecl, msk, mask == -1, segs, texts);
      GivesTexts(r, g, version, ecl, msk, segs, texts);
    }
    sent := true;
  }

  lemma GivesTexts(r: Reception, g: Grid, version: nat, ecl: Ecc, msk: nat, segs: seq<Segment>, texts: seq<seq<bv8>>)
    requires 1 <= version <= 40 && msk < 8
    requires exists data :: IsReadable(g, version, ecl, msk, data) && Says(version, data, segs, texts)
    requires forall data | IsReadable(g, version, ecl, msk, data) ::
               && (match Decoded(version, State(Bits(data), [], 0, 0))
                   case Ok(v) => r.outcome == Success && r.payload == v.payload && r.dataType == v.dataType
                       && r.eci == v.eci
                   case Err(e) => r.outcome == e)
               && r.version == version && r.eccLevel == ecl.FormatBits() && r.mask == msk
    ensures Delivered(r, version, ecl, msk, segs, texts)
  {
    hide IsReadable, Decoded, Bits, AfterAll, Ecc.FormatBits;
  }

  lemma {:induction false} NoFormatChanges(m: Grid, size: int, n: nat)
    ensures FormatChanges(m, m, size, false, n) == 0
  {
    hide At, BitX, BitY;
    if n > 0 {
      NoFormatChanges(m, size, n - 1);
    }
  }

  lemma NoChange(m: Grid, version: nat, p: nat)
    requires 1 <= version <= 40
    ensures Wrong(m, m, version, p) == Misread(version, p)
  {
    hide Path, Misread;
  }

  /** The places of a block are places of codewords with all their bits in the symbol. */
  lemma PlaceInPath(version: nat, ecl: Ecc, i: nat, j: nat)
    requires 1 <= version <= 40
    requires var l := DecoderLayout(ecl.FormatBits(), version); i < l.nb && l.ns <= l.nb && j < l.BlockLen(i)
    ensures var p := DecoderLayout(ecl.FormatBits(), version).Place(i, j);
            8 * p + 8 <= |Path(version)| && (version == 21 ==> p < 1156)
  {
    hide DecoderLayout, EncoderLayout, Path, Size, Taken, NoDuplicates, Layout.Place, Layout.Total, Layout.BlockLen,
        NumDataCodewords, VersionDb;
    LayoutsAgree(ecl, version);
    PathFacts(version);
    PlaceBounds(DecoderLayout(ecl.FormatBits(), version), i, j);
  }

  /** Without damage only the misreads of version 21 count. */
  lemma {:induction false} OnlyMisreads(m: Grid, version: nat, ecl: Ecc, l: Layout, i: nat, j: nat)
    requires 1 <= version <= 40 && l == DecoderLayout(ecl.FormatBits(), version) && l.Valid() && i < l.nb
        && j <= l.BlockLen(i)
    ensures version != 21 ==> BlockChanges(m, m, version, l, i, j) == 0
    ensures version == 21 ==>
              BlockChanges(m, m, version, l, i, j) + Num(Misreads.Range(l, i, 0, Misreads.END), j) <=
              Misreads.Hits(l, i, 0, Misreads.END)
    decreases l.BlockLen(i) - j
  {
    hide Layout.Place, DecoderLayout, Wrong, Misread, Misreads.IsMisread, Layout.BlockLen, Path, Size,
      Ecc.FormatBits;
    if j < l.BlockLen(i) {
      OnlyMisreads(m, version, ecl, l, i, j + 1);
      PlaceInPath(version, ecl, i, j);
      NoChange(m, version, l.Place(i, j));
      if version != 21 {
        SamePath(version, l.Place(i, j));
      } else if Misread(version, l.Place(i, j)) {
        OtherPath(l.Place(i, j));
        assert Misreads.InRange(l, i, 0, Misreads.END, j);
      }
    }
  }

  /** An undamaged symbol survives, of version 21 too: what is misread there can be corrected. */
  lemma Undamaged(m: Grid, version: nat, ecl: Ecc)
    requires 1 <= version <= 40
    ensures Survives(m, m, version, ecl)
  {
    hide DecoderLayout, BlockChanges, FormatChanges, FormatLost, Path, Size, Misreads.Range;
    NoFormatChanges(m, Size(version), 15);
    DecoderLayoutFits(ecl.FormatBits(), version);
    var l := DecoderLayout(ecl.FormatBits(), version);
    forall i | 0 <= i < l.nb ensures 2 * (BlockChanges(m, m, version, l, i, 0) + (if i < l.ns then 0 else 1)) <= l.ec {
      OnlyMisreads(m, version, ecl, l, i, 0);
      if version == 21 {
        Misreads.MisreadsAreFew(ecl, i);
      }
    }
  }

  /** Encodes a text and decodes the symbol: whenever some version has room for the text, spelled in any
      mode, the text comes back, with the version, level and mask of the symbol. The version is the least
      with room, and its level the strongest. */
  method TextRoundTrip(text: seq<bv8>, level: Ecc) returns (sent: bool, version: nat, ecl: Ecc, msk: nat, r: Reception)
    ensures sent <==> exists v :: 1 <= v <= 40 && TextFits(text, v, level)
    ensures |text| <= 2953 && level == Low ==> sent
    ensures sent ==> |text| <= 7089 && IsLeastFor(text, level, version) && IsStrongestFor(text, level, version, ecl)
    ensures sent ==>
              && r.outcome == Success && r.payload == text
              && r.version == version && r.eccLevel == ecl.FormatBits() && r.mask == msk < 8
  {
    hide *;
    version, ecl, msk := 0, Low, 0;
    r := Reception(Success, 0, 0, 0, 0, 0, []);
    FitMeans(text, level);
    var symbol := EncodeText(text, level);
    if symbol.Refused? {
      return false, version, ecl, msk, r;
    }
    version, ecl, msk := symbol.qr.version, symbol.qr.ecl, symbol.qr.mask;
    ghost var m, segs, texts := symbol.qr.modules, SegmentsFor(text), if text == [] then [] else [text];
    LeastFits(segs, level, 1, 40, version);
    LeastMeans(text, level, version);
    StrongestMeans(text, level, version, ecl);
    TextFitsMeans(text, version, level);
    ShortEnough(text, version, level);
    ShownIsSquare(m, version, ecl, msk, segs);
    r := Receive(symbol.qr.modules, Size(version));
    ChosenSpell(text);
    Undamaged(m, version, ecl);
    Received(m, m, version, ecl, msk, true, segs, texts);
    GivesTexts(r, m, version, ecl, msk, segs, texts);
    DeliveredParts(r, version, ecl, msk, segs, texts);
    sent := true;
  }

  /** The segment chosen for a text fits where any does, and short texts always fit. */
  lemma FitMeans(text: seq<bv8>, level: Ecc)
    ensures (exists v :: 1 <= v <= 40 && TextFits(text, v, level)) <==>
            exists v :: 1 <= v <= 40 && FitsIn(SegmentsFor(text), v, level)
    ensures |text| <= 2953 && level == Low ==> exists v :: 1 <= v <= 40 && TextFits(text, v, level)
  {
    hide TextFits, FitsIn, SegmentsFor;
    forall v | 1 <= v <= 40 ensures TextFits(text, v, level) <==> FitsIn(SegmentsFor(text), v, level) {
      TextFitsMeans(text, v, level);
    }
    if |text| <= 2953 && level == Low {
      GuaranteedLength(text);
    }
  }

  lemma ShortEnough(text: seq<bv8>, version: nat, level: Ecc)
    requires 1 <= version <= 40 && TextFits(text, version, level)
    ensures |text| <= 7089
  {
    hide TextFits, LongestText;
    NoLongerText(text, version, level);
  }

  lemma DeliveredParts(r: Reception, version: nat, ecl: Ecc, msk: nat, segs: seq<Segment>, texts: seq<seq<bv8>>)
    requires Delivered(r, version, ecl, msk, segs, texts)
    ensures r.outcome == Success && r.payload == Concat(texts)
    ensures r.version == version && r.eccLevel == ecl.FormatBits() && r.mask == msk
  {
    hide Concat, AfterAll, Ecc.FormatBits;
  }

  lemma ShownIsSquare(m: Grid, version: nat, ecl: Ecc, msk: nat, segs: seq<Segment>)
    requires 1 <= version <= 40 && msk < 8 && ShowsSegments(m, version, ecl, msk, true, segs)
    ensures IsSquare(m, Size(version))
  {
    hide AllFit, StreamBits, PaddedBits, Bits, NumDataCodewords, IsInterleaved, IsBest, SymbolModule, FormatBits,
        MaskOf, Size;
    var data: seq<bv8> :| FitsIn(segs, version, ecl) && |data| == NumDataCodewords(ecl, version)
      && Bits(data) == PaddedBits(segs, version, 8 * |data|) && IsFinished(m, version, ecl, msk, true, data);
  }
}
