/** How the decoder reads the codeword bits of a symbol. */
module DataReading {
  import opened Versions
  import opened Grids
  import opened CellBitmap
  import opened FunctionCells
  import opened CellCount
  import opened Zigzag
  import opened Bytes
  import opened Masks
  import opened Results
  import opened Codestream

  /** The order in which the decoder visits the cells. */
  ghost function DecoderPath(version: nat): seq<Cell>
    requires 1 <= version <= 40
  {
    AllCells(Taken(version, Apat(version)), Size(version))
  }

  /** The bit of a cell without the mask. */
  ghost predicate CellValue(g: Grid, mask: nat, cell: Cell) {
    cell.x >= 0 && cell.y >= 0 && At(g, cell.x, cell.y) != MaskBit(mask, cell.y, cell.x)
  }

  /** The first n cells of the path have been read; the other bits are still zero. */
  ghost predicate HasRead(raw: seq<bv8>, g: Grid, mask: nat, path: seq<Cell>, n: nat) {
    n <= |path| && n <= 8 * |raw| &&
    forall k | 0 <= k < 8 * |raw| :: Bits(raw)[k] == (k < n && CellValue(g, mask, path[k]))
  }

  lemma ReadsNext(raw: seq<bv8>, next: seq<bv8>, g: Grid, mask: nat, path: seq<Cell>, n: nat, v: bool)
    requires HasRead(raw, g, mask, path, n) && n < |path| && n < 8 * |raw| && v == CellValue(g, mask, path[n])
    requires next == if v then raw[n / 8 := Or(raw[n / 8], Mask(n % 8))] else raw
    ensures HasRead(next, g, mask, path, n + 1)
  {
    hide CellValue, Or, Mask, Bits;
    forall k | 0 <= k < 8 * |next| ensures Bits(next)[k] == (k < n + 1 && CellValue(g, mask, path[k])) {
      if v {
        SetBitOf(raw, next, n, k);
      }
    }
  }

  /** Appends the bit of the cell in row i and column j to the raw bits. */
  method ReadBit(code: Code, data: QuircData, ds: DataStream, i: int, j: int, ghost path: seq<Cell>)
    requires code.Valid() && ds.Valid() && 0 <= code.size <= MAX_GRID_SIZE && code.cellBitmap != ds.raw
    requires 0 <= i < code.size && 0 <= j < code.size
    requires ds.dataBits < |path| <= 8 * MAX_PAYLOAD && path[ds.dataBits] == Cell(j, i)
    requires HasRead(ds.raw[..], code.Grid(), data.mask, path, ds.dataBits)
    modifies ds`dataBits, ds.raw
    ensures ds.dataBits == old(ds.dataBits) + 1 && HasRead(ds.raw[..], code.Grid(), data.mask, path, ds.dataBits)
  {
    hide HasRead, Or, Mask, MaskBit, At, Code.Grid;
    var bitpos := ds.dataBits % 8;
    var bytepos := ds.dataBits / 8;
    var v := code.GridBit(j, i);
    if MaskBit(data.mask, i, j) {
      v := !v;
    }
    ghost var before := ds.raw[..];
    if v {
      ds.raw[bytepos] := Or(ds.raw[bytepos], Mask(bitpos));
    }
    ReadsNext(before, ds.raw[..], code.Grid(), data.mask, path, ds.dataBits, v);
    ds.dataBits := ds.dataBits + 1;
  }

  /** Reads the cell in row i and column j unless it is reserved. */
  method ReadCell(code: Code, data: QuircData, ds: DataStream, i: int, j: int, ghost path: seq<Cell>)
    requires code.Valid() && ds.Valid() && 0 <= code.size <= MAX_GRID_SIZE && code.cellBitmap != ds.raw
    requires 0 <= i < code.size && 0 <= j < code.size && 1 <= data.version <= 40
    requires ds.dataBits <= |path| <= 8 * MAX_PAYLOAD
    requires !Taken(data.version, Apat(data.version))(j, i) ==> ds.dataBits < |path| && path[ds.dataBits] == Cell(j, i)
    requires HasRead(ds.raw[..], code.Grid(), data.mask, path, ds.dataBits)
    modifies ds`dataBits, ds.raw
    ensures ds.dataBits == old(ds.dataBits) + (if Taken(data.version, Apat(data.version))(j, i) then 0 else 1)
    ensures HasRead(ds.raw[..], code.Grid(), data.mask, path, ds.dataBits)
  {
    hide HasRead, Code.Grid, IsFunctionCell, Apat;
    var reserved := ReservedCell(data.version, i, j);
    if !reserved {
      ReadBit(code, data, ds, i, j, path);
    }
  }

  lemma PathFits(version: nat)
    requires 1 <= version <= 40
    ensures |DecoderPath(version)| <= 8 * MAX_PAYLOAD
    ensures IsSize(Size(version)) && 21 <= Size(version) <= MAX_GRID_SIZE
  {
    hide AllCells, Apat, Taken;
    AllCellsAtMost(Taken(version, Apat(version)), Size(version));
    SquareAtMost(Size(version));
  }

  lemma SquareAtMost(n: nat)
    requires n <= 177
    ensures n * n <= 31329
  {
    Times(n, 177, n);
    Times(n, 177, 177);
  }

  lemma NothingReadYet(raw: seq<bv8>, g: Grid, mask: nat, path: seq<Cell>)
    requires forall i | 0 <= i < |raw| :: raw[i] == 0
    ensures HasRead(raw, g, mask, path, 0)
  {
    hide CellValue;
    forall k | 0 <= k < 8 * |raw| ensures !Bits(raw)[k] {
      Bytes.ZeroBits(k % 8);
    }
  }

  /** Walks over the symbol and reads every cell that is not reserved. */
  method ReadData(code: Code, data: QuircData, ds: DataStream)
    requires code.Valid() && ds.Valid() && code.cellBitmap != ds.raw
    requires 1 <= data.version <= 40 && code.size == Size(data.version) && code.size <= MAX_GRID_SIZE
    requires ds.dataBits == 0 && forall i | 0 <= i < ds.raw.Length :: ds.raw[i] == 0
    modifies ds`dataBits, ds.raw
    ensures ds.dataBits == |DecoderPath(data.version)|
    ensures HasRead(ds.raw[..], code.Grid(), data.mask, DecoderPath(data.version), ds.dataBits)
  {
    hide HasRead, Code.Grid, Taken, Apat, AllCells, VisitedCount, RightOf, RightBefore, Pairs, IsSize, Size,
        DirectionAgrees;
    ghost var size: nat, version: nat := code.size, data.version;
    ghost var taken, path := Taken(version, Apat(version)), DecoderPath(version);
    PathFits(version);
    NothingReadYet(ds.raw[..], code.Grid(), data.mask, path);
    WalkFacts(taken, size, 0, 0);
    RightCounter(size, 0);
    var y := code.size - 1;
    var x := code.size - 1;
    var dir := -1;
    ghost var c, v := 0, 0;
    while x > 0
      invariant c <= Pairs(size) && 0 <= v < size
      invariant x == (if v == 0 then RightBefore(size, c) else RightOf(size, c)) && (v > 0 ==> c < Pairs(size))
      invariant y == RowOf(size, c, v) && dir == if c % 2 == 0 then -1 else 1
      invariant ds.dataBits == VisitedCount(taken, size, c, v, 0) <= |path|
      invariant HasRead(ds.raw[..], code.Grid(), data.mask, path, ds.dataBits)
      decreases Pairs(size) - c, size - v
    {
      RightCounter(size, c);
      if x == 6 {
        x := x - 1;
      }
      NextCell(taken, size, c, v, 0);
      ReadCell(code, data, ds, y, x, path);
      NextCell(taken, size, c, v, 1);
      ReadCell(code, data, ds, y, x - 1, path);
      WalkFacts(taken, size, c, v);
      y := y + dir;
      v := v + 1;
      if y < 0 || y >= code.size {
        dir := -dir;
        x := x - 2;
        y := y + dir;
        WalkFacts(taken, size, c, v);
        c, v := c + 1, 0;
      }
    }
    RightCounter(size, c);
    WalkFacts(taken, size, c, 0);
  }
}
