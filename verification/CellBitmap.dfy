/** The decoder's bitmap of cells: one bit a cell, row by row, the lowest bit of a byte first. */
module CellBitmap {
  import opened Grids
  import opened Bytes

  const MAX_GRID_SIZE: nat := 177
  const MAX_BITMAP: nat := 3917

  function ShiftDown(b: bv8): bv8 { b >> (1 as bv8) }

  function ShiftUp(b: bv8): bv8 { b << (1 as bv8) }

  predicate Low(b: bv8) { b & 1 == 1 }

  /** Bit k of b, counted from the low end. */
  predicate LowBit(b: bv8, k: nat)
    decreases k
  {
    if k == 0 then Low(b) else LowBit(ShiftDown(b), k - 1)
  }

  function LowMask(k: nat): bv8 {
    if k == 0 then 1 else ShiftUp(LowMask(k - 1))
  }

  lemma LowMasks()
    ensures LowMask(0) == 0x01 && LowMask(1) == 0x02 && LowMask(2) == 0x04 && LowMask(3) == 0x08
    ensures LowMask(4) == 0x10 && LowMask(5) == 0x20 && LowMask(6) == 0x40 && LowMask(7) == 0x80
  {}

  lemma ShiftDownOr(a: bv8, b: bv8)
    ensures ShiftDown(Or(a, b)) == Or(ShiftDown(a), ShiftDown(b)) && Low(Or(a, b)) == (Low(a) || Low(b))
    ensures !Low(0) && ShiftDown(0) == 0
  {}

  lemma ShiftDownMask(p: nat)
    requires p < 8
    ensures ShiftDown(LowMask(p)) == if p == 0 then 0 else LowMask(p - 1)
    ensures Low(LowMask(p)) == (p == 0)
  {
    LowMasks();
  }

  lemma {:induction false} OrLowBits(a: bv8, b: bv8, k: nat)
    ensures LowBit(Or(a, b), k) == (LowBit(a, k) || LowBit(b, k))
    decreases k
  {
    hide ShiftDown, Low, Or;
    ShiftDownOr(a, b);
    if k > 0 {
      OrLowBits(ShiftDown(a), ShiftDown(b), k - 1);
    }
  }

  lemma {:induction false} ZeroLowBits(k: nat)
    ensures !LowBit(0, k)
  {
    hide ShiftDown, Low;
    ShiftDownOr(0, 0);
    if k > 0 {
      ZeroLowBits(k - 1);
    }
  }

  lemma {:induction false} LowMaskBits(p: nat, q: nat)
    requires p < 8
    ensures LowBit(LowMask(p), q) == (p == q)
    decreases p
  {
    hide ShiftDown, Low, LowMask;
    ShiftDownMask(p);
    if p == 0 && q > 0 {
      ZeroLowBits(q - 1);
    } else if q > 0 {
      LowMaskBits(p - 1, q - 1);
    }
  }

  lemma SetLowBit(b: bv8, p: nat, q: nat)
    requires p < 8
    ensures LowBit(Or(b, LowMask(p)), q) == (p == q || LowBit(b, q))
  {
    hide *;
    OrLowBits(b, LowMask(p), q);
    LowMaskBits(p, q);
  }

  predicate CellBit(bitmap: seq<bv8>, p: int)
    requires 0 <= p < 8 * |bitmap|
  {
    LowBit(bitmap[p / 8], p % 8)
  }

  /** The number of the cell in column x and row y. */
  function CellNumber(size: nat, x: int, y: int): int {
    y * size + x
  }

  /** The grid that a bitmap stands for. */
  ghost function CodeGrid(bitmap: seq<bv8>, size: nat): (g: Grid)
    requires size <= MAX_GRID_SIZE && |bitmap| == MAX_BITMAP
    ensures IsSquare(g, size)
    ensures forall x, y | 0 <= x < size && 0 <= y < size ::
              0 <= CellNumber(size, x, y) < 8 * |bitmap| && At(g, x, y) == CellBit(bitmap, CellNumber(size, x, y))
  {
    AllNumbers(size);
    seq(size, y requires 0 <= y < size =>
      seq(size, x requires 0 <= x < size => CellBit(bitmap, CellNumber(size, x, y))))
  }

  lemma AllNumbers(size: nat)
    requires size <= MAX_GRID_SIZE
    ensures forall x, y | 0 <= x < size && 0 <= y < size :: 0 <= CellNumber(size, x, y) < 8 * MAX_BITMAP
  {
    forall x, y | 0 <= x < size && 0 <= y < size ensures 0 <= CellNumber(size, x, y) < 8 * MAX_BITMAP {
      NumberBounds(size, x, y);
    }
  }

  lemma NumberBounds(size: nat, x: int, y: int)
    requires 0 <= x < size <= MAX_GRID_SIZE && 0 <= y < size
    ensures 0 <= CellNumber(size, x, y) < 8 * MAX_BITMAP
    ensures CellNumber(size, x + 1, y) == CellNumber(size, x, y) + 1
  {
    Times(y + 1, size, size);
    assert (y + 1) * size == y * size + size;
    Times(size, MAX_GRID_SIZE, size);
    Times(size, MAX_GRID_SIZE, MAX_GRID_SIZE);
    assert MAX_GRID_SIZE * size == size * MAX_GRID_SIZE;
  }

  lemma Times(a: int, b: int, c: int)
    requires a <= b && c >= 0
    ensures a * c <= b * c
  {}

  /** Different cells have different numbers, in reading order. */
  lemma NumberOrder(size: nat, x: int, y: int, cx: int, cy: int)
    requires 0 <= x < size && 0 <= cx < size && (cy < y || (cy == y && cx < x))
    ensures CellNumber(size, cx, cy) < CellNumber(size, x, y)
  {
    if cy < y {
      Times(cy + 1, y, size);
      assert (cy + 1) * size == cy * size + size;
    }
  }

  /** A code read off an image. */
  class Code {
    const size: int
    const cellBitmap: array<bv8>

    ghost predicate Valid() {
      cellBitmap.Length == MAX_BITMAP
    }

    /** The grid of the code, if it is not too large. */
    ghost function Grid(): Grid
      requires Valid() && 0 <= size <= MAX_GRID_SIZE
      reads cellBitmap
    {
      CodeGrid(cellBitmap[..], size)
    }

    method GridBit(x: int, y: int) returns (bit: bool)
      requires Valid() && 0 <= size <= MAX_GRID_SIZE && 0 <= x < size && 0 <= y < size
      ensures bit == At(Grid(), x, y)
    {
      NumberBounds(size, x, y);
      assert At(Grid(), x, y) == CellBit(cellBitmap[..], CellNumber(size, x, y));
      var p := y * size + x;
      bit := LowBit(cellBitmap[p / 8], p % 8);
    }

    /** The code of a sampled grid: sets a bit for every dark cell, in reading order. */
    constructor (size: int, cells: Grid)
      requires size >= 0 ==> IsSquare(cells, size)
      ensures Valid() && this.size == size
      ensures 0 <= size <= MAX_GRID_SIZE ==> Grid() == cells
    {
      hide LowBit, LowMask, Or, CellBit, At, IsSquare, CodeGrid, CellNumber;
      this.size := size;
      cellBitmap := new bv8[MAX_BITMAP](i => 0);
      new;
      if size < 0 || size > MAX_GRID_SIZE {
        return;
      }
      EmptyGrid(cellBitmap[..], size);
      var i := 0;
      for y := 0 to size
        invariant i == CellNumber(size, 0, y)
        invariant forall cx, cy | 0 <= cx < size && 0 <= cy < size ::
                    At(CodeGrid(cellBitmap[..], size), cx, cy) == (cy < y && At(cells, cx, cy))
      {
        for x := 0 to size
          invariant i == CellNumber(size, x, y)
          invariant forall cx, cy | 0 <= cx < size && 0 <= cy < size ::
                      At(CodeGrid(cellBitmap[..], size), cx, cy) == ((cy < y || (cy == y && cx < x))
                          && At(cells, cx, cy))
        {
          NumberBounds(size, x, y);
          if At(cells, x, y) {
            ghost var before := cellBitmap[..];
            cellBitmap[i / 8] := Or(cellBitmap[i / 8], LowMask(i % 8));
            GridSet(before, cellBitmap[..], size, x, y);
          }
          i := i + 1;
        }
        EndOfRow(size, y);
      }
      SameGrid(CodeGrid(cellBitmap[..], size), cells, size);
    }
  }

  lemma EmptyGrid(bitmap: seq<bv8>, size: nat)
    requires size <= MAX_GRID_SIZE && |bitmap| == MAX_BITMAP && forall i | 0 <= i < |bitmap| :: bitmap[i] == 0
    ensures CellNumber(size, 0, 0) == 0
    ensures forall x, y | 0 <= x < size && 0 <= y < size :: !At(CodeGrid(bitmap, size), x, y)
  {
    hide LowBit, At;
    forall x, y | 0 <= x < size && 0 <= y < size ensures !At(CodeGrid(bitmap, size), x, y) {
      ZeroLowBits(CellNumber(size, x, y) % 8);
    }
  }

  lemma EndOfRow(size: nat, y: nat)
    ensures CellNumber(size, size, y) == CellNumber(size, 0, y + 1)
  {}

  lemma BitSet(before: seq<bv8>, after: seq<bv8>, i: nat, k: nat)
    requires i < 8 * |before| && k < 8 * |before| && after == before[i / 8 := Or(before[i / 8], LowMask(i % 8))]
    ensures CellBit(after, k) == (k == i || CellBit(before, k))
  {
    hide LowBit, LowMask, Or;
    if i / 8 == k / 8 {
      SetLowBit(before[i / 8], i % 8, k % 8);
    }
  }

  lemma GridSet(before: seq<bv8>, after: seq<bv8>, size: nat, x: int, y: int)
    requires 0 <= x < size <= MAX_GRID_SIZE && 0 <= y < size && |before| == MAX_BITMAP
    requires 0 <= CellNumber(size, x, y) < 8 * MAX_BITMAP
    requires after == before[CellNumber(size, x, y) / 8 :=
                               Or(before[CellNumber(size, x, y) / 8], LowMask(CellNumber(size, x, y) % 8))]
    ensures forall cx, cy | 0 <= cx < size && 0 <= cy < size ::
              At(CodeGrid(after, size), cx, cy) == ((cx == x && cy == y) || At(CodeGrid(before, size), cx, cy))
  {
    hide LowBit, LowMask, Or, CellBit, At, CellNumber;
    forall cx, cy | 0 <= cx < size && 0 <= cy < size
      ensures At(CodeGrid(after, size), cx, cy) == ((cx == x && cy == y) || At(CodeGrid(before, size), cx, cy))
    {
      NumberBounds(size, cx, cy);
      BitSet(before, after, CellNumber(size, x, y), CellNumber(size, cx, cy));
      if cy < y || (cy == y && cx < x) {
        NumberOrder(size, x, y, cx, cy);
      } else if y < cy || (cy == y && x < cx) {
        NumberOrder(size, cx, cy, x, y);
      }
    }
  }
}
