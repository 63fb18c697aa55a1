/** The encoder's block splitting, check bytes and interleaving. */
module Interleaver {
  import opened Versions
  import opened Layouts
  import opened BlockCode
  import ReedSolomon

  /** The blocks of a data string: codewords that start with consecutive pieces of the data. */
  ghost predicate AreBlocks(l: Layout, data: seq<bv8>, blocks: seq<seq<bv8>>, n: nat)
    requires l.Valid() && n <= l.nb && |data| == l.DataTotal()
    ensures AreBlocks(l, data, blocks, n) ==>
              |blocks| == n && forall i | 0 <= i < n :: |blocks[i]| == l.BlockLen(i)
  {
    && |blocks| == n
    && forall i | 0 <= i < n :: IsBlock(l, data, blocks[i], i)
  }

  ghost predicate IsBlock(l: Layout, data: seq<bv8>, block: seq<bv8>, i: nat)
    requires l.Valid() && i < l.nb && |data| == l.DataTotal()
  {
    DataStartStep(l, i);
    && |block| == l.BlockLen(i)
    && block[..l.DataLen(i)] == data[l.DataStart(i)..l.DataStart(i + 1)]
    && IsCodeword(block, l.ec)
  }

  /** Every byte of every block is where the layout says. */
  ghost predicate Interleaves(l: Layout, s: seq<bv8>, blocks: seq<seq<bv8>>)
    requires l.Valid()
  {
    && |s| == l.Total() && |blocks| == l.nb
    && forall i | 0 <= i < l.nb :: PlacedBlock(l, s, i) == blocks[i]
  }

  // ----- reading the padded blocks column by column

  /** The blocks as the encoder holds them: short ones have a padding byte after the data. */
  ghost function Padded(l: Layout, block: seq<bv8>, i: nat): (p: seq<bv8>)
    requires |block| == l.BlockLen(i)
    ensures |p| == l.dw + 1 + l.ec
  {
    if i < l.ns then block[..l.dw] + [0] + block[l.dw..] else block
  }

  ghost predicate ArePadded(l: Layout, padded: seq<seq<bv8>>) {
    |padded| == l.nb && forall i | 0 <= i < l.nb :: |padded[i]| == l.dw + 1 + l.ec
  }

  /** Column c of the first m blocks, without the padding. */
  ghost function Row(l: Layout, padded: seq<seq<bv8>>, c: nat, m: nat): seq<bv8>
    requires ArePadded(l, padded) && m <= l.nb && c < l.dw + 1 + l.ec
  {
    if m == 0 then []
    else Row(l, padded, c, m - 1) + (if c != l.dw || m - 1 >= l.ns then [padded[m - 1][c]] else [])
  }

  ghost function Rows(l: Layout, padded: seq<seq<bv8>>, n: nat): seq<bv8>
    requires ArePadded(l, padded) && n <= l.dw + 1 + l.ec
  {
    if n == 0 then [] else Rows(l, padded, n - 1) + Row(l, padded, n - 1, l.nb)
  }

  lemma {:induction false} RowShape(l: Layout, padded: seq<seq<bv8>>, c: nat, m: nat)
    requires ArePadded(l, padded) && m <= l.nb && c < l.dw + 1 + l.ec
    ensures var skip := if c == l.dw then l.ns else 0;
            && |Row(l, padded, c, m)| == (if m < skip then 0 else m - skip)
            && forall i | skip <= i < m :: Row(l, padded, c, m)[i - skip] == padded[i][c]
  {
    if m > 0 {
      RowShape(l, padded, c, m - 1);
    }
  }

  ghost function RowsLen(l: Layout, n: nat): int {
    n * l.nb - (if n > l.dw then l.ns else 0)
  }

  lemma {:induction false} RowsShape(l: Layout, padded: seq<seq<bv8>>, n: nat)
    requires l.Valid() && ArePadded(l, padded) && n <= l.dw + 1 + l.ec
    ensures |Rows(l, padded, n)| == RowsLen(l, n)
  {
    if n > 0 {
      RowsShape(l, padded, n - 1);
      RowShape(l, padded, n - 1, l.nb);
      assert n * l.nb == (n - 1) * l.nb + l.nb;
    }
  }

  /** Where column c of block i ends up. */
  lemma {:induction false} RowsAt(l: Layout, padded: seq<seq<bv8>>, n: nat, c: nat, i: nat)
    requires l.Valid() && ArePadded(l, padded) && c < n <= l.dw + 1 + l.ec && i < l.nb
    requires c != l.dw || i >= l.ns
    ensures var k := RowsLen(l, c) + i - (if c == l.dw then l.ns else 0);
            0 <= k < |Rows(l, padded, n)| && Rows(l, padded, n)[k] == padded[i][c]
  {
    RowsShape(l, padded, n - 1);
    if c == n - 1 {
      RowShape(l, padded, c, l.nb);
    } else {
      RowsAt(l, padded, n - 1, c, i);
    }
  }

  /** The column of the padded block that byte j of block i is in. */
  function ColumnOf(l: Layout, i: nat, j: nat): nat {
    if j < l.dw then j else if j < l.DataLen(i) then l.dw else l.dw + 1 + (j - l.DataLen(i))
  }

  lemma PlaceOfColumn(l: Layout, i: nat, j: nat)
    requires l.Valid() && i < l.nb && j < l.BlockLen(i)
    ensures var c := ColumnOf(l, i, j); l.Place(i, j) == RowsLen(l, c) + i - (if c == l.dw then l.ns else 0)
  {
    if j >= l.DataLen(i) {
      ThreeTimes(l.dw, 1, j - l.DataLen(i), l.nb);
    }
  }

  lemma ThreeTimes(a: int, b: int, c: int, n: int)
    ensures (a + b + c) * n == a * n + b * n + c * n
  {}

  lemma ColumnByte(l: Layout, block: seq<bv8>, i: nat, j: nat)
    requires l.Valid() && i < l.nb && j < l.BlockLen(i) && |block| == l.BlockLen(i)
    ensures var c := ColumnOf(l, i, j);
            c < l.dw + 1 + l.ec && (c != l.dw || i >= l.ns) && Padded(l, block, i)[c] == block[j]
  {}

  lemma RowsPlace(l: Layout, padded: seq<seq<bv8>>, block: seq<bv8>, i: nat, j: nat)
    requires l.Valid() && ArePadded(l, padded) && i < l.nb && j < l.BlockLen(i)
    requires |block| == l.BlockLen(i) && padded[i] == Padded(l, block, i)
    ensures l.Place(i, j) < |Rows(l, padded, l.dw + 1 + l.ec)|
    ensures Rows(l, padded, l.dw + 1 + l.ec)[l.Place(i, j)] == block[j]
  {
    hide Rows, RowsLen, Layout.Place, ColumnOf, Padded;
    PlaceOfColumn(l, i, j);
    ColumnByte(l, block, i, j);
    RowsAt(l, padded, l.dw + 1 + l.ec, ColumnOf(l, i, j), i);
  }

  lemma RowsInterleave(l: Layout, padded: seq<seq<bv8>>, blocks: seq<seq<bv8>>)
    requires l.Valid() && ArePadded(l, padded) && |blocks| == l.nb
    requires forall i | 0 <= i < l.nb :: |blocks[i]| == l.BlockLen(i) && padded[i] == Padded(l, blocks[i], i)
    ensures Interleaves(l, Rows(l, padded, l.dw + 1 + l.ec), blocks)
  {
    hide Rows, Layout.Place, Padded, Layout.BlockLen, Layout.Total;
    var s := Rows(l, padded, l.dw + 1 + l.ec);
    RowsTotal(l, padded);
    forall i | 0 <= i < l.nb ensures PlacedBlock(l, s, i) == blocks[i] {
      forall j | 0 <= j < l.BlockLen(i) ensures PlacedBlock(l, s, i)[j] == blocks[i][j] {
        RowsPlace(l, padded, blocks[i], i, j);
      }
    }
  }

  lemma RowsTotal(l: Layout, padded: seq<seq<bv8>>)
    requires l.Valid() && ArePadded(l, padded)
    ensures |Rows(l, padded, l.dw + 1 + l.ec)| == l.Total()
  {
    hide Rows;
    RowsShape(l, padded, l.dw + 1 + l.ec);
    ThreeTimes(l.dw, 1, l.ec, l.nb);
  }

  // ----- the program

  /** s is the interleaved codeword string of the data. */
  ghost predicate IsInterleaved(ecl: Ecc, version: nat, data: seq<bv8>, s: seq<bv8>)
    requires 1 <= version <= 40
  {
    && NumBlocks(ecl, version) > 0 && EncoderLayout(ecl, version).Valid()
        && EncoderLayout(ecl, version).DataTotal() == |data|
    && exists blocks :: AreBlocks(EncoderLayout(ecl, version), data, blocks, EncoderLayout(ecl, version).nb)
                        && Interleaves(EncoderLayout(ecl, version), s, blocks)
  }

  /** The padded blocks of the data. */
  ghost predicate SplitsInto(l: Layout, data: seq<bv8>, padded: seq<seq<bv8>>, blocks: seq<seq<bv8>>, n: nat)
    requires l.Valid() && n <= l.nb && |data| == l.DataTotal()
  {
    && AreBlocks(l, data, blocks, n)
    && |padded| == n && forall b | 0 <= b < n :: padded[b] == Padded(l, blocks[b], b)
  }

  method AddEccAndInterleave(data: seq<bv8>, ecl: Ecc, ver: nat) returns (result: seq<bv8>)
    requires 1 <= ver <= 40 && |data| == NumDataCodewords(ecl, ver)
    ensures IsInterleaved(ecl, ver, data, result)
    ensures |result| == RawDataModules(ver) / 8
  {
    hide *;
    LayoutsAgree(ecl, ver);
    EncoderLayoutParts(ecl, ver);
    var numBlocks := NumBlocks(ecl, ver);
    var blockEccLen := EccPerBlock(ecl, ver);
    var rawCodewords := RawDataModules(ver) / 8;
    var numShortBlocks := numBlocks - rawCodewords % numBlocks;
    var shortBlockLen := rawCodewords / numBlocks;
    var l := Layout(numBlocks, numShortBlocks, shortBlockLen - blockEccLen, blockEccLen);
    assert l == EncoderLayout(ecl, ver);
    var padded := SplitIntoBlocks(data, l);
    ghost var blocks :| SplitsInto(l, data, padded, blocks, l.nb);
    SplitFacts(l, data, padded, blocks);
    result := InterleaveBlocks(padded, l, blocks);
    Interleaved(ecl, ver, data, result, blocks);
  }

  lemma SplitFacts(l: Layout, data: seq<bv8>, padded: seq<seq<bv8>>, blocks: seq<seq<bv8>>)
    requires l.Valid() && |data| == l.DataTotal() && SplitsInto(l, data, padded, blocks, l.nb)
    ensures |padded| == |blocks| == l.nb && AreBlocks(l, data, blocks, l.nb)
    ensures forall b | 0 <= b < l.nb :: |blocks[b]| == l.BlockLen(b) && padded[b] == Padded(l, blocks[b], b)
  {
    hide IsBlock, Padded;
  }

  lemma Interleaved(ecl: Ecc, version: nat, data: seq<bv8>, s: seq<bv8>, blocks: seq<seq<bv8>>)
    requires 1 <= version <= 40 && |data| == NumDataCodewords(ecl, version)
    requires NumBlocks(ecl, version) > 0 && EncoderLayout(ecl, version).Valid()
    requires EncoderLayout(ecl, version).DataTotal() == |data|
    requires AreBlocks(EncoderLayout(ecl, version), data, blocks, EncoderLayout(ecl, version).nb)
    requires Interleaves(EncoderLayout(ecl, version), s, blocks)
    ensures IsInterleaved(ecl, version, data, s)
    ensures |s| == RawDataModules(version) / 8
  {
    hide EncoderLayout, RawDataModules, NumBlocks, AreBlocks, DecoderLayout, VersionDb, NumDataCodewords;
    LayoutsAgree(ecl, version);
  }

  /** Cuts the data into blocks and appends the check bytes to each. */
  method SplitIntoBlocks(data: seq<bv8>, l: Layout) returns (padded: seq<seq<bv8>>)
    requires l.Valid() && |data| == l.DataTotal()
    ensures exists blocks :: SplitsInto(l, data, padded, blocks, l.nb)
  {
    hide IsCodeword, Padded;
    padded := [];
    ghost var blocks := [];
    var rsDiv := ReedSolomon.ComputeDivisor(l.ec);
    var k := 0;
    for i := 0 to l.nb
      invariant IsCodeword([1] + rsDiv[..], l.ec)
      invariant k == l.DataStart(i)
      invariant SplitsInto(l, data, padded, blocks, i)
    {
      DataStartStep(l, i);
      var dat := data[k..k + l.dw + (if i < l.ns then 0 else 1)];
      k := k + |dat|;
      var ecc := ReedSolomon.ComputeRemainder(dat, rsDiv);
      ghost var block := dat + ecc[..];
      assert IsBlock(l, data, block, i);
      PaddedDef(l, dat, ecc[..], i);
      if i < l.ns {
        dat := dat + [0];
      }
      dat := dat + ecc[..];
      padded := padded + [dat];
      blocks := blocks + [block];
    }
  }

  lemma PaddedDef(l: Layout, dat: seq<bv8>, ecc: seq<bv8>, i: nat)
    requires |dat| == l.DataLen(i) && |ecc| == l.ec
    ensures Padded(l, dat + ecc, i) == if i < l.ns then dat + [0] + ecc else dat + ecc
  {
    if i < l.ns {
      assert (dat + ecc)[..l.dw] == dat && (dat + ecc)[l.dw..] == ecc;
    }
  }

  /** Reads the padded blocks column by column, skipping the padding. */
  method InterleaveBlocks(padded: seq<seq<bv8>>, l: Layout, ghost blocks: seq<seq<bv8>>) returns (result: seq<bv8>)
    requires l.Valid() && |padded| == |blocks| == l.nb
    requires forall b | 0 <= b < l.nb :: |blocks[b]| == l.BlockLen(b) && padded[b] == Padded(l, blocks[b], b)
    ensures Interleaves(l, result, blocks)
  {
    hide Interleaves;
    result := [];
    for i := 0 to |padded[0]|
      invariant result == Rows(l, padded, i)
    {
      for j := 0 to |padded|
        invariant result == Rows(l, padded, i) + Row(l, padded, i, j)
      {
        if i != l.dw || j >= l.ns {
          result := result + [padded[j][i]];
        }
      }
    }
    RowsInterleave(l, padded, blocks);
  }
}
