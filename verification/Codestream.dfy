/** The decoder's data stream, and the step that recovers the data string from the raw bytes. */
module Codestream {
  import opened Versions
  import opened Layouts
  import opened BlockCode
  import opened BlockCorrection
  import opened Interleaver
  import opened Results

  // ----- what the step recovers

  /** The data bytes of the first n blocks, in order. */
  ghost function DataOf(l: Layout, blocks: seq<seq<bv8>>, n: nat): seq<bv8>
    requires n <= |blocks| && forall k | 0 <= k < n :: |blocks[k]| == l.BlockLen(k)
  {
    if n == 0 then [] else
      assert |blocks[n - 1]| == l.BlockLen(n - 1);
      DataOf(l, blocks, n - 1) + blocks[n - 1][..l.DataLen(n - 1)]
  }

  /** The blocks are codewords, and what the decoder collects for each of them differs from it in
      at most half as many bytes as it has check bytes. */
  ghost predicate Near(l: Layout, raw: seq<bv8>, blocks: seq<seq<bv8>>)
    requires l.Valid()
  {
    && |raw| >= l.Total() && |blocks| == l.nb
    && forall i | 0 <= i < l.nb :: NearBlock(l, raw, blocks[i], i)
  }

  ghost predicate NearBlock(l: Layout, raw: seq<bv8>, block: seq<bv8>, i: nat)
    requires l.Valid() && i < l.nb && |raw| >= l.Total()
  {
    && |block| == l.BlockLen(i) && IsCodeword(block, l.ec)
    && 2 * Distance(CollectedBlock(l, raw, i), block) <= l.ec
  }

  /** What the decoder makes of block i: what it collects for it, corrected. */
  ghost function FixedBlock(l: Layout, raw: seq<bv8>, i: nat): (r: seq<bv8>)
    requires l.Valid() && i < l.nb && |raw| >= l.Total()
    ensures |r| == l.BlockLen(i)
  {
    BlockFits(l, i);
    Corrected(CollectedBlock(l, raw, i), l.ec)
  }

  ghost function FixedBlocks(l: Layout, raw: seq<bv8>): (blocks: seq<seq<bv8>>)
    requires l.Valid() && |raw| >= l.Total()
    ensures |blocks| == l.nb && forall i | 0 <= i < l.nb :: |blocks[i]| == l.BlockLen(i)
  {
    seq(l.nb, i requires 0 <= i < l.nb => FixedBlock(l, raw, i))
  }

  ghost predicate AllFixed(l: Layout, raw: seq<bv8>)
    requires l.Valid() && |raw| >= l.Total()
  {
    forall i | 0 <= i < l.nb :: IsCodeword(FixedBlock(l, raw, i), l.ec)
  }

  /** The step succeeds if every corrected block is a codeword, and then their data bytes, in order, are
      at the front of the data. */
  ghost predicate Recovered(l: Layout, raw: seq<bv8>, success: bool, data: seq<bv8>)
    requires l.Valid() && |raw| >= l.Total() && l.DataTotal() <= |data|
  {
    && success == AllFixed(l, raw)
    && (success ==> data[..l.DataTotal()] == DataOf(l, FixedBlocks(l, raw), l.nb))
  }

  ghost predicate IsDecoderLayout(l: Layout) {
    l.Valid() && l.Total() <= MAX_PAYLOAD && l.DataTotal() <= MAX_PAYLOAD
  }

  /** Blocks near what was collected are recovered. */
  lemma NearIsFixed(l: Layout, raw: seq<bv8>, blocks: seq<seq<bv8>>)
    requires l.Valid() && Near(l, raw, blocks)
    ensures AllFixed(l, raw) && blocks == FixedBlocks(l, raw)
  {
    hide IsCodeword, CollectedBlock, Distance, Corrected, Layout.BlockLen, Layout.Total;
    forall i | 0 <= i < l.nb ensures IsCodeword(FixedBlock(l, raw, i), l.ec) && blocks[i] == FixedBlock(l, raw, i) {
      assert NearBlock(l, raw, blocks[i], i);
      BlockFits(l, i);
      CorrectedRepairs(CollectedBlock(l, raw, i), l.ec);
    }
  }

  class DataStream {
    var raw: array<bv8>
    const data: array<bv8>
    var dataBits: nat
    var ptr: nat

    ghost predicate Valid()
      reads this
    {
      raw.Length == data.Length == MAX_PAYLOAD && raw != data
    }

    constructor (raw: array<bv8>)
      requires raw.Length == MAX_PAYLOAD
      ensures Valid() && this.raw == raw && fresh(data) && dataBits == 0 && ptr == 0
      ensures forall i | 0 <= i < MAX_PAYLOAD :: data[i] == 0
    {
      this.raw := raw;
      data := new bv8[MAX_PAYLOAD](i => 0);
      dataBits := 0;
      ptr := 0;
    }

    /** Copies block i from raw to data[at..]. */
    method CollectBlock(l: Layout, i: nat, at: nat)
      requires Valid() && l.Valid() && i < l.nb && l.Total() <= MAX_PAYLOAD
      requires at + l.BlockLen(i) <= MAX_PAYLOAD
      modifies data
      ensures data[..at] == old(data[..at])
      ensures data[at..at + l.BlockLen(i)] == CollectedBlock(l, raw[..], i)
    {
      hide Layout.Total, Layout.DataLen, Layout.ReadPlace, Layout.CheckStart, CollectedBlock;
      ghost var received := raw[..];
      var dw := l.DataLen(i);
      var eccOffset := l.dw * l.nb + (l.nb - l.ns);
      for j := 0 to dw
        invariant raw[..] == received
        invariant forall k | 0 <= k < at :: data[k] == old(data[k])
        invariant forall k | 0 <= k < j :: data[at + k] == CollectedBlock(l, received, i)[k]
      {
        CollectedAt(l, received, i, j);
        data[at + j] := raw[j * l.nb + i];
      }
      for j := 0 to l.ec
        invariant raw[..] == received
        invariant forall k | 0 <= k < at :: data[k] == old(data[k])
        invariant forall k | 0 <= k < dw + j :: data[at + k] == CollectedBlock(l, received, i)[k]
      {
        CollectedAt(l, received, i, dw + j);
        data[at + dw + j] := raw[eccOffset + j * l.nb + i];
      }
    }

    /** Collects and corrects block i at data[at..]. */
    method FixBlock(l: Layout, i: nat, at: nat) returns (outcome: DecodeError)
      requires Valid() && l.Valid() && i < l.nb && l.Total() <= MAX_PAYLOAD
      requires at == l.DataStart(i) && at + l.BlockLen(i) <= MAX_PAYLOAD
      modifies data
      ensures outcome == Success || outcome == DataEcc
      ensures data[..at] == old(data[..at])
      ensures data[at..at + l.BlockLen(i)] == FixedBlocks(l, raw[..])[i]
      ensures outcome.Success? <==> IsCodeword(FixedBlocks(l, raw[..])[i], l.ec)
    {
      hide Corrected, IsCodeword, CollectedBlock, FixedBlocks, DataOf, Layout.Valid, Layout.DataStart, Layout.DataLen,
        Layout.BlockLen, Layout.Total;
      BlockFits(l, i);
      ghost var before := data[..at];
      CollectBlock(l, i, at);
      NextBlock(l, raw[..], i);
      outcome := CorrectBlock(data, at, l.BlockLen(i), l.DataLen(i));
      assert data[..at] == before;
    }

    /** Collects every block from raw, corrects it, and packs the data bytes into data. Each block
        is written over the check bytes of the one before. */
    method CodestreamEcc(version: nat, eccLevel: nat) returns (outcome: DecodeError)
      requires Valid() && 1 <= version <= 40 && eccLevel < 4
      modifies this`dataBits, data
      ensures outcome == Success || outcome == DataEcc
      ensures Valid() && raw[..] == old(raw[..])
      ensures IsDecoderLayout(DecoderLayout(eccLevel, version))
      ensures Recovered(DecoderLayout(eccLevel, version), raw[..], outcome.Success?, data[..])
      ensures dataBits == if outcome.Success? then 8 * DecoderLayout(eccLevel, version).DataTotal() else old(dataBits)
    {
      hide Corrected, DataOf, IsCodeword, CollectedBlock, DecoderLayout, VersionDb, FixedBlock, FixedBlocks, AllFixed,
        Recovered, IsDecoderLayout, Layout.Valid, Layout.DataStart, Layout.DataLen, Layout.BlockLen, Layout.DataTotal,
        Layout.Total;
      DecoderLayoutFits(eccLevel, version);
      var l := DecoderLayout(eccLevel, version);
      LayoutLimits(l);
      ghost var received := raw[..];
      ghost var blocks := FixedBlocks(l, received);
      var dstOffset := 0;
      Start(l, blocks);
      for i := 0 to l.nb
        invariant raw[..] == received
        invariant dstOffset == l.DataStart(i) <= MAX_PAYLOAD
        invariant data[..dstOffset] == DataOf(l, blocks, i)
        invariant forall k | 0 <= k < i :: IsCodeword(blocks[k], l.ec)
        modifies data
      {
        BlockFits(l, i);
        var dw := l.DataLen(i);
        outcome := FixBlock(l, i, dstOffset);
        if outcome.DataEcc? {
          NotAllFixed(l, received, i, data[..]);
          return;
        }
        Pieces(data, dstOffset, dw + l.ec, dw);
        NextBlock(l, received, i);
        dstOffset := dstOffset + dw;
      }
      dataBits := dstOffset * 8;
      assert data[..][..dstOffset] == data[..dstOffset];
      AllAreFixed(l, received, data[..]);
      outcome := Success;
    }
  }

  lemma LayoutLimits(l: Layout)
    requires IsDecoderLayout(l)
    ensures l.Valid() && l.Total() <= MAX_PAYLOAD && l.DataTotal() <= MAX_PAYLOAD
  {
    hide Layout.Valid, Layout.Total, Layout.DataTotal;
  }

  /** Block i is corrected, and its data bytes follow those of the blocks before it. */
  lemma NextBlock(l: Layout, raw: seq<bv8>, i: nat)
    requires l.Valid() && i < l.nb && |raw| >= l.Total()
    ensures |CollectedBlock(l, raw, i)| == l.BlockLen(i) <= 255
    ensures FixedBlocks(l, raw)[i] == Corrected(CollectedBlock(l, raw, i), l.ec)
    ensures DataOf(l, FixedBlocks(l, raw), i + 1) ==
            DataOf(l, FixedBlocks(l, raw), i) + FixedBlocks(l, raw)[i][..l.DataLen(i)]
  {
    hide Corrected, CollectedBlock, Layout.BlockLen, Layout.DataLen;
    BlockFits(l, i);
  }

  lemma NotAllFixed(l: Layout, raw: seq<bv8>, i: nat, data: seq<bv8>)
    requires l.Valid() && i < l.nb && |raw| >= l.Total() && l.DataTotal() <= |data|
    requires !IsCodeword(FixedBlocks(l, raw)[i], l.ec)
    ensures Recovered(l, raw, false, data)
  {
    hide FixedBlock, IsCodeword, DataOf, Layout.DataTotal, Layout.Total, Layout.BlockLen;
  }

  lemma AllAreFixed(l: Layout, raw: seq<bv8>, data: seq<bv8>)
    requires l.Valid() && |raw| >= l.Total() && l.DataTotal() <= |data|
    requires data[..l.DataTotal()] == DataOf(l, FixedBlocks(l, raw), l.nb)
    requires forall i | 0 <= i < l.nb :: IsCodeword(FixedBlocks(l, raw)[i], l.ec)
    ensures Recovered(l, raw, true, data)
  {
    hide FixedBlock, IsCodeword, DataOf, Layout.DataTotal, Layout.Total, Layout.BlockLen;
    forall i | 0 <= i < l.nb ensures IsCodeword(FixedBlock(l, raw, i), l.ec) {
      assert FixedBlocks(l, raw)[i] == FixedBlock(l, raw, i);
    }
  }

  /** Where the decoder finds byte j of block i. */
  lemma CollectedAt(l: Layout, s: seq<bv8>, i: nat, j: nat)
    requires l.Valid() && i < l.nb && |s| >= l.Total() && j < l.BlockLen(i)
    ensures var k := if j < l.DataLen(i) then j * l.nb + i
                     else l.dw * l.nb + (l.nb - l.ns) + (j - l.DataLen(i)) * l.nb + i;
            0 <= k < |s| && CollectedBlock(l, s, i)[j] == s[k]
  {
    hide Layout.Total;
    PlaceBounds(l, i, j);
  }

  lemma Pieces(a: array<bv8>, at: nat, len: nat, n: nat)
    requires at + len <= a.Length && n <= len
    ensures a[..at + n] == a[..at] + a[at..at + len][..n]
  {}

  lemma DecoderLayoutFits(level: nat, ver: nat)
    requires 1 <= ver <= 40 && level < 4
    ensures IsDecoderLayout(DecoderLayout(level, ver))
  {
    hide DecoderLayout, EncoderLayout, VersionDb, RawDataModules, NumBlocks;
    var ecl := if level == 0 then Medium else if level == 1 then Low else if level == 2 then High else Quartile;
    LayoutsAgree(ecl, ver);
    BlockFits(EncoderLayout(ecl, ver), 0);
  }

  /** A block fits in what is left of the data behind the ones before it. */
  lemma BlockFits(l: Layout, i: nat)
    requires l.Valid() && i < l.nb
    ensures l.DataStart(i + 1) == l.DataStart(i) + l.DataLen(i)
    ensures l.DataStart(i) + l.BlockLen(i) <= l.Total() && l.DataTotal() <= l.Total()
    ensures l.BlockLen(i) == l.DataLen(i) + l.ec <= 255 && l.ec < 64
  {
    DataStartStep(l, i);
    MulMonotone(1, l.nb, l.ec);
  }

  lemma Start(l: Layout, blocks: seq<seq<bv8>>)
    requires |blocks| == l.nb && forall k | 0 <= k < l.nb :: |blocks[k]| == l.BlockLen(k)
    ensures l.DataStart(0) == 0 && l.DataTotal() == l.DataStart(l.nb) && DataOf(l, blocks, 0) == []
  {}

  // ----- the encoder's interleaving is near enough

  /** Changing one byte changes the distance by at most one. */
  lemma {:induction false} DistanceOneChange(a: seq<bv8>, b: seq<bv8>, c: seq<bv8>, d: nat)
    requires |a| == |b| == |c| && forall j | 0 <= j < |a| && j != d :: a[j] == b[j]
    ensures Distance(a, c) <= Distance(b, c) + 1
    ensures d >= |a| ==> Distance(a, c) == Distance(b, c)
  {
    if d >= |a| {
      assert a == b;
    } else if d == 0 {
      assert a[1..] == b[1..];
    } else {
      DistanceOneChange(a[1..], b[1..], c[1..], d - 1);
    }
  }

  /** The bytes of block i that were damaged. */
  ghost function Damage(l: Layout, s: seq<bv8>, block: seq<bv8>, i: nat): nat
    requires l.Valid() && i < l.nb && |s| >= l.Total() && |block| == l.BlockLen(i)
  {
    Distance(PlacedBlock(l, s, i), block)
  }

  /** What the decoder collects has at most one more wrong byte than was damaged, and that only in
      the long blocks. */
  lemma CollectedDistance(l: Layout, s: seq<bv8>, block: seq<bv8>, i: nat)
    requires l.Valid() && i < l.nb && |s| >= l.Total() && |block| == l.BlockLen(i)
    ensures Distance(CollectedBlock(l, s, i), block) <= Damage(l, s, block, i) + (if i < l.ns then 0 else 1)
  {
    var a, b := CollectedBlock(l, s, i), PlacedBlock(l, s, i);
    var d := if i < l.ns then |a| else l.dw;
    forall j | 0 <= j < |a| && j != d ensures a[j] == b[j] {
      CollectedVersusPlaced(l, s, i, j);
    }
    DistanceOneChange(a, b, block, d);
  }

  /** Damage that leaves one correctable error to spare in the long blocks. */
  ghost predicate Tolerable(l: Layout, s: seq<bv8>, blocks: seq<seq<bv8>>)
    requires l.Valid()
  {
    && |s| >= l.Total() && |blocks| == l.nb
    && forall i | 0 <= i < l.nb ::
         |blocks[i]| == l.BlockLen(i) && 2 * (Damage(l, s, blocks[i], i) + (if i < l.ns then 0 else 1)) <= l.ec
  }

  lemma TolerableIsNear(l: Layout, data: seq<bv8>, s: seq<bv8>, blocks: seq<seq<bv8>>)
    requires l.Valid() && |data| == l.DataTotal() && AreBlocks(l, data, blocks, l.nb) && Tolerable(l, s, blocks)
    ensures Near(l, s, blocks)
  {
    hide IsCodeword, Distance, CollectedBlock, Damage;
    forall i | 0 <= i < l.nb ensures NearBlock(l, s, blocks[i], i) {
      assert IsBlock(l, data, blocks[i], i);
      CollectedDistance(l, s, blocks[i], i);
    }
  }

  /** The recovered data is the data that was encoded. */
  lemma {:induction false} DataOfBlocks(l: Layout, data: seq<bv8>, blocks: seq<seq<bv8>>, n: nat)
    requires l.Valid() && |data| == l.DataTotal() && AreBlocks(l, data, blocks, l.nb) && n <= l.nb
    ensures l.DataStart(n) <= |data| && DataOf(l, blocks, n) == data[..l.DataStart(n)]
  {
    hide IsBlock, Layout.DataStart, Layout.DataLen, Layout.DataTotal, Layout.BlockLen;
    if n > 0 {
      DataOfBlocks(l, data, blocks, n - 1);
      DataStartStep(l, n - 1);
      BlockData(l, data, blocks[n - 1], n - 1);
    } else {
      StartIsZero(l);
    }
  }

  lemma StartIsZero(l: Layout)
    ensures l.DataStart(0) == 0
  {}

  /** The data bytes of a block come from its piece of the data. */
  lemma BlockData(l: Layout, data: seq<bv8>, block: seq<bv8>, i: nat)
    requires l.Valid() && |data| == l.DataTotal() && i < l.nb && IsBlock(l, data, block, i)
    ensures |block| == l.BlockLen(i) && l.DataLen(i) <= |block| && l.DataStart(i) <= l.DataStart(i + 1) <= |data|
    ensures data[..l.DataStart(i + 1)] == data[..l.DataStart(i)] + block[..l.DataLen(i)]
  {
    hide IsCodeword, Layout.DataStart, Layout.DataTotal;
    DataStartStep(l, i);
  }
}
