/** How the blocks of a symbol are laid out: where the encoder puts the bytes of each block, and
    where the decoder looks for them. */
module Layouts {
  import opened Versions

  /** nb blocks of ec check bytes each; the first ns hold dw data bytes, the others one more. */
  datatype Layout = Layout(nb: nat, ns: nat, dw: nat, ec: nat) {
    predicate Valid() {
      1 <= ns <= nb && 1 <= dw && 2 <= ec < 64 && dw + ec < 255
    }

    function DataLen(i: nat): nat {
      if i < ns then dw else dw + 1
    }

    function BlockLen(i: nat): nat {
      DataLen(i) + ec
    }

    /** Where block i's data starts in the data string. */
    function DataStart(i: nat): nat {
      i * dw + (if i < ns then 0 else i - ns)
    }

    function DataTotal(): nat {
      DataStart(nb)
    }

    /** Where the check bytes start in the interleaved string. */
    function CheckStart(): nat
      requires ns <= nb
    {
      dw * nb + nb - ns
    }

    function Total(): nat
      requires ns <= nb
    {
      CheckStart() + ec * nb
    }

    /** The place of byte j of block i in the interleaved string. */
    function Place(i: nat, j: nat): nat
      requires i < nb && ns <= nb && j < BlockLen(i)
    {
      if j < dw then j * nb + i
      else if j < DataLen(i) then dw * nb + i - ns
      else CheckStart() + (j - DataLen(i)) * nb + i
    }

    /** The place where the decoder looks for it: the last data byte of a long block is taken from
        column dw as if the short blocks had a byte there too. */
    function ReadPlace(i: nat, j: nat): nat
      requires i < nb && ns <= nb && j < BlockLen(i)
    {
      if j < DataLen(i) then j * nb + i
      else CheckStart() + (j - DataLen(i)) * nb + i
    }
  }

  lemma DataStartStep(l: Layout, i: nat)
    requires l.Valid() && i < l.nb
    ensures l.DataStart(i + 1) == l.DataStart(i) + l.DataLen(i)
    ensures l.DataStart(0) == 0 && l.DataStart(i + 1) <= l.DataTotal()
    decreases l.nb - i
  {
    assert (i + 1) * l.dw == i * l.dw + l.dw;
    if i + 1 < l.nb {
      DataStartStep(l, i + 1);
    }
  }

  lemma Column(nb: nat, i: nat, j: nat, n: nat)
    requires i < nb && j < n
    ensures j * nb + i < n * nb
  {
    assert (j + 1) * nb <= n * nb by { MulMonotone(j + 1, n, nb); }
    assert (j + 1) * nb == j * nb + nb;
  }

  lemma MulMonotone(a: nat, b: nat, c: nat)
    requires a <= b
    ensures a * c <= b * c
  {}

  lemma PlaceBounds(l: Layout, i: nat, j: nat)
    requires l.Valid() && i < l.nb && j < l.BlockLen(i)
    ensures l.Place(i, j) < l.Total() && l.ReadPlace(i, j) < l.Total()
    ensures l.ReadPlace(i, j) == l.Place(i, j) <==> j != l.dw || i < l.ns
  {
    var start, checks := l.dw * l.nb, l.ec * l.nb;
    MulMonotone(1, l.ec, l.nb);
    if j < l.dw {
      Column(l.nb, i, j, l.dw);
    } else if j >= l.DataLen(i) {
      var k := j - l.DataLen(i);
      Column(l.nb, i, k, l.ec);
      assert l.Place(i, j) == l.ReadPlace(i, j) == start + l.nb - l.ns + k * l.nb + i;
    } else {
      assert l.Place(i, j) == start + i - l.ns && l.ReadPlace(i, j) == start + i;
    }
  }

  /** The block as the encoder placed it. */
  function PlacedBlock<T>(l: Layout, s: seq<T>, i: nat): (b: seq<T>)
    requires l.Valid() && i < l.nb && |s| >= l.Total()
    ensures |b| == l.BlockLen(i)
  {
    seq(l.BlockLen(i), j requires 0 <= j < l.BlockLen(i) => PlaceBounds(l, i, j); s[l.Place(i, j)])
  }

  /** The block as the decoder collects it. */
  function CollectedBlock<T>(l: Layout, s: seq<T>, i: nat): (b: seq<T>)
    requires l.Valid() && i < l.nb && |s| >= l.Total()
    ensures |b| == l.BlockLen(i)
  {
    seq(l.BlockLen(i), j requires 0 <= j < l.BlockLen(i) => PlaceBounds(l, i, j); s[l.ReadPlace(i, j)])
  }

  /** The misplaced look-up costs at most one byte, in long blocks only. */
  lemma CollectedVersusPlaced<T>(l: Layout, s: seq<T>, i: nat, j: nat)
    requires l.Valid() && i < l.nb && |s| >= l.Total() && j < l.BlockLen(i)
    requires i < l.ns || j != l.dw
    ensures CollectedBlock(l, s, i)[j] == PlacedBlock(l, s, i)[j]
  {
    PlaceBounds(l, i, j);
  }

  // ----- the layouts of the two programs

  function EncoderLayout(ecl: Ecc, ver: nat): Layout
    requires 1 <= ver <= 40 && NumBlocks(ecl, ver) > 0
  {
    var nb, ec, raw := NumBlocks(ecl, ver), EccPerBlock(ecl, ver), RawDataModules(ver) / 8;
    var short := raw / nb;
    Layout(nb, nb - raw % nb, if short < ec then 0 else short - ec, ec)
  }

  /** The decoder derives the number of long blocks from the size of the symbol. */
  function DecoderLayout(level: nat, ver: nat): Layout
    requires 1 <= ver <= 40 && level < 4
  {
    DeriveLayout(VersionDb(ver).dataBytes, VersionDb(ver).Params(level))
  }

  function DeriveLayout(total: nat, p: RsParams): Layout {
    var long := if total < p.bs * p.ns then 0 else (total - p.bs * p.ns) / (p.bs + 1);
    Layout(long + p.ns, p.ns, p.dw, if p.bs < p.dw then 0 else p.bs - p.dw)
  }

  lemma Division(n: nat, d: nat, q: nat, r: nat)
    requires n == d * q + r && r < d
    ensures n / d == q && n % d == r
  {
    var q' := n / d;
    if q' < q {
      MulMonotone(q' + 1, q, d);
    } else if q' > q {
      MulMonotone(q + 1, q', d);
    }
  }

  /** For every version and level both programs use the same layout, and it fits the symbol. */
  lemma LayoutsAgree(ecl: Ecc, ver: nat)
    requires 1 <= ver <= 40
    ensures NumBlocks(ecl, ver) > 0 && EncoderLayout(ecl, ver).Valid()
    ensures DecoderLayout(ecl.FormatBits(), ver) == EncoderLayout(ecl, ver)
    ensures EncoderLayout(ecl, ver).Total() == RawDataModules(ver) / 8 == VersionDb(ver).dataBytes <= 3706
    ensures EncoderLayout(ecl, ver).DataTotal() == NumDataCodewords(ecl, ver)
  {
    hide VersionDb, NumBlocks, EccPerBlock, RawDataModules;
    TablesAgree(ecl, ver);
    var info, nb, ec := VersionDb(ver), NumBlocks(ecl, ver), EccPerBlock(ecl, ver);
    var p := info.Params(ecl.FormatBits());
    LayoutArithmetic(nb, p.ns, p.dw, ec, p.bs, info.dataBytes);
    assert RawDataModules(ver) / 8 == info.dataBytes;
  }

  /** The encoder's own computation of its layout. */
  lemma EncoderLayoutParts(ecl: Ecc, ver: nat)
    requires 1 <= ver <= 40
    ensures var nb, ec, raw := NumBlocks(ecl, ver), EccPerBlock(ecl, ver), RawDataModules(ver) / 8;
            && nb > 0 && raw >= 0 && raw / nb >= ec
            && EncoderLayout(ecl, ver) == Layout(nb, nb - raw % nb, raw / nb - ec, ec)
  {
    hide VersionDb, NumBlocks, EccPerBlock, RawDataModules;
    LayoutsAgree(ecl, ver);
  }

  lemma LayoutArithmetic(nb: nat, ns: nat, dw: nat, ec: nat, bs: nat, total: nat)
    requires 1 <= ns <= nb && total == nb * bs + nb - ns && bs == dw + ec
    ensures total / nb == bs && total % nb == nb - ns
    ensures total >= bs * ns && (total - bs * ns) / (bs + 1) == nb - ns
    ensures dw * nb + nb - ns + ec * nb == total
    ensures nb * dw + nb - ns == total - ec * nb
  {
    var long := nb - ns;
    Division(total, nb, bs, long);
    assert nb * bs == bs * ns + bs * long;
    assert (bs + 1) * long == bs * long + long;
    Division((bs + 1) * long, bs + 1, long, 0);
    assert nb * (dw + ec) == nb * dw + nb * ec;
  }
}
