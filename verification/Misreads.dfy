/** How the codewords that the decoder misreads in version 21 spread over the blocks: no block has more of
    them than can be corrected. */
module Misreads {
  import opened Versions
  import opened Layouts
  import opened Zigzag
  import opened Version21

  /** The codewords that have a misplaced bit. */
  predicate IsMisread(p: int) {
    || 47 <= p <= 125
    || 319 <= p <= 320 || p == 322 || 360 <= p <= 361
    || p == 563 || 598 <= p <= 599 || 601 <= p <= 602
    || 839 <= p <= 840 || p == 842 || 880 <= p <= 881
  }

  lemma MisplacedIsMisread(k: nat)
    requires IsMisplaced(k)
    ensures IsMisread(k / 8)
  {}

  // ----- counting indices

  lemma {:induction false} CountAtMost(p: int -> bool, m: nat, n: nat)
    requires m <= n
    ensures Num(p, n) <= Num(p, m) + n - m
    decreases n
  {
    if m < n {
      CountAtMost(p, m, n - 1);
    }
  }

  /** Indices that are all less than m apart are at most m. */
  lemma {:induction false} Window(p: int -> bool, n: nat, m: nat)
    requires forall i, j | 0 <= i <= j < n && p(i) && p(j) :: j - i < m
    ensures Num(p, n) <= m
  {
    if n > 0 {
      if p(n - 1) {
        var start := if n < m then 0 else n - m;
        assert forall i | 0 <= i < start :: p(i) ==> n - 1 - i < m;
        NoneIn(p, start);
        CountAtMost(p, start, n);
      } else {
        Window(p, n - 1, m);
      }
    }
  }

  lemma {:induction false} CountUnion(p: int -> bool, q: int -> bool, r: int -> bool, n: nat)
    requires forall i | 0 <= i < n && p(i) :: q(i) || r(i)
    ensures Num(p, n) <= Num(q, n) + Num(r, n)
  {
    if n > 0 {
      CountUnion(p, q, r, n - 1);
    }
  }

  // ----- the misread codewords of a block

  predicate InRange(l: Layout, i: nat, a: int, b: int, j: int) {
    i < l.nb && l.ns <= l.nb && 0 <= j < l.BlockLen(i) && a <= l.Place(i, j) <= b && IsMisread(l.Place(i, j))
  }

  ghost function Range(l: Layout, i: nat, a: int, b: int): int -> bool {
    j => InRange(l, i, a, b, j)
  }

  /** The misread codewords of block i among those from a to b. */
  ghost function Hits(l: Layout, i: nat, a: int, b: int): nat {
    Num(Range(l, i, a, b), l.BlockLen(i))
  }

  lemma SplitHits(l: Layout, i: nat, a: int, b: int, c: int)
    requires a <= b < c
    ensures Hits(l, i, a, c) <= Hits(l, i, a, b) + Hits(l, i, b + 1, c)
  {
    hide IsMisread, Layout.Place;
    CountUnion(Range(l, i, a, c), Range(l, i, a, b), Range(l, i, b + 1, c), l.BlockLen(i));
  }

  /** All places from a to b are for data, or all are for check bytes. */
  predicate OnOneSide(l: Layout, a: int, b: int) {
    l.ns <= l.nb && (b < l.dw * l.nb || a >= l.CheckStart())
  }

  /** On one side, the bytes of a block are nb places apart. */
  lemma PlaceGap(l: Layout, i: nat, a: int, b: int, j: nat, k: nat)
    requires l.Valid() && i < l.nb && OnOneSide(l, a, b) && j <= k < l.BlockLen(i)
    requires a <= l.Place(i, j) <= b && a <= l.Place(i, k) <= b
    ensures l.Place(i, k) - l.Place(i, j) == (k - j) * l.nb
    ensures b < l.dw * l.nb ==> l.Place(i, j) == j * l.nb + i
  {
    Sides(l, i, j);
    Sides(l, i, k);
    Apart(j, k, l.nb);
    if j >= l.DataLen(i) {
      Apart(j - l.DataLen(i), k - l.DataLen(i), l.nb);
    }
  }

  lemma Apart(j: int, k: int, n: nat)
    ensures k * n - j * n == (k - j) * n
  {}

  lemma Sides(l: Layout, i: nat, j: nat)
    requires l.Valid() && i < l.nb && j < l.BlockLen(i)
    ensures j < l.DataLen(i) ==> l.Place(i, j) < l.CheckStart()
    ensures j >= l.dw ==> l.Place(i, j) >= l.dw * l.nb
  {
    if j < l.dw {
      Column(l.nb, i, j, l.dw);
    } else if j >= l.DataLen(i) {
      NotNegative(j - l.DataLen(i), l.nb);
    }
  }

  lemma NotNegative(a: int, n: int)
    requires a >= 0 && n >= 0
    ensures a * n >= 0
  {}

  lemma GapIsSmall(d: int, e: int, m: int, n: int)
    requires d == e * n && e >= 0 && n > 0
    ensures d >= 0 && (d < m * n ==> e < m)
  {
    NotNegative(e, n);
    if e >= m {
      NotNegative(e - m, n);
      assert (e - m) * n == e * n - m * n;
    }
  }

  /** Misread codewords that are close together hit a block only a few times. */
  lemma FewHits(l: Layout, i: nat, a: int, b: int, m: nat)
    requires l.Valid() && i < l.nb && OnOneSide(l, a, b)
    requires forall p, q | a <= p <= q <= b && IsMisread(p) && IsMisread(q) :: q - p < m * l.nb
    ensures Hits(l, i, a, b) <= m
  {
    hide IsMisread, Layout.Place, OnOneSide;
    forall j, k | 0 <= j <= k < l.BlockLen(i) && Range(l, i, a, b)(j) && Range(l, i, a, b)(k) ensures k - j < m {
      PlaceGap(l, i, a, b, j, k);
      var p, q := l.Place(i, j), l.Place(i, k);
      GapIsSmall(q - p, k - j, m, l.nb);
      assert a <= p <= q <= b && IsMisread(p) && IsMisread(q);
    }
    Window(Range(l, i, a, b), l.BlockLen(i), m);
  }

  /** Nothing is misread from a to c - 1. */
  lemma SkipHits(l: Layout, i: nat, a: int, c: int, end: int)
    requires forall p | a <= p < c :: !IsMisread(p)
    ensures Hits(l, i, a, end) <= Hits(l, i, c, end)
  {
    hide IsMisread, Layout.Place;
    forall j: int ensures !Range(l, i, 1, 0)(j) {}
    NoneIn(Range(l, i, 1, 0), l.BlockLen(i));
    CountUnion(Range(l, i, a, end), Range(l, i, c, end), Range(l, i, 1, 0), l.BlockLen(i));
  }

  lemma NothingMisread()
    ensures forall p | 0 <= p < 47 || 126 <= p < 319 || 323 <= p < 360 || 362 <= p < 563 || 564 <= p < 598 ::
        !IsMisread(p)
    ensures forall p | 603 <= p < 839 || 843 <= p < 880 || 882 <= p :: !IsMisread(p)
  {}

  const END: int := 1156

  lemma HitsByGroup(l: Layout, i: nat)
    ensures Hits(l, i, 0, END) <= Hits(l, i, 47, 125) + Hits(l, i, 319, 322) + Hits(l, i, 360, 361)
        + Hits(l, i, 563, 563)
                                  + Hits(l, i, 598, 602) + Hits(l, i, 839, 842) + Hits(l, i, 880, 881)
  {
    hide IsMisread, Hits;
    NothingMisread();
    SkipHits(l, i, 0, 47, END); SplitHits(l, i, 47, 125, END);
    SkipHits(l, i, 126, 319, END); SplitHits(l, i, 319, 322, END);
    SkipHits(l, i, 323, 360, END); SplitHits(l, i, 360, 361, END);
    SkipHits(l, i, 362, 563, END); SplitHits(l, i, 563, 563, END);
    SkipHits(l, i, 564, 598, END); SplitHits(l, i, 598, 602, END);
    SkipHits(l, i, 603, 839, END); SplitHits(l, i, 839, 842, END);
    SkipHits(l, i, 843, 880, END); SplitHits(l, i, 880, 881, END);
    SkipHits(l, i, 882, END + 1, END);
    NoRange(l, i);
  }

  lemma NoRange(l: Layout, i: nat)
    ensures Hits(l, i, END + 1, END) == 0
  {
    hide IsMisread, Layout.Place;
    NoneIn(Range(l, i, END + 1, END), l.BlockLen(i));
  }

  /** With at least 17 blocks, at most one hit in each of the small groups. */
  lemma ManyBlocks(l: Layout, i: nat, m: nat)
    requires l.Valid() && i < l.nb && l.nb >= 17 && 78 < m * l.nb
    requires OnOneSide(l, 47, 125) && OnOneSide(l, 319, 322) && OnOneSide(l, 360, 361) && OnOneSide(l, 563, 563)
    requires OnOneSide(l, 598, 602) && OnOneSide(l, 839, 842) && OnOneSide(l, 880, 881)
    ensures Hits(l, i, 0, END) <= m + 6
  {
    hide IsMisread, Hits;
    HitsByGroup(l, i);
    FewHits(l, i, 47, 125, m);
    FewHits(l, i, 319, 322, 1); FewHits(l, i, 360, 361, 1); FewHits(l, i, 563, 563, 1);
    FewHits(l, i, 598, 602, 1); FewHits(l, i, 839, 842, 1); FewHits(l, i, 880, 881, 1);
  }

  lemma NoHits(l: Layout, i: nat, a: int, b: int)
    requires l.Valid() && i < l.nb && b < l.dw * l.nb
    requires forall p | a <= p <= b && IsMisread(p) :: p % l.nb != i
    ensures Hits(l, i, a, b) == 0
  {
    hide IsMisread, Layout.Place;
    forall j | 0 <= j < l.BlockLen(i) ensures !Range(l, i, a, b)(j) {
      if Range(l, i, a, b)(j) {
        PlaceGap(l, i, a, b, j, j);
        Division(j * l.nb + i, l.nb, j, i);
      }
    }
    NoneIn(Range(l, i, a, b), l.BlockLen(i));
  }

  /** Low: eight blocks, where the small groups hit some blocks and miss others. */
  lemma EightBlocks(i: nat)
    requires i < 8
    ensures Hits(Layout(8, 4, 116, 28), i, 0, END) <= if i < 4 then 14 else 13
  {
    hide Hits;
    var l := Layout(8, 4, 116, 28);
    HitsByGroup(l, i);
    FewHits(l, i, 47, 125, 10);
    FewHits(l, i, 319, 322, 1); FewHits(l, i, 360, 361, 1); FewHits(l, i, 563, 563, 1);
    FewHits(l, i, 598, 602, 1); FewHits(l, i, 839, 842, 1); FewHits(l, i, 880, 881, 1);
    if i != 7 && i != 0 && i != 2 { NoHits(l, i, 319, 322); NoHits(l, i, 839, 842); }
    if i != 0 && i != 1 { NoHits(l, i, 360, 361); NoHits(l, i, 880, 881); }
    if i != 3 { NoHits(l, i, 563, 563); }
    if i != 6 && i != 7 && i != 1 && i != 2 { NoHits(l, i, 598, 602); }
  }

  lemma Layouts21()
    ensures DecoderLayout(Ecc.Low.FormatBits(), 21) == Layout(8, 4, 116, 28)
    ensures DecoderLayout(Ecc.Medium.FormatBits(), 21) == Layout(17, 17, 42, 26)
    ensures DecoderLayout(Ecc.Quartile.FormatBits(), 21) == Layout(23, 17, 22, 28)
    ensures DecoderLayout(Ecc.High.FormatBits(), 21) == Layout(25, 19, 16, 30)
  {}

  /** In no block of version 21 are more codewords misread than can be corrected, even if the misplaced
      byte of the long blocks is wrong as well. */
  lemma MisreadsAreFew(ecl: Ecc, i: nat)
    requires i < DecoderLayout(ecl.FormatBits(), 21).nb
    ensures var l := DecoderLayout(ecl.FormatBits(), 21);
            2 * (Hits(l, i, 0, END) + (if i < l.ns then 0 else 1)) <= l.ec
  {
    hide Hits, DecoderLayout;
    Layouts21();
    match ecl
    case Low => EightBlocks(i);
    case Medium => ManyBlocks(Layout(17, 17, 42, 26), i, 5);
    case Quartile => ManyBlocks(Layout(23, 17, 22, 28), i, 4);
    case High => ManyBlocks(Layout(25, 19, 16, 30), i, 4);
  }
}
