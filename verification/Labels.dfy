/** Images whose black areas have been given labels, each area one. */
module Labels {
  import opened Images
  import opened FillState

  const WHITE: int := 0
  const BLACK: int := 1
  const FIRST_REGION: int := 2
  const MAX_REGIONS: int := 65534

  datatype Region = Region(seed: Pixel, count: int, capstone: int)

  ghost function PixelsOf(img: Image, c: int, w: int, h: int): set<Pixel>
    requires IsImage(img, w, h)
  {
    set x, y | 0 <= x < w && 0 <= y < h && img[y][x] == c :: Pixel(x, y)
  }

  /** Label r is on exactly the black area of its seed in the image before labelling, and the region
      counts its pixels. */
  ghost predicate IsLabel(base: Image, cur: Image, r: int, region: Region, w: int, h: int)
    requires IsImage(cur, w, h)
  {
    && Is(base, region.seed, BLACK)
    && (forall p :: Is(cur, p, r) <==> Connected(base, BLACK, region.seed, p))
    && region.count == |PixelsOf(cur, r, w, h)|
  }

  /** cur is the black and white image base with some of its black areas labelled. */
  ghost predicate Labelled(base: Image, cur: Image, regions: seq<Region>, num: int, w: int, h: int) {
    && IsImage(base, w, h) && IsImage(cur, w, h) && FIRST_REGION <= num <= |regions|
    && (forall x, y | 0 <= x < w && 0 <= y < h :: base[y][x] == WHITE || base[y][x] == BLACK)
    && (forall x, y | 0 <= x < w && 0 <= y < h ::
          cur[y][x] == base[y][x] || (base[y][x] == BLACK && FIRST_REGION <= cur[y][x] < num))
    && (forall r | FIRST_REGION <= r < num :: IsLabel(base, cur, r, regions[r], w, h))
  }

  /** What holds even after fills that the stack has stopped: every pixel is white, black or labelled, and
      the seed of a region carries its label. */
  ghost predicate InOrder(img: Image, regions: seq<Region>, num: int, w: int, h: int) {
    && IsImage(img, w, h) && FIRST_REGION <= num <= |regions|
    && (forall x, y | 0 <= x < w && 0 <= y < h ::
          img[y][x] == WHITE || img[y][x] == BLACK || FIRST_REGION <= img[y][x] < num)
    && (forall r | FIRST_REGION <= r < num :: Is(img, regions[r].seed, r))
  }

  lemma LabelledInOrder(base: Image, cur: Image, regions: seq<Region>, num: int, w: int, h: int)
    requires Labelled(base, cur, regions, num, w, h)
    ensures InOrder(cur, regions, num, w, h)
  {
    hide Connected;
    forall r | FIRST_REGION <= r < num ensures Is(cur, regions[r].seed, r) {
      assert IsLabel(base, cur, r, regions[r], w, h);
      ConnectedSelf(base, BLACK, regions[r].seed);
    }
  }

  /** Giving the next label to black pixels, the seed among them, whether or not they are a whole area. */
  lemma InOrderLabel(before: Image, after: Image, cells: set<Pixel>, regions: seq<Region>, more: seq<Region>, num: int,
      w: int, h: int)
    requires InOrder(before, regions, num, w, h) && IsImage(after, w, h) && |more| == |regions| > num
    requires forall r | FIRST_REGION <= r < num :: more[r] == regions[r]
    requires forall p | p in cells :: Connected(before, BLACK, more[num].seed, p)
    requires forall x, y | 0 <= x < w && 0 <= y < h :: after[y][x] == if Pixel(x, y) in cells then num else before[y][x]
    requires more[num].seed in cells
    ensures InOrder(after, more, num + 1, w, h)
  {
    hide Connected;
    forall p | p in cells ensures Is(before, p, BLACK) {
      ConnectedEnds(before, BLACK, more[num].seed, p);
    }
    forall r | FIRST_REGION <= r < num ensures Is(after, more[r].seed, r) {
      assert Is(before, regions[r].seed, r);
    }
  }

  /** Turning pixels of a label to black, and black pixels to that label, its seed among them. */
  lemma InOrderRefill(before: Image, clear: Image, after: Image, first: set<Pixel>, second: set<Pixel>,
      regions: seq<Region>, num: int, w: int, h: int, r: int)
    requires InOrder(before, regions, num, w, h) && FIRST_REGION <= r < num
    requires IsImage(clear, w, h) && IsImage(after, w, h)
    requires forall p | p in first :: Connected(before, r, regions[r].seed, p)
    requires forall p | p in second :: Connected(clear, BLACK, regions[r].seed, p)
    requires forall x, y | 0 <= x < w && 0 <= y < h ::
               clear[y][x] == if Pixel(x, y) in first then BLACK else before[y][x]
    requires forall x, y | 0 <= x < w && 0 <= y < h :: after[y][x] == if Pixel(x, y) in second then r else clear[y][x]
    requires regions[r].seed in second
    ensures InOrder(after, regions, num, w, h)
  {
    hide Connected;
    forall p | p in first ensures Is(before, p, r) {
      ConnectedEnds(before, r, regions[r].seed, p);
    }
    forall p | p in second ensures Is(clear, p, BLACK) {
      ConnectedEnds(clear, BLACK, regions[r].seed, p);
    }
    forall s | FIRST_REGION <= s < num ensures Is(after, regions[s].seed, s) {
      assert Is(before, regions[s].seed, s);
    }
  }

  // ----- paths in different images

  lemma {:induction false} PathFromStart(img: Image, c: int, path: seq<Pixel>, i: nat)
    requires IsPath(img, c, path) && i < |path|
    ensures Connected(img, c, path[0], path[i])
  {
    hide Is, Adjacent;
    assert IsPath(img, c, path[..i + 1]);
  }

  /** An area keeps together in any image that shows all of it in one colour. */
  lemma SameArea(base: Image, b: int, cur: Image, c: int, seed: Pixel, p: Pixel)
    requires Connected(base, b, seed, p)
    requires forall q | Connected(base, b, seed, q) :: Is(cur, q, c)
    ensures Connected(cur, c, seed, p)
  {
    hide Is, Adjacent, Connected;
    assert exists path :: IsPath(base, b, path) && path[0] == seed && path[|path| - 1] == p by {
      ConnectedPath(base, b, seed, p);
    }
    var path :| IsPath(base, b, path) && path[0] == seed && path[|path| - 1] == p;
    forall i | 0 <= i < |path| ensures Is(cur, path[i], c) {
      PathFromStart(base, b, path, i);
    }
    assert IsPath(cur, c, path);
    PathConnects(cur, c, path);
  }

  lemma ConnectedPath(img: Image, c: int, p: Pixel, q: Pixel)
    requires Connected(img, c, p, q)
    ensures exists path :: IsPath(img, c, path) && path[0] == p && path[|path| - 1] == q
  {
    hide IsPath;
  }

  lemma PathConnects(img: Image, c: int, path: seq<Pixel>)
    requires IsPath(img, c, path)
    ensures Connected(img, c, path[0], path[|path| - 1])
  {}

  // ----- black areas not yet labelled

  /** A black pixel next to a labelled one would carry its label. */
  lemma NextToLabel(base: Image, cur: Image, regions: seq<Region>, num: int, w: int, h: int, r: int, p: Pixel, q: Pixel)
    requires Labelled(base, cur, regions, num, w, h) && FIRST_REGION <= r < num
    requires Is(cur, p, r) && Adjacent(p, q) && Is(base, q, BLACK)
    ensures Is(cur, q, r)
  {
    hide Is, Adjacent, Connected, IsImage;
    assert IsLabel(base, cur, r, regions[r], w, h);
    ConnectedStep(base, BLACK, regions[r].seed, p, q);
  }

  lemma AdjacentBack(p: Pixel, q: Pixel)
    requires Adjacent(p, q)
    ensures Adjacent(q, p)
  {}

  /** The black area of an unlabelled pixel is the same before and after labelling. */
  lemma UnlabelledArea(base: Image, cur: Image, regions: seq<Region>, num: int, w: int, h: int, seed: Pixel)
    requires Labelled(base, cur, regions, num, w, h) && Is(cur, seed, BLACK)
    ensures forall p :: Connected(cur, BLACK, seed, p) <==> Connected(base, BLACK, seed, p)
  {
    hide Connected, Adjacent;
    var s := set x, y | 0 <= x < w && 0 <= y < h && Connected(cur, BLACK, seed, Pixel(x, y)) :: Pixel(x, y);
    forall p | Connected(cur, BLACK, seed, p) ensures p in s && Is(base, p, BLACK) {
      ConnectedEnds(cur, BLACK, seed, p);
      assert p == Pixel(p.x, p.y);
    }
    ConnectedSelf(cur, BLACK, seed);
    forall p, q | p in s && Adjacent(p, q) && Is(base, q, BLACK) ensures q in s {
      ConnectedEnds(cur, BLACK, seed, p);
      if Is(cur, q, BLACK) {
        ConnectedStep(cur, BLACK, seed, p, q);
      } else {
        var r := cur[q.y][q.x];
        AdjacentBack(p, q);
        NextToLabel(base, cur, regions, num, w, h, r, q, p);
      }
    }
    forall p | Connected(base, BLACK, seed, p) ensures Connected(cur, BLACK, seed, p) {
      ConnectedStays(base, BLACK, s, seed, p);
    }
    forall p | Connected(cur, BLACK, seed, p) ensures Connected(base, BLACK, seed, p) {
      SameArea(cur, BLACK, base, BLACK, seed, p);
    }
  }

  /** Giving the next label to the whole area of an unlabelled pixel. */
  lemma LabelAdded(base: Image, cur: Image, next: Image, regions: seq<Region>, more: seq<Region>, num: int, w: int,
      h: int,
                   cells: set<Pixel>)
    requires Labelled(base, cur, regions, num, w, h) && num < |regions| && |more| == |regions| && IsImage(next, w, h)
    requires forall r | FIRST_REGION <= r < num :: more[r] == regions[r]
    requires Is(cur, more[num].seed, BLACK) && more[num].count == |cells|
    requires forall p :: p in cells <==> Connected(cur, BLACK, more[num].seed, p)
    requires forall x, y | 0 <= x < w && 0 <= y < h :: next[y][x] == if Pixel(x, y) in cells then num else cur[y][x]
    ensures Labelled(base, next, more, num + 1, w, h)
  {
    hide Connected;
    var seed := more[num].seed;
    UnlabelledArea(base, cur, regions, num, w, h, seed);
    forall p | p in cells ensures Is(cur, p, BLACK) && Is(base, p, BLACK) {
      ConnectedEnds(cur, BLACK, seed, p);
      ConnectedEnds(base, BLACK, seed, p);
    }
    forall p ensures Is(next, p, num) <==> p in cells {
      assert p == Pixel(p.x, p.y);
    }
    assert PixelsOf(next, num, w, h) == cells;
    assert IsLabel(base, next, num, more[num], w, h);
    forall r | FIRST_REGION <= r < num ensures IsLabel(base, next, r, more[r], w, h) {
      assert IsLabel(base, cur, r, regions[r], w, h);
      forall p ensures Is(next, p, r) <==> Is(cur, p, r) {
        assert p == Pixel(p.x, p.y);
      }
      assert PixelsOf(next, r, w, h) == PixelsOf(cur, r, w, h);
    }
  }

  /** Two pixels carry the same label if and only if a path through black pixels joins them. */
  lemma SameLabel(base: Image, cur: Image, regions: seq<Region>, num: int, w: int, h: int, r: int, p: Pixel, q: Pixel)
    requires Labelled(base, cur, regions, num, w, h) && FIRST_REGION <= r < num && Is(cur, p, r)
    ensures Is(cur, q, r) <==> Connected(base, BLACK, p, q)
  {
    hide Connected, Is, IsImage;
    var seed := regions[r].seed;
    assert IsLabel(base, cur, r, regions[r], w, h);
    ConnectedBack(base, BLACK, seed, p);
    if Is(cur, q, r) {
      ConnectedJoin(base, BLACK, p, seed, q);
    }
    if Connected(base, BLACK, p, q) {
      ConnectedJoin(base, BLACK, seed, p, q);
    }
  }

  /** The pixels of a label are the black area of any one of them. */
  lemma LabelIsArea(base: Image, cur: Image, regions: seq<Region>, num: int, w: int, h: int, r: int, p: Pixel)
    requires Labelled(base, cur, regions, num, w, h) && FIRST_REGION <= r < num && Is(cur, p, r)
    ensures PixelsOf(cur, r, w, h) == AreaOf(base, BLACK, p, w, h)
  {
    hide Connected;
    forall x, y | 0 <= x < w && 0 <= y < h ensures cur[y][x] == r <==> Connected(base, BLACK, p, Pixel(x, y)) {
      SameLabel(base, cur, regions, num, w, h, r, p, Pixel(x, y));
    }
  }

  // ----- filling a region and filling it back

  /** The pixels of a label are connected through each other. */
  lemma LabelConnected(base: Image, cur: Image, regions: seq<Region>, num: int, w: int, h: int, r: int)
    requires Labelled(base, cur, regions, num, w, h) && FIRST_REGION <= r < num
    ensures forall p :: Connected(cur, r, regions[r].seed, p) <==> Is(cur, p, r)
  {
    hide Connected, Is, IsImage;
    assert IsLabel(base, cur, r, regions[r], w, h);
    var seed := regions[r].seed;
    forall p | Is(cur, p, r) ensures Connected(cur, r, seed, p) {
      SameArea(base, BLACK, cur, r, seed, p);
    }
    forall p | Connected(cur, r, seed, p) ensures Is(cur, p, r) {
      ConnectedEnds(cur, r, seed, p);
    }
  }

  /** With its label turned to black, the region is still an area by itself. */
  lemma ClearedConnected(base: Image, cur: Image, clear: Image, regions: seq<Region>, num: int, w: int, h: int, r: int)
    requires Labelled(base, cur, regions, num, w, h) && FIRST_REGION <= r < num && IsImage(clear, w, h)
    requires forall x, y | 0 <= x < w && 0 <= y < h :: clear[y][x] == if cur[y][x] == r then BLACK else cur[y][x]
    ensures forall p :: Connected(clear, BLACK, regions[r].seed, p) <==> Is(cur, p, r)
  {
    hide Connected, Adjacent;
    assert IsLabel(base, cur, r, regions[r], w, h);
    var seed, s := regions[r].seed, PixelsOf(cur, r, w, h);
    forall p | Is(cur, p, r) ensures p in s && Is(clear, p, BLACK) {
      assert p == Pixel(p.x, p.y);
    }
    ConnectedSelf(base, BLACK, seed);
    forall p | Is(cur, p, r) ensures Connected(clear, BLACK, seed, p) {
      SameArea(base, BLACK, clear, BLACK, seed, p);
    }
    forall p, q | p in s && Adjacent(p, q) && Is(clear, q, BLACK) ensures q in s {
      NextToLabel(base, cur, regions, num, w, h, r, p, q);
    }
    forall p | Connected(clear, BLACK, seed, p) ensures Is(cur, p, r) {
      ConnectedStays(clear, BLACK, s, seed, p);
    }
  }
}
