/** The state of a span fill: what is filled, what has been reported, and what is still pending. */
module FillState {
  import opened Images

  /** A filled span of row y up to right; the rows above and below are scanned from leftUp and leftDown on. */
  datatype Context = Context(y: int, right: int, leftUp: int, leftDown: int)

  /** A fill of the image from one colour to another, and the pixels and spans filled so far. */
  datatype Fill = Fill(img: Image, from: int, to: int, seed: Pixel, filled: set<Pixel>, spans: seq<Span>)

  ghost predicate IsImage(img: Image, w: int, h: int) {
    |img| == h && forall y | 0 <= y < h :: |img[y]| == w
  }

  /** A pixel beyond the scanned part of some context's neighbouring rows. */
  ghost predicate Pending(ctx: seq<Context>, q: Pixel) {
    exists k :: 0 <= k < |ctx| && Ahead(ctx[k], q)
  }

  predicate Ahead(c: Context, q: Pixel) {
    (q.y == c.y - 1 && c.leftUp <= q.x <= c.right) || (q.y == c.y + 1 && c.leftDown <= q.x <= c.right)
  }

  /** The scans of a context stay under or over filled pixels of its row. */
  ghost predicate InRow(c: Context, filled: set<Pixel>, w: int, h: int) {
    && 0 <= c.y < h && 0 <= c.right < w && 0 <= c.leftUp && 0 <= c.leftDown
    && forall x | (c.leftUp <= x || c.leftDown <= x) && x <= c.right :: Pixel(x, c.y) in filled
  }

  ghost predicate Shows(cur: Image, f: Fill, w: int, h: int) {
    && IsImage(cur, w, h) && IsImage(f.img, w, h)
    && forall x, y | 0 <= x < w && 0 <= y < h :: cur[y][x] == if Pixel(x, y) in f.filled then f.to else f.img[y][x]
  }

  /** Only pixels connected to the seed are filled, and the spans cover exactly them. */
  ghost predicate Sound(f: Fill) {
    && f.from != f.to
    && (forall p | p in f.filled :: Connected(f.img, f.from, f.seed, p))
    && AreDisjoint(f.spans) && CellsOf(f.spans) == f.filled
  }

  /** A neighbour that should be filled is filled or pending. */
  ghost predicate Covered(f: Fill, ctx: seq<Context>) {
    && (forall p, q | p in f.filled && Beside(p, q) && Is(f.img, q, f.from) :: q in f.filled)
    && (forall p, q | p in f.filled && Above(p, q) && Is(f.img, q, f.from) :: q in f.filled || Pending(ctx, q))
  }

  ghost predicate Consistent(cur: Image, f: Fill, ctx: seq<Context>, w: int, h: int) {
    && Shows(cur, f, w, h) && Sound(f) && Covered(f, ctx)
    && forall k | 0 <= k < |ctx| :: InRow(ctx[k], f.filled, w, h)
  }

  /** The pixels still to be filled, at most. */
  ghost function Unfilled(f: Fill, w: int, h: int): set<Pixel>
    requires IsImage(f.img, w, h)
  {
    set x, y | 0 <= x < w && 0 <= y < h && f.img[y][x] == f.from && Pixel(x, y) !in f.filled :: Pixel(x, y)
  }

  // ----- filling a span

  lemma {:induction false} RunConnected(img: Image, c: int, p: Pixel, y: int, a: int, b: int)
    requires Connected(img, c, p, Pixel(a, y))
    requires forall x | (a <= x <= b || b <= x <= a) :: Is(img, Pixel(x, y), c)
    ensures Connected(img, c, p, Pixel(b, y))
    decreases if a < b then b - a else a - b
  {
    hide Is, Connected;
    if a < b {
      RunConnected(img, c, p, y, a, b - 1);
      ConnectedStep(img, c, p, Pixel(b - 1, y), Pixel(b, y));
    } else if b < a {
      RunConnected(img, c, p, y, a, b + 1);
      ConnectedStep(img, c, p, Pixel(b + 1, y), Pixel(b, y));
    }
  }

  /** s is a maximal run of pixels of the colour to be filled, around column x. */
  ghost predicate IsRun(cur: Image, from: int, s: Span, x: int) {
    && s.left <= x <= s.right
    && (forall i | s.left <= i <= s.right :: Is(cur, Pixel(i, s.y), from))
    && !Is(cur, Pixel(s.left - 1, s.y), from) && !Is(cur, Pixel(s.right + 1, s.y), from)
  }

  ghost function Filled(f: Fill, s: Span): Fill {
    f.(filled := f.filled + SpanSet(s), spans := f.spans + [s])
  }

  lemma RunIsNew(cur: Image, f: Fill, s: Span, x: int, w: int, h: int)
    requires Shows(cur, f, w, h) && f.from != f.to && IsRun(cur, f.from, s, x)
    ensures f.filled !! SpanSet(s)
    ensures forall i | s.left <= i <= s.right :: Is(f.img, Pixel(i, s.y), f.from)
  {
    forall i | s.left <= i <= s.right ensures Is(f.img, Pixel(i, s.y), f.from) && Pixel(i, s.y) !in f.filled {
      assert Is(cur, Pixel(i, s.y), f.from);
    }
  }

  lemma FillSound(cur: Image, f: Fill, s: Span, x: int, w: int, h: int)
    requires Shows(cur, f, w, h) && Sound(f) && IsRun(cur, f.from, s, x)
    requires Connected(f.img, f.from, f.seed, Pixel(x, s.y))
    ensures Sound(Filled(f, s))
  {
    RunIsNew(cur, f, s, x, w, h);
    hide Connected, Is, Shows, IsRun, AreDisjoint, CellsOf;
    assert s.left <= x <= s.right by { RunHas(cur, f.from, s, x); }
    forall p | p in SpanSet(s) ensures Connected(f.img, f.from, f.seed, p) {
      RunConnected(f.img, f.from, f.seed, s.y, x, p.x);
    }
    SpansGrow(f.spans, s);
  }

  lemma RunHas(cur: Image, from: int, s: Span, x: int)
    requires IsRun(cur, from, s, x)
    ensures s.left <= x <= s.right
  {}

  /** What a new span leaves to do is ahead of its own context. */
  lemma FillCovered(cur: Image, f: Fill, ctx: seq<Context>, s: Span, x: int, w: int, h: int)
    requires Shows(cur, f, w, h) && f.from != f.to && Covered(f, ctx) && IsRun(cur, f.from, s, x)
    ensures Covered(Filled(f, s), ctx + [Context(s.y, s.right, s.left, s.left)])
  {
    var g, more := Filled(f, s), ctx + [Context(s.y, s.right, s.left, s.left)];
    forall p, q | p in g.filled && Beside(p, q) && Is(g.img, q, g.from) ensures q in g.filled {
      if p in SpanSet(s) && q !in SpanSet(s) {
        assert q.x == s.left - 1 || q.x == s.right + 1;
        assert !Is(cur, q, f.from);
      }
    }
    forall p, q | p in g.filled && Above(p, q) && Is(g.img, q, g.from) ensures q in g.filled || Pending(more, q) {
      if p in SpanSet(s) {
        assert Ahead(more[|ctx|], q);
      } else if q !in f.filled {
        var k :| 0 <= k < |ctx| && Ahead(ctx[k], q);
        assert Ahead(more[k], q);
      }
    }
  }

  lemma FillShows(cur: Image, next: Image, f: Fill, s: Span, x: int, w: int, h: int)
    requires Shows(cur, f, w, h) && f.from != f.to && IsRun(cur, f.from, s, x) && IsImage(next, w, h)
    requires forall i, y | 0 <= i < w && 0 <= y < h ::
               next[y][i] == if y == s.y && s.left <= i <= s.right then f.to else cur[y][i]
    ensures Shows(next, Filled(f, s), w, h) && Unfilled(Filled(f, s), w, h) < Unfilled(f, w, h)
    ensures 0 <= s.y < h && 0 <= s.left && s.right < w
  {
    RunIsNew(cur, f, s, x, w, h);
    assert Is(cur, Pixel(x, s.y), f.from) && Is(cur, Pixel(s.left, s.y), f.from)
        && Is(cur, Pixel(s.right, s.y), f.from);
    assert Pixel(x, s.y) in Unfilled(f, w, h) && Pixel(x, s.y) in SpanSet(s);
  }

  /** Filling a maximal run that is connected to the seed keeps everything consistent. */
  lemma FillStep(cur: Image, next: Image, f: Fill, ctx: seq<Context>, s: Span, x: int, w: int, h: int)
    requires Consistent(cur, f, ctx, w, h) && IsRun(cur, f.from, s, x)
        && Connected(f.img, f.from, f.seed, Pixel(x, s.y))
    requires IsImage(next, w, h)
    requires forall i, y | 0 <= i < w && 0 <= y < h ::
               next[y][i] == if y == s.y && s.left <= i <= s.right then f.to else cur[y][i]
    ensures Consistent(next, Filled(f, s), ctx + [Context(s.y, s.right, s.left, s.left)], w, h)
    ensures IsImage(f.img, w, h) && Unfilled(Filled(f, s), w, h) < Unfilled(f, w, h)
  {
    hide Covered, Connected, Shows, IsRun, Unfilled, CellsOf, AreDisjoint, IsImage;
    FillSound(cur, f, s, x, w, h);
    FillCovered(cur, f, ctx, s, x, w, h);
    FillShows(cur, next, f, s, x, w, h);
    RunHas(cur, f.from, s, x);
    ShowsImages(cur, f, w, h);
    var more := ctx + [Context(s.y, s.right, s.left, s.left)];
    forall k | 0 <= k < |more| ensures InRow(more[k], Filled(f, s).filled, w, h) {
      if k < |ctx| {
        assert InRow(ctx[k], f.filled, w, h);
      }
    }
  }

  lemma ShowsImages(cur: Image, f: Fill, w: int, h: int)
    requires Shows(cur, f, w, h)
    ensures IsImage(cur, w, h) && IsImage(f.img, w, h)
  {}

  /** Before the first span nothing is filled. */
  lemma FillStart(img: Image, from: int, to: int, seed: Pixel, w: int, h: int)
    requires IsImage(img, w, h) && from != to && Is(img, seed, from)
    ensures Consistent(img, Fill(img, from, to, seed, {}, []), [], w, h)
    ensures Connected(img, from, seed, seed)
  {
    ConnectedSelf(img, from, seed);
  }

  // ----- scanning

  /** The context with the scan of one neighbouring row moved on by one. */
  function Moved(c: Context, direction: int): Context {
    if direction < 0 then c.(leftUp := c.leftUp + 1) else c.(leftDown := c.leftDown + 1)
  }

  function ScanAt(c: Context, direction: int): int {
    if direction < 0 then c.leftUp else c.leftDown
  }

  /** A pixel that is not of the colour to be filled needs no attention. */
  lemma ScanPast(cur: Image, f: Fill, ctx: seq<Context>, direction: int, w: int, h: int)
    requires Consistent(cur, f, ctx, w, h) && |ctx| > 0 && (direction == -1 || direction == 1)
    requires var c := ctx[|ctx| - 1];
             ScanAt(c, direction) <= c.right && !Is(cur, Pixel(ScanAt(c, direction), c.y + direction), f.from)
    ensures Consistent(cur, f, ctx[|ctx| - 1 := Moved(ctx[|ctx| - 1], direction)], w, h)
  {
    hide Sound, Connected;
    var last := |ctx| - 1;
    var c, more := ctx[last], ctx[last := Moved(ctx[last], direction)];
    assert InRow(c, f.filled, w, h);
    forall p, q | p in f.filled && Above(p, q) && Is(f.img, q, f.from) && q !in f.filled ensures Pending(more, q) {
      var k :| 0 <= k < |ctx| && Ahead(ctx[k], q);
      assert Is(cur, q, f.from);
      assert Ahead(more[k], q);
    }
  }

  /** Where the scan stands, the row itself is filled. */
  lemma ScanIsConnected(cur: Image, f: Fill, ctx: seq<Context>, direction: int, w: int, h: int)
    requires Consistent(cur, f, ctx, w, h) && |ctx| > 0 && (direction == -1 || direction == 1)
    requires var c := ctx[|ctx| - 1];
             ScanAt(c, direction) <= c.right && Is(cur, Pixel(ScanAt(c, direction), c.y + direction), f.from)
    ensures var c := ctx[|ctx| - 1]; Connected(f.img, f.from, f.seed, Pixel(ScanAt(c, direction), c.y + direction))
  {
    hide Connected, Covered;
    var c := ctx[|ctx| - 1];
    var p, q := Pixel(ScanAt(c, direction), c.y), Pixel(ScanAt(c, direction), c.y + direction);
    assert InRow(c, f.filled, w, h);
    assert p in f.filled && Is(f.img, q, f.from);
    ConnectedStep(f.img, f.from, f.seed, p, q);
  }

  /** A context whose scans are complete can be dropped. */
  lemma ContextDone(cur: Image, f: Fill, ctx: seq<Context>, w: int, h: int)
    requires Consistent(cur, f, ctx, w, h) && |ctx| > 0
    requires var c := ctx[|ctx| - 1]; (c.y == 0 || c.leftUp > c.right) && (c.y == h - 1 || c.leftDown > c.right)
    ensures Consistent(cur, f, ctx[..|ctx| - 1], w, h)
  {
    hide Sound, Connected;
    var less := ctx[..|ctx| - 1];
    forall p, q | p in f.filled && Above(p, q) && Is(f.img, q, f.from) && q !in f.filled ensures Pending(less, q) {
      var k :| 0 <= k < |ctx| && Ahead(ctx[k], q);
      assert k < |less|;
      assert Ahead(less[k], q);
    }
  }

  /** With no context left, exactly the connected area is filled. */
  lemma FillComplete(cur: Image, f: Fill, w: int, h: int)
    requires Consistent(cur, f, [], w, h) && f.seed in f.filled
    ensures forall p :: p in f.filled <==> Connected(f.img, f.from, f.seed, p)
  {
    hide Connected, Is;
    assert Closed(f.img, f.from, f.filled) by {
      forall p, q | p in f.filled && Adjacent(p, q) && Is(f.img, q, f.from) ensures q in f.filled {
        assert !Pending([], q);
      }
    }
    forall p | Connected(f.img, f.from, f.seed, p) ensures p in f.filled {
      ConnectedStays(f.img, f.from, f.filled, f.seed, p);
    }
  }

  /** What a fill misses is still of the old colour, and reached from a pixel that some context has pending. */
  lemma {:induction false} MissedOnPath(cur: Image, f: Fill, ctx: seq<Context>, path: seq<Pixel>, w: int, h: int)
    requires Consistent(cur, f, ctx, w, h) && IsPath(f.img, f.from, path) && path[0] in f.filled
    requires path[|path| - 1] !in f.filled
    ensures IsBehind(cur, f.from, ctx, path[|path| - 1])
    decreases |path|
  {
    hide Sound, Connected;
    var init, last := path[..|path| - 1], path[|path| - 1];
    assert IsPath(f.img, f.from, init);
    assert Adjacent(path[|path| - 2], last);
    assert Is(cur, last, f.from);
    if path[|path| - 2] in f.filled {
      ConnectedSelf(cur, f.from, last);
    } else {
      MissedOnPath(cur, f, ctx, init, w, h);
      var q :| Pending(ctx, q) && Connected(cur, f.from, q, path[|path| - 2]);
      ConnectedStep(cur, f.from, q, path[|path| - 2], last);
    }
  }

  /** p is connected to a pending pixel. */
  ghost predicate IsBehind(cur: Image, from: int, ctx: seq<Context>, p: Pixel) {
    exists q :: Pending(ctx, q) && Connected(cur, from, q, p)
  }

  lemma Missed(cur: Image, f: Fill, ctx: seq<Context>, p: Pixel, w: int, h: int)
    requires Consistent(cur, f, ctx, w, h) && f.seed in f.filled
    requires Connected(f.img, f.from, f.seed, p) && p !in f.filled
    ensures IsBehind(cur, f.from, ctx, p)
  {
    hide Consistent, IsBehind, Is, Adjacent;
    var path :| IsPath(f.img, f.from, path) && path[0] == f.seed && path[|path| - 1] == p;
    MissedOnPath(cur, f, ctx, path, w, h);
  }
}
