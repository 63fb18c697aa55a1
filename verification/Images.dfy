/** Images, their connected areas, and the spans that a fill reports. */
module Images {
  type Image = seq<seq<int>>

  datatype Pixel = Pixel(x: int, y: int)

  ghost predicate Is(img: Image, p: Pixel, c: int) {
    0 <= p.y < |img| && 0 <= p.x < |img[p.y]| && img[p.y][p.x] == c
  }

  predicate Beside(p: Pixel, q: Pixel) {
    p.y == q.y && (p.x == q.x + 1 || q.x == p.x + 1)
  }

  predicate Above(p: Pixel, q: Pixel) {
    p.x == q.x && (p.y == q.y + 1 || q.y == p.y + 1)
  }

  predicate Adjacent(p: Pixel, q: Pixel) {
    Beside(p, q) || Above(p, q)
  }

  // ----- connected areas

  ghost predicate IsPath(img: Image, c: int, path: seq<Pixel>) {
    && |path| > 0
    && (forall i | 0 <= i < |path| :: Is(img, path[i], c))
    && (forall i | 0 <= i < |path| - 1 :: Adjacent(path[i], path[i + 1]))
  }

  /** q can be reached from p through pixels of colour c, each next to the one before. */
  ghost predicate Connected(img: Image, c: int, p: Pixel, q: Pixel) {
    exists path :: IsPath(img, c, path) && path[0] == p && path[|path| - 1] == q
  }

  lemma ConnectedSelf(img: Image, c: int, p: Pixel)
    requires Is(img, p, c)
    ensures Connected(img, c, p, p)
  {
    assert IsPath(img, c, [p]);
  }

  lemma ConnectedStep(img: Image, c: int, p: Pixel, q: Pixel, r: Pixel)
    requires Connected(img, c, p, q) && Adjacent(q, r) && Is(img, r, c)
    ensures Connected(img, c, p, r)
  {
    hide Is, Adjacent;
    var path :| IsPath(img, c, path) && path[0] == p && path[|path| - 1] == q;
    assert IsPath(img, c, path + [r]);
  }

  lemma ConnectedEnds(img: Image, c: int, p: Pixel, q: Pixel)
    requires Connected(img, c, p, q)
    ensures Is(img, p, c) && Is(img, q, c)
  {}

  /** A path can be walked back. */
  lemma ConnectedBack(img: Image, c: int, p: Pixel, q: Pixel)
    requires Connected(img, c, p, q)
    ensures Connected(img, c, q, p)
  {
    hide Is;
    var path :| IsPath(img, c, path) && path[0] == p && path[|path| - 1] == q;
    var back := seq(|path|, i requires 0 <= i < |path| => path[|path| - 1 - i]);
    forall i | 0 <= i < |back| - 1 ensures Adjacent(back[i], back[i + 1]) {
      assert Adjacent(path[|path| - 2 - i], path[|path| - 2 - i + 1]);
    }
    assert IsPath(img, c, back);
  }

  /** Paths can be joined. */
  lemma ConnectedJoin(img: Image, c: int, p: Pixel, q: Pixel, r: Pixel)
    requires Connected(img, c, p, q) && Connected(img, c, q, r)
    ensures Connected(img, c, p, r)
  {
    hide Is, Adjacent;
    var first :| IsPath(img, c, first) && first[0] == p && first[|first| - 1] == q;
    var second :| IsPath(img, c, second) && second[0] == q && second[|second| - 1] == r;
    assert IsPath(img, c, first + second[1..]);
  }

  /** s cannot be left by a step to a neighbouring pixel of colour c. */
  ghost predicate Closed(img: Image, c: int, s: set<Pixel>) {
    forall p, q | p in s && Adjacent(p, q) && Is(img, q, c) :: q in s
  }

  lemma {:induction false} PathStays(img: Image, c: int, s: set<Pixel>, path: seq<Pixel>)
    requires Closed(img, c, s) && IsPath(img, c, path) && path[0] in s
    ensures path[|path| - 1] in s
    decreases |path|
  {
    hide Is, Adjacent;
    if |path| > 1 {
      var init := path[..|path| - 1];
      assert IsPath(img, c, init);
      PathStays(img, c, s, init);
      assert Adjacent(path[|path| - 2], path[|path| - 1]);
    }
  }

  lemma ConnectedStays(img: Image, c: int, s: set<Pixel>, p: Pixel, q: Pixel)
    requires Closed(img, c, s) && p in s && Connected(img, c, p, q)
    ensures q in s
  {
    var path :| IsPath(img, c, path) && path[0] == p && path[|path| - 1] == q;
    PathStays(img, c, s, path);
  }

  /** The pixels of an image of the given size that are connected to p. */
  ghost function AreaOf(img: Image, c: int, p: Pixel, w: int, h: int): set<Pixel> {
    set x, y | 0 <= x < w && 0 <= y < h && Connected(img, c, p, Pixel(x, y)) :: Pixel(x, y)
  }

  // ----- spans

  datatype Span = Span(y: int, left: int, right: int)

  ghost function SpanSet(s: Span): set<Pixel> {
    set x | s.left <= x <= s.right :: Pixel(x, s.y)
  }

  ghost function CellsOf(spans: seq<Span>): set<Pixel> {
    if spans == [] then {} else CellsOf(spans[..|spans| - 1]) + SpanSet(spans[|spans| - 1])
  }

  /** No pixel is in two of the spans, and none is empty. */
  ghost predicate AreDisjoint(spans: seq<Span>) {
    if spans == [] then true
    else
      var init, last := spans[..|spans| - 1], spans[|spans| - 1];
      AreDisjoint(init) && last.left <= last.right && CellsOf(init) !! SpanSet(last)
  }

  lemma SpansGrow(spans: seq<Span>, s: Span)
    requires AreDisjoint(spans) && s.left <= s.right && CellsOf(spans) !! SpanSet(s)
    ensures AreDisjoint(spans + [s]) && CellsOf(spans + [s]) == CellsOf(spans) + SpanSet(s)
  {
    assert (spans + [s])[..|spans|] == spans;
  }

  lemma {:induction false} CellIsInSpan(spans: seq<Span>, p: Pixel)
    ensures p in CellsOf(spans) <==> exists s :: s in spans && p in SpanSet(s)
  {
    if spans != [] {
      CellIsInSpan(spans[..|spans| - 1], p);
      assert forall s :: s in spans <==> s in spans[..|spans| - 1] || s == spans[|spans| - 1];
    }
  }

  function Area1(s: Span): int { s.right - s.left + 1 }

  /** The summed lengths of the spans. */
  function TotalArea(spans: seq<Span>): int {
    if spans == [] then 0 else TotalArea(spans[..|spans| - 1]) + Area1(spans[|spans| - 1])
  }

  lemma {:induction false} SpanSize(s: Span)
    requires s.left <= s.right + 1
    ensures |SpanSet(s)| == Area1(s)
    decreases Area1(s)
  {
    if s.left <= s.right {
      var less := Span(s.y, s.left, s.right - 1);
      SpanSize(less);
      assert SpanSet(s) == SpanSet(less) + {Pixel(s.right, s.y)};
    } else {
      assert SpanSet(s) == {};
    }
  }

  /** Disjoint spans have as many pixels as their lengths add up to. */
  lemma {:induction false} AreaIsSize(spans: seq<Span>)
    requires AreDisjoint(spans)
    ensures |CellsOf(spans)| == TotalArea(spans)
  {
    if spans != [] {
      AreaIsSize(spans[..|spans| - 1]);
      SpanSize(spans[|spans| - 1]);
    }
  }

  /** Folding a callback over the spans. */
  function Fold<S>(func: (S, Span) -> S, user: S, spans: seq<Span>): S {
    if spans == [] then user else func(Fold(func, user, spans[..|spans| - 1]), spans[|spans| - 1])
  }

  lemma FoldStep<S>(func: (S, Span) -> S, user: S, spans: seq<Span>, s: Span)
    ensures Fold(func, user, spans + [s]) == func(Fold(func, user, spans), s)
  {
    assert (spans + [s])[..|spans|] == spans;
  }
}
