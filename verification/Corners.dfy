/** The corner search over the spans of a region: only span ends are scored, and that is enough. */
module Corners {
  import opened Images

  /** The best score so far and where it was found. */
  datatype Best = Best(score: int, corner: Pixel)

  datatype PolygonScores = PolygonScores(reference: Pixel, best: Best, right: Best, opposite: Best, left: Best)

  function Better(b: Best, score: int, p: Pixel): Best {
    if score > b.score then Best(score, p) else b
  }

  function Distance2(a: Pixel, p: Pixel): int {
    (p.x - a.x) * (p.x - a.x) + (p.y - a.y) * (p.y - a.y)
  }

  /** Scores both ends of a span by their distance from the reference. */
  function FindOneCorner(psd: PolygonScores, s: Span): PolygonScores {
    var p, q := Pixel(s.left, s.y), Pixel(s.right, s.y);
    var first := Better(psd.best, Distance2(psd.reference, p), p);
    psd.(best := Better(first, Distance2(psd.reference, q), q))
  }

  /** How far p lies in the direction of (u, v). */
  function Along(u: int, v: int, p: Pixel): int {
    p.x * u + p.y * v
  }

  function BetterAlong(b: Best, u: int, v: int, s: Span): Best {
    var p, q := Pixel(s.left, s.y), Pixel(s.right, s.y);
    Better(Better(b, Along(u, v, p), p), Along(u, v, q), q)
  }

  /** Scores both ends of a span in the direction of the reference and in the three directions at right
      angles to it and opposite to it. */
  function FindOtherCorners(psd: PolygonScores, s: Span): PolygonScores {
    var u, v := psd.reference.x, psd.reference.y;
    psd.(best := BetterAlong(psd.best, u, v, s), right := BetterAlong(psd.right, -v, u, s),
         opposite := BetterAlong(psd.opposite, -u, -v, s), left := BetterAlong(psd.left, v, -u, s))
  }

  // ----- what is measured

  /** The distance splits into its legs, each the square of a length, and looks the same from all sides. */
  lemma DistanceMeans(a: Pixel, p: Pixel)
    ensures Distance2(a, p) == Distance2(a, Pixel(p.x, a.y)) + Distance2(Pixel(p.x, a.y), p)
    ensures Distance2(a, Pixel(p.x, a.y)) == (p.x - a.x) * (p.x - a.x)
    ensures Distance2(a, Pixel(a.x, p.y)) == (p.y - a.y) * (p.y - a.y)
    ensures Distance2(a, p) >= 0 && (Distance2(a, p) == 0 <==> p == a)
    ensures Distance2(Pixel(a.y, a.x), Pixel(p.y, p.x)) == Distance2(a, p) == Distance2(p, a)
    ensures Distance2(a, Pixel(2 * a.x - p.x, p.y)) == Distance2(a, p) == Distance2(a, Pixel(p.x, 2 * a.y - p.y))
  {
    var dx, dy := p.x - a.x, p.y - a.y;
    SquareSign(dx);
    SquareSign(dy);
    assert dx * dx == (-dx) * (-dx) && dy * dy == (-dy) * (-dy);
    assert 2 * a.x - p.x - a.x == -dx && 2 * a.y - p.y - a.y == -dy;
  }

  lemma SquareSign(x: int)
    ensures x * x >= 0 && (x * x == 0 <==> x == 0)
  {}

  /** The score in a direction is linear in pixel and direction, with the coordinates along the axes; the
      direction scores its own squared length, and nothing at a right angle to it. */
  lemma AlongMeans(u: int, v: int, p: Pixel, q: Pixel)
    ensures Along(u, v, Pixel(p.x + q.x, p.y + q.y)) == Along(u, v, p) + Along(u, v, q)
    ensures Along(1, 0, p) == p.x && Along(0, 1, p) == p.y
    ensures Along(u, v, p) == u * Along(1, 0, p) + v * Along(0, 1, p)
    ensures Along(u, v, Pixel(u, v)) == Distance2(Pixel(0, 0), Pixel(u, v))
    ensures Along(u, v, Pixel(-v, u)) == 0
  {
    assert (p.x + q.x) * u == p.x * u + q.x * u && (p.y + q.y) * v == p.y * v + q.y * v;
  }

  // ----- the far corner

  lemma SquareBetween(l: int, x: int, r: int)
    requires l <= x <= r
    ensures x * x <= l * l || x * x <= r * r
  {
    if x >= 0 {
      assert x * x <= r * r by { Squares(x, r); }
    } else {
      assert x * x <= l * l by { Squares(-x, -l); }
    }
  }

  lemma Squares(a: int, b: int)
    requires 0 <= a <= b
    ensures a * a <= b * b
  {
    assert a * a <= a * b <= b * b;
  }

  /** Distance is convex: no pixel of a span is farther than both ends. */
  lemma EndsAreFarthest(a: Pixel, s: Span, p: Pixel)
    requires p in SpanSet(s)
    ensures Distance2(a, p) <= Distance2(a, Pixel(s.left, s.y)) || Distance2(a, p) <= Distance2(a, Pixel(s.right, s.y))
  {
    SquareBetween(s.left - a.x, p.x - a.x, s.right - a.x);
  }

  lemma {:induction false} OneCornerFound(psd: PolygonScores, spans: seq<Span>)
    requires AreDisjoint(spans)
    ensures var r := Fold(FindOneCorner, psd, spans);
            && r.reference == psd.reference && r.best.score >= psd.best.score
            && (forall p | p in CellsOf(spans) :: Distance2(psd.reference, p) <= r.best.score)
            && (r.best == psd.best || (r.best.corner in CellsOf(spans)
                && Distance2(psd.reference, r.best.corner) == r.best.score))
  {
    hide Distance2;
    if spans != [] {
      var init, s := spans[..|spans| - 1], spans[|spans| - 1];
      OneCornerFound(psd, init);
      assert Pixel(s.left, s.y) in SpanSet(s) && Pixel(s.right, s.y) in SpanSet(s);
      forall p | p in SpanSet(s) ensures Distance2(psd.reference, p) <= Fold(FindOneCorner, psd, spans).best.score {
        EndsAreFarthest(psd.reference, s, p);
      }
    }
  }

  // ----- the four corners

  ghost function BestAlong(b: Best, u: int, v: int, spans: seq<Span>): Best {
    if spans == [] then b else BetterAlong(BestAlong(b, u, v, spans[..|spans| - 1]), u, v, spans[|spans| - 1])
  }

  lemma {:induction false} OtherCornersApart(psd: PolygonScores, spans: seq<Span>)
    ensures var r, u, v := Fold(FindOtherCorners, psd, spans), psd.reference.x, psd.reference.y;
            && r.reference == psd.reference
            && r.best == BestAlong(psd.best, u, v, spans) && r.right == BestAlong(psd.right, -v, u, spans)
            && r.opposite == BestAlong(psd.opposite, -u, -v, spans) && r.left == BestAlong(psd.left, v, -u, spans)
  {
    hide BetterAlong;
    if spans != [] {
      OtherCornersApart(psd, spans[..|spans| - 1]);
    }
  }

  lemma Monotone(a: int, b: int, u: int)
    requires a <= b
    ensures u >= 0 ==> a * u <= b * u
    ensures u <= 0 ==> a * u >= b * u
  {}

  lemma EndsAreFurthestAlong(u: int, v: int, s: Span, p: Pixel)
    requires p in SpanSet(s)
    ensures Along(u, v, p) <= Along(u, v, Pixel(s.left, s.y)) || Along(u, v, p) <= Along(u, v, Pixel(s.right, s.y))
  {
    Monotone(s.left, p.x, u);
    Monotone(p.x, s.right, u);
  }

  lemma {:induction false} BestAlongFound(b: Best, u: int, v: int, spans: seq<Span>)
    requires AreDisjoint(spans)
    ensures var r := BestAlong(b, u, v, spans);
            && r.score >= b.score
            && (forall p | p in CellsOf(spans) :: Along(u, v, p) <= r.score)
            && (r == b || (r.corner in CellsOf(spans) && Along(u, v, r.corner) == r.score))
  {
    hide Along;
    if spans != [] {
      var init, s := spans[..|spans| - 1], spans[|spans| - 1];
      BestAlongFound(b, u, v, init);
      assert Pixel(s.left, s.y) in SpanSet(s) && Pixel(s.right, s.y) in SpanSet(s);
      forall p | p in SpanSet(s) ensures Along(u, v, p) <= BestAlong(b, u, v, spans).score {
        EndsAreFurthestAlong(u, v, s, p);
      }
    }
  }

  /** p is furthest along (u, v) among the cells. */
  ghost predicate IsFurthest(cells: set<Pixel>, u: int, v: int, p: Pixel) {
    p in cells && forall q | q in cells :: Along(u, v, q) <= Along(u, v, p)
  }

  ghost predicate IsFarthest(cells: set<Pixel>, a: Pixel, p: Pixel) {
    p in cells && forall q | q in cells :: Distance2(a, q) <= Distance2(a, p)
  }

  /** From -1 on, the search ends on a pixel farthest from the reference. */
  lemma FarCorner(psd: PolygonScores, spans: seq<Span>)
    requires AreDisjoint(spans) && psd.best.score == -1 && CellsOf(spans) != {}
    ensures IsFarthest(CellsOf(spans), psd.reference, Fold(FindOneCorner, psd, spans).best.corner)
  {
    hide Distance2, CellsOf, Fold, AreDisjoint;
    OneCornerFound(psd, spans);
    var p :| p in CellsOf(spans);
    NotNegative(psd.reference, p);
  }

  lemma NotNegative(a: Pixel, p: Pixel)
    ensures Distance2(a, p) >= 0
  {
    var dx, dy := p.x - a.x, p.y - a.y;
    assert dx * dx >= 0 && dy * dy >= 0;
  }

  /** From the scores of a pixel of the region on, the search ends on the four extreme pixels. */
  lemma FourCorners(psd: PolygonScores, spans: seq<Span>, seed: Pixel)
    requires AreDisjoint(spans) && seed in CellsOf(spans)
    requires var u, v := psd.reference.x, psd.reference.y;
             && psd.best == Best(Along(u, v, seed), seed) && psd.right == Best(Along(-v, u, seed), seed)
             && psd.opposite == Best(Along(-u, -v, seed), seed) && psd.left == Best(Along(v, -u, seed), seed)
    ensures var r, u, v := Fold(FindOtherCorners, psd, spans), psd.reference.x, psd.reference.y;
            && IsFurthest(CellsOf(spans), u, v, r.best.corner) && IsFurthest(CellsOf(spans), -v, u, r.right.corner)
            && IsFurthest(CellsOf(spans), -u, -v, r.opposite.corner) && IsFurthest(CellsOf(spans), v, -u, r.left.corner)
  {
    hide Along, CellsOf, Fold, AreDisjoint, BestAlong;
    var u, v := psd.reference.x, psd.reference.y;
    OtherCornersApart(psd, spans);
    BestAlongFound(psd.best, u, v, spans);
    BestAlongFound(psd.right, -v, u, spans);
    BestAlongFound(psd.opposite, -u, -v, spans);
    BestAlongFound(psd.left, v, -u, spans);
  }

  // ----- rectangles

  /** The four corners as they are returned: the pixels furthest in the direction from the reference to a pixel
      farthest from it, and in the directions at right angles and opposite to that. */
  ghost predicate AreCorners(cells: set<Pixel>, reference: Pixel, corners: seq<Pixel>) {
    |corners| == 4 && exists far ::
      IsFarthest(cells, reference, far) && AreFurthest(cells, far.x - reference.x, far.y - reference.y, corners)
  }

  ghost predicate AreFurthest(cells: set<Pixel>, u: int, v: int, corners: seq<Pixel>)
    requires |corners| == 4
  {
    && IsFurthest(cells, u, v, corners[0]) && IsFurthest(cells, -v, u, corners[1])
    && IsFurthest(cells, -u, -v, corners[2]) && IsFurthest(cells, v, -u, corners[3])
  }

  predicate IsSign(s: int) {
    s == 1 || s == -1
  }

  function Vertex(c: Pixel, a: int, b: int, s: int, t: int): Pixel {
    Pixel(c.x + s * a, c.y + t * b)
  }

  /** The cells lie in the rectangle around c, and its vertices are among them. */
  ghost predicate FillsBox(cells: set<Pixel>, c: Pixel, a: int, b: int) {
    && a >= 1 && b >= 1
    && (forall p | p in cells :: -a <= p.x - c.x <= a && -b <= p.y - c.y <= b)
    && (forall s, t | IsSign(s) && IsSign(t) :: Vertex(c, a, b, s, t) in cells)
  }

  /** A region whose bounding box has its vertices in the region, whatever its shape otherwise, has these
      vertices as its corners, one after the other around the box, if the reference is in the middle. */
  lemma BoxCorners(cells: set<Pixel>, c: Pixel, a: int, b: int, corners: seq<Pixel>)
    requires FillsBox(cells, c, a, b) && AreCorners(cells, c, corners)
    ensures exists s, t :: IsSign(s) && IsSign(t)
              && corners == [Vertex(c, a, b, s, t), Vertex(c, a, b, -t, s),
                             Vertex(c, a, b, -s, -t), Vertex(c, a, b, t, -s)]
  {
    hide Vertex, IsFurthest, FillsBox, IsFarthest;
    var far :| IsFarthest(cells, c, far) && AreFurthest(cells, far.x - c.x, far.y - c.y, corners);
    BoxFarthest(cells, c, a, b, far);
    var u, v := far.x - c.x, far.y - c.y;
    BoxIsWide(cells, c, a, b);
    var s, t := if u > 0 then 1 else -1, if v > 0 then 1 else -1;
    BoxFurthest(cells, c, a, b, u, v, s, t, corners[0]);
    BoxFurthest(cells, c, a, b, -v, u, -t, s, corners[1]);
    BoxFurthest(cells, c, a, b, -u, -v, -s, -t, corners[2]);
    BoxFurthest(cells, c, a, b, v, -u, t, -s, corners[3]);
    assert IsSign(s) && IsSign(t);
  }

  lemma BoxIsWide(cells: set<Pixel>, c: Pixel, a: int, b: int)
    requires FillsBox(cells, c, a, b)
    ensures a >= 1 && b >= 1
  {}

  lemma SquareWithin(x: int, a: int)
    requires -a <= x <= a
    ensures x * x <= a * a && (x * x == a * a ==> x == a || x == -a)
  {
    assert a * a - x * x == (a - x) * (a + x);
    SumTimesDifference(a - x, a + x);
  }

  lemma SumTimesDifference(d: int, s: int)
    requires d >= 0 && s >= 0
    ensures d * s >= 0 && (d * s == 0 ==> d == 0 || s == 0)
  {}

  lemma BoxFarthest(cells: set<Pixel>, c: Pixel, a: int, b: int, far: Pixel)
    requires FillsBox(cells, c, a, b) && IsFarthest(cells, c, far)
    ensures (far.x - c.x == a || far.x - c.x == -a) && (far.y - c.y == b || far.y - c.y == -b)
  {
    var w := Vertex(c, a, b, 1, 1);
    assert IsSign(1) && w in cells;
    assert Distance2(c, w) == a * a + b * b;
    SquareWithin(far.x - c.x, a);
    SquareWithin(far.y - c.y, b);
  }

  lemma BoxFurthest(cells: set<Pixel>, c: Pixel, a: int, b: int, u: int, v: int, s: int, t: int, p: Pixel)
    requires FillsBox(cells, c, a, b) && IsFurthest(cells, u, v, p) && u != 0 && v != 0
    requires s == (if u > 0 then 1 else -1) && t == (if v > 0 then 1 else -1)
    ensures p == Vertex(c, a, b, s, t)
  {
    assert IsSign(s) && IsSign(t);
    var w := Vertex(c, a, b, s, t);
    assert w in cells && Along(u, v, w) <= Along(u, v, p);
    assert w.x == (if u > 0 then c.x + a else c.x - a) && w.y == (if v > 0 then c.y + b else c.y - b);
    OneSided(u, p.x - w.x);
    OneSided(v, p.y - w.y);
    assert (p.x - w.x) * u == p.x * u - w.x * u && (p.y - w.y) * v == p.y * v - w.y * v;
  }

  lemma OneSided(u: int, d: int)
    requires u != 0 && (if u > 0 then d <= 0 else d >= 0)
    ensures d * u <= 0 && (d * u == 0 ==> d == 0)
  {}
}
