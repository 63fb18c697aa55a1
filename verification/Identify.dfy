/** The fill of connected pixels, and the labelling of regions with it. */
module Identify {
  import opened Images
  import opened FillState
  import opened Labels
  import opened Corners

  /** What the search for capstones asks for: the code of the region at a pixel, or also its corners. */
  datatype Request =
    | CodeAt(x: int, y: int)
    | CornersAt(x: int, y: int, reference: Pixel)

  datatype Answer = Answer(code: int, corners: seq<Pixel>)

  class Quirc {
    const w: int
    const h: int
    const pixels: array2<int>
    const floodFillVars: array<Context>
    const regions: array<Region>
    var numRegions: int

    ghost predicate Valid() {
      0 < w && 0 < h && pixels.Length0 == h && pixels.Length1 == w && floodFillVars.Length > 0
          && regions.Length == MAX_REGIONS
    }

    ghost function Contents(): (img: Image)
      requires Valid()
      reads pixels
      ensures IsImage(img, w, h)
      ensures forall y, x | 0 <= y < h && 0 <= x < w :: img[y][x] == pixels[y, x]
    {
      seq(h, y requires 0 <= y < h reads pixels => seq(w, x requires 0 <= x < w reads pixels => pixels[y, x]))
    }

    /** Starts with a black and white image and no regions. */
    constructor (width: int, height: int, image: (int, int) -> int, stackSize: nat)
      requires width > 0 && height > 0 && stackSize > 0
      requires forall x, y :: image(x, y) == WHITE || image(x, y) == BLACK
      ensures Valid() && w == width && h == height && floodFillVars.Length == stackSize
      ensures forall x, y | 0 <= x < w && 0 <= y < h :: Contents()[y][x] == image(x, y)
      ensures IsLabelling(Contents())
    {
      w, h := width, height;
      pixels := new int[height, width]((y, x) => image(x, y));
      floodFillVars := new Context[stackSize](i => Context(0, 0, 0, 0));
      regions := new Region[MAX_REGIONS](i => Region(Pixel(0, 0), 0, -1));
      numRegions := FIRST_REGION;
    }

    /** Fills the run of equal pixels around (x, y) and reports it. */
    method FloodFillLine<S>(x: int, y: int, from: int, to: int, func: (S, Span) -> S, user: S)
      returns (left: int, right: int, user': S)
      requires Valid() && 0 <= x < w && 0 <= y < h && pixels[y, x] == from
      modifies pixels
      ensures IsRun(old(Contents()), from, Span(y, left, right), x) && 0 <= left && right < w
      ensures forall i, j | 0 <= i < w && 0 <= j < h ::
                Contents()[j][i] == if j == y && left <= i <= right then to else old(Contents())[j][i]
      ensures user' == func(user, Span(y, left, right))
    {
      left, right := x, x;
      while left > 0 && pixels[y, left - 1] == from
        invariant 0 <= left <= x && forall i | left <= i <= x :: pixels[y, i] == from
      {
        left := left - 1;
      }
      while right < w - 1 && pixels[y, right + 1] == from
        invariant x <= right < w && forall i | left <= i <= right :: pixels[y, i] == from
      {
        right := right + 1;
      }
      var i := left;
      while i <= right
        invariant left <= i <= right + 1
        invariant forall j, k | 0 <= j < h && 0 <= k < w ::
                    pixels[j, k] == if j == y && left <= k < i then to else old(pixels[j, k])
      {
        pixels[y, i] := to;
        i := i + 1;
      }
      user' := func(user, Span(y, left, right));
    }

    /** Looks for a pixel to fill over or under the span of context k; if there is one, fills its run
        and starts a context for it. */
    method FloodFillCallNext<S>(k: int, direction: int, from: int, to: int, func: (S, Span) -> S, user: S,
        ghost f: Fill)
      returns (found: bool, user': S, ghost f': Fill)
      requires Valid() && 0 <= k < floodFillVars.Length - 1 && (direction == -1 || direction == 1)
      requires 0 <= floodFillVars[k].y + direction < h && f.from == from && f.to == to
      requires Consistent(Contents(), f, floodFillVars[..k + 1], w, h)
      modifies pixels, floodFillVars
      ensures f'.img == f.img && f'.from == from && f'.to == to && f'.seed == f.seed && f.filled <= f'.filled
      ensures found ==> Consistent(Contents(), f', floodFillVars[..k + 2], w, h)
      ensures found ==> Unfilled(f', w, h) < Unfilled(f, w, h)
      ensures found ==> exists s :: f'.spans == f.spans + [s] && user' == func(user, s)
      ensures !found ==> f' == f && user' == user && Consistent(Contents(), f, floodFillVars[..k + 1], w, h)
      ensures !found ==> var c := floodFillVars[k];
                         c.y == old(floodFillVars[k]).y && c.right == old(floodFillVars[k]).right
                             && ScanAt(c, direction) > c.right
                         && ScanAt(c, -direction) == ScanAt(old(floodFillVars[k]), -direction)
    {
      hide Consistent, IsRun, Unfilled, Is, Connected;
      f', user' := f, user;
      var c := floodFillVars[k];
      while ScanAt(floodFillVars[k], direction) <= floodFillVars[k].right
        invariant Consistent(Contents(), f, floodFillVars[..k + 1], w, h)
        invariant floodFillVars[k].y == c.y && floodFillVars[k].right == c.right
        invariant ScanAt(floodFillVars[k], -direction) == ScanAt(c, -direction)
        decreases c.right - ScanAt(floodFillVars[k], direction)
      {
        ghost var ctx := floodFillVars[..k + 1];
        var x, y := ScanAt(floodFillVars[k], direction), c.y + direction;
        ScanInRow(Contents(), f, ctx, direction, w, h);
        if pixels[y, x] == from {
          ghost var before := Contents();
          ScanIsConnected(before, f, ctx, direction, w, h);
          var left, right;
          left, right, user' := FloodFillLine(x, y, from, to, func, user);
          floodFillVars[k + 1] := Context(y, right, left, left);
          FillStep(before, Contents(), f, ctx, Span(y, left, right), x, w, h);
          f' := Filled(f, Span(y, left, right));
          assert floodFillVars[..k + 2] == ctx + [Context(y, right, left, left)];
          return true, user', f';
        }
        ScanPast(Contents(), f, ctx, direction, w, h);
        floodFillVars[k] := Moved(floodFillVars[k], direction);
        assert floodFillVars[..k + 1] == ctx[k := Moved(ctx[k], direction)];
      }
      found := false;
    }

    /** Looks over and under the span of context k; if there is nothing to fill, the context is done. */
    method FloodFillAround<S>(k: int, from: int, to: int, func: (S, Span) -> S, user: S, ghost f: Fill)
      returns (found: bool, user': S, ghost f': Fill)
      requires Valid() && 0 <= k < floodFillVars.Length - 1 && f.from == from && f.to == to
      requires Consistent(Contents(), f, floodFillVars[..k + 1], w, h)
      modifies pixels, floodFillVars
      ensures f'.img == f.img && f'.from == from && f'.to == to && f'.seed == f.seed && f.filled <= f'.filled
      ensures IsImage(f.img, w, h)
      ensures found ==> Consistent(Contents(), f', floodFillVars[..k + 2], w, h)
      ensures found ==> Unfilled(f', w, h) < Unfilled(f, w, h)
      ensures found ==> exists s :: f'.spans == f.spans + [s] && user' == func(user, s)
      ensures !found ==> f' == f && user' == user && Consistent(Contents(), f, floodFillVars[..k], w, h)
    {
      hide Consistent, IsRun, Unfilled, Is, Connected;
      LastInRow(Contents(), f, floodFillVars[..k + 1], w, h);
      f', user' := f, user;
      var y := floodFillVars[k].y;
      if y > 0 {
        found, user', f' := FloodFillCallNext(k, -1, from, to, func, user, f);
        if found {
          return;
        }
      }
      if y < h - 1 {
        found, user', f' := FloodFillCallNext(k, 1, from, to, func, user, f);
        if found {
          return;
        }
      }
      ContextDone(Contents(), f, floodFillVars[..k + 1], w, h);
      assert floodFillVars[..k + 1][..k] == floodFillVars[..k];
      found := false;
    }

    /** Fills the area connected to the seed, span by span, with a stack of contexts. Only a full stack
        stops it early; what is missed then lies behind pixels that are pending on the stack. */
    method FloodFillSeed<S>(x0: int, y0: int, from: int, to: int, func: (S, Span) -> S, user: S)
      returns (user': S, ghost spans: seq<Span>, ghost complete: bool)
      requires Valid() && 0 <= x0 < w && 0 <= y0 < h && pixels[y0, x0] == from && from != to
      modifies pixels, floodFillVars
      ensures user' == Fold(func, user, spans)
      ensures AreDisjoint(spans) && Pixel(x0, y0) in CellsOf(spans)
      ensures forall x, y | 0 <= x < w && 0 <= y < h ::
                Contents()[y][x] == if Pixel(x, y) in CellsOf(spans) then to else old(Contents())[y][x]
      ensures forall p | p in CellsOf(spans) :: Connected(old(Contents()), from, Pixel(x0, y0), p)
      ensures complete ==> forall p | Connected(old(Contents()), from, Pixel(x0, y0), p) :: p in CellsOf(spans)
      ensures !complete ==> |spans| >= floodFillVars.Length
      ensures !complete ==> forall p | Connected(old(Contents()), from, Pixel(x0, y0), p) && p !in CellsOf(spans) ::
                              IsBehind(Contents(), from, floodFillVars[..], p)
    {
      hide Consistent, IsRun, Unfilled, Is, Connected, Fold, CellsOf, AreDisjoint, IsBehind;
      ghost var img, seed := Contents(), Pixel(x0, y0);
      ghost var f := Fill(img, from, to, seed, {}, []);
      var left, right;
      SeedIs(img, x0, y0, from, w, h);
      FillStart(img, from, to, seed, w, h);
      NothingFolded(func, user);
      left, right, user' := FloodFillLine(x0, y0, from, to, func, user);
      floodFillVars[0] := Context(y0, right, left, left);
      FillStep(img, Contents(), f, [], Span(y0, left, right), x0, w, h);
      FoldStep(func, user, [], Span(y0, left, right));
      f := Filled(f, Span(y0, left, right));
      assert floodFillVars[..1] == [] + [Context(y0, right, left, left)];
      var top := 0;
      complete := false;
      while true
        invariant 0 <= top < floodFillVars.Length && top < |f.spans|
        invariant f.img == img && f.from == from && f.to == to && f.seed == seed && seed in f.filled
        invariant Consistent(Contents(), f, floodFillVars[..top + 1], w, h)
        invariant user' == Fold(func, user, f.spans)
        decreases Unfilled(f, w, h), top
      {
        if top == floodFillVars.Length - 1 {
          break;
        }
        ghost var start := f;
        var found;
        found, user', f := FloodFillAround(top, from, to, func, user', f);
        if found {
          SpanFolded(func, user, start, f, user');
          top := top + 1;
          continue;
        }
        if top > 0 {
          top := top - 1;
          continue;
        }
        assert floodFillVars[..0] == [];
        FillComplete(Contents(), f, w, h);
        complete := true;
        break;
      }
      spans := f.spans;
      ghost var rest := floodFillVars[..if complete then 0 else top + 1];
      FilledMeans(Contents(), f, rest, w, h);
      assert !complete ==> rest == floodFillVars[..];
    }

    /** The image and its labels are those of a black and white image, partly labelled. */
    ghost predicate IsLabelling(base: Image)
      requires Valid()
      reads this, pixels, regions
    {
      Labelled(base, Contents(), regions[..], numRegions, w, h)
    }

    /** Labels and seeds are in order. */
    ghost predicate Sound()
      requires Valid()
      reads this, pixels, regions
    {
      InOrder(Contents(), regions[..], numRegions, w, h)
    }

    /** The label of the region at (x, y), which is labelled now if it was not before. */
    method RegionCode(x: int, y: int, ghost base: Image) returns (code: int, ghost complete: bool)
      requires Valid() && Sound()
      modifies pixels, floodFillVars, regions, this`numRegions
      ensures Sound() && Grown(old(Contents()), Contents(), w, h)
      ensures KeepsRegions(old(regions[..]), old(numRegions), regions[..], numRegions)
      ensures old(IsLabelling(base)) && complete ==> IsLabelling(base)
      ensures var inside := 0 <= x < w && 0 <= y < h;
              var pixel := if inside then old(Contents())[y][x] else WHITE;
              && code == (if pixel >= 2 then pixel
                          else if pixel == WHITE || old(numRegions) >= 65534 then -1 else old(numRegions))
              && (pixel == BLACK && code != -1 ==>
                    numRegions == old(numRegions) + 1 && regions[code].seed == Pixel(x, y))
              && (pixel != BLACK || code == -1 ==>
                    complete && numRegions == old(numRegions) && Contents() == old(Contents()))
              && (code != -1 ==> Contents()[y][x] == code)
      ensures !complete ==> IsIntricate(old(Contents()), BLACK, Pixel(x, y), floodFillVars.Length)
    {
      hide Connected, Is, Fold, CellsOf, AreDisjoint, IsBehind, Grown, KeepsRegions, Labelled, InOrder;
      complete := true;
      ghost var before, known, num := Contents(), regions[..], numRegions;
      NothingGrown(before, known, num, w, h);
      if x < 0 || y < 0 || x >= w || y >= h {
        return -1, true;
      }
      InOrderAt(before, known, num, w, h, x, y);
      var pixel := pixels[y, x];
      if pixel >= FIRST_REGION {
        return pixel, true;
      }
      if pixel == WHITE {
        return -1, true;
      }
      if numRegions >= MAX_REGIONS {
        return -1, true;
      }
      var region := numRegions;
      numRegions := numRegions + 1;
      var box := Region(Pixel(x, y), 0, -1);
      ghost var spans;
      box, spans, complete := FloodFillSeed(x, y, pixel, region, AreaCount, box);
      AreaCounted(Region(Pixel(x, y), 0, -1), spans);
      regions[region] := box;
      KeptRegions(known, num, regions[..], numRegions);
      InOrderLabel(before, Contents(), CellsOf(spans), known, regions[..], region, w, h);
      GrownBy(before, Contents(), CellsOf(spans), Pixel(x, y), region, w, h);
      AreaIsSize(spans);
      if Labelled(base, before, known, num, w, h) && complete {
        LabelAdded(base, before, Contents(), known, regions[..], region, w, h, CellsOf(spans));
      }
      return region, complete;
    }

    /** The four corners of a region: fills it with black and back, so the image is left as it was. */
    method FindRegionCorners(rcode: int, reference: Pixel, ghost base: Image) returns (corners: seq<Pixel>,
        ghost complete: bool)
      requires Valid() && Sound() && FIRST_REGION <= rcode < numRegions
      modifies pixels, floodFillVars
      ensures Sound()
      ensures old(IsLabelling(base)) && complete ==>
                && Contents() == old(Contents()) && IsLabelling(base)
                && AreCorners(PixelsOf(old(Contents()), rcode, w, h), reference, corners)
      ensures old(IsLabelling(base)) && !complete ==>
                IsIntricate(old(Contents()), rcode, regions[rcode].seed, floodFillVars.Length)
    {
      hide Connected, Is, Fold, CellsOf, AreDisjoint, IsBehind, Labelled, InOrder, PixelsOf, IsFarthest, IsFurthest,
        Along, IsIntricate, AreCorners;
      ghost var before, known := Contents(), regions[..];
      SeedInOrder(before, known, numRegions, w, h, rcode);
      var seed := regions[rcode].seed;
      var psd := PolygonScores(reference, Best(-1, seed), Best(0, seed), Best(0, seed), Best(0, seed));
      ghost var start := psd;
      ghost var first, second, complete';
      psd, first, complete := FloodFillSeed(seed.x, seed.y, rcode, BLACK, FindOneCorner, psd);
      ghost var clear, far, whole := Contents(), psd.best.corner, complete;
      var u, v := psd.best.corner.x - reference.x, psd.best.corner.y - reference.y;
      psd := PolygonScores(Pixel(u, v), Best(Along(u, v, seed), seed), Best(Along(-v, u, seed), seed),
                           Best(Along(-u, -v, seed), seed), Best(Along(v, -u, seed), seed));
      ghost var again := psd;
      psd, second, complete' := FloodFillSeed(seed.x, seed.y, BLACK, rcode, FindOtherCorners, psd);
      corners := [psd.best.corner, psd.right.corner, psd.opposite.corner, psd.left.corner];
      complete := complete && complete';
      InOrderRefill(before, clear, Contents(), CellsOf(first), CellsOf(second), known, numRegions, w, h, rcode);
      if Labelled(base, before, known, numRegions, w, h) {
        LabelConnected(base, before, known, numRegions, w, h, rcode);
        Overflow(before, rcode, seed, first, floodFillVars.Length);
        if whole {
          CellsAreLabel(before, first, rcode, w, h);
          ClearedConnected(base, before, clear, known, numRegions, w, h, rcode);
          Overflow(before, rcode, seed, second, floodFillVars.Length);
        }
        if complete {
          FarCorner(start, first);
          SameCells(first, second);
          Restored(before, clear, Contents(), CellsOf(first), rcode, w, h);
          FourCorners(again, second, seed);
          CornersFound(PixelsOf(before, rcode, w, h), reference, far, corners);
        }
      }
    }

    /** Answers one request. */
    method Serve(request: Request, ghost base: Image) returns (answer: Answer, ghost complete: bool)
      requires Valid() && Sound()
      modifies pixels, floodFillVars, regions, this`numRegions
      ensures Sound() && KeepsRegions(old(regions[..]), old(numRegions), regions[..], numRegions)
      ensures old(IsLabelling(base)) && complete ==>
                && IsLabelling(base) && Grown(old(Contents()), Contents(), w, h)
                && IsRight(base, Contents(), numRegions, request, answer, w, h)
      ensures old(IsLabelling(base)) && !complete ==> HasIntricate(base, floodFillVars.Length)
    {
      hide Labelled, InOrder, Grown, Connected, Is, PixelsOf, AreaOf, AreCorners, IsIntricate, HasIntricate,
        KeepsRegions;
      ghost var before, known, num := Contents(), regions[..], numRegions;
      ghost var p := Pixel(request.x, request.y);
      InOrderAt(before, known, num, w, h, p.x, p.y);
      var code, complete' := RegionCode(request.x, request.y, base);
      answer, complete := Answer(code, []), complete';
      ghost var cur, more := Contents(), regions[..];
      InOrderAt(cur, more, numRegions, w, h, p.x, p.y);
      if Labelled(base, before, known, num, w, h) {
        LabelsKnown(base, before, known, num, w, h, p.x, p.y);
        if !complete' {
          IntricateUnlabelled(base, before, known, num, w, h, p, floodFillVars.Length);
        }
      }
      if request.CornersAt? && code != -1 {
        var corners;
        corners, complete' := FindRegionCorners(code, request.reference, base);
        answer, complete := Answer(code, corners), complete && complete';
        if Labelled(base, cur, more, numRegions, w, h) {
          LabelIsArea(base, cur, more, numRegions, w, h, code, p);
          if !complete' {
            IntricateRegion(base, cur, more, numRegions, w, h, code, floodFillVars.Length);
          }
        }
      }
    }

    /** Answers any list of requests. Whatever happens, labels and seeds stay in order and known regions are
        kept. Unless some black area is too intricate for the stack, all answers are right in the end, and the
        labels are whole black areas with their pixel counts. */
    method ServeAll(requests: seq<Request>, ghost base: Image) returns (answers: seq<Answer>, ghost complete: bool)
      requires Valid() && IsLabelling(base)
      modifies pixels, floodFillVars, regions, this`numRegions
      ensures |answers| == |requests|
      ensures Sound() && KeepsRegions(old(regions[..]), old(numRegions), regions[..], numRegions)
      ensures complete ==> IsLabelling(base) && Grown(old(Contents()), Contents(), w, h)
      ensures complete ==> forall k | 0 <= k < |requests| ::
                             IsRight(base, Contents(), numRegions, requests[k], answers[k], w, h)
      ensures !complete ==> HasIntricate(base, floodFillVars.Length)
    {
      hide Labelled, InOrder, Grown, IsRight, HasIntricate, KeepsRegions;
      ghost var before, known, num := Contents(), regions[..], numRegions;
      LabelledInOrder(base, before, known, num, w, h);
      NothingGrown(before, known, num, w, h);
      answers, complete := [], true;
      for i := 0 to |requests|
        invariant Sound() && KeepsRegions(known, num, regions[..], numRegions) && |answers| == i
        invariant complete ==> IsLabelling(base) && Grown(before, Contents(), w, h)
        invariant complete ==>
            forall k | 0 <= k < i :: IsRight(base, Contents(), numRegions, requests[k], answers[k], w, h)
        invariant !complete ==> HasIntricate(base, floodFillVars.Length)
      {
        ghost var cur, more, n := Contents(), regions[..], numRegions;
        var answer;
        ghost var complete';
        answer, complete' := Serve(requests[i], base);
        KeptFurther(known, num, more, n, regions[..], numRegions);
        if complete && complete' {
          GrownFurther(before, cur, Contents(), w, h);
          forall k | 0 <= k < i ensures IsRight(base, Contents(), numRegions, requests[k], answers[k], w, h) {
            StaysRight(base, cur, n, Contents(), numRegions, requests[k], answers[k], w, h);
          }
        }
        complete := complete && complete';
        answers := answers + [answer];
      }
    }
  }

  /** Only black pixels have changed. */
  ghost predicate Grown(before: Image, after: Image, w: int, h: int) {
    && IsImage(before, w, h) && IsImage(after, w, h)
    && forall x, y | 0 <= x < w && 0 <= y < h && before[y][x] != BLACK :: after[y][x] == before[y][x]
  }

  lemma NothingGrown(img: Image, regions: seq<Region>, num: int, w: int, h: int)
    requires InOrder(img, regions, num, w, h)
    ensures Grown(img, img, w, h) && FIRST_REGION <= num <= |regions| && KeepsRegions(regions, num, regions, num)
  {}

  lemma InOrderAt(img: Image, regions: seq<Region>, num: int, w: int, h: int, x: int, y: int)
    requires InOrder(img, regions, num, w, h)
    ensures IsImage(img, w, h) && FIRST_REGION <= num <= |regions|
    ensures 0 <= x < w && 0 <= y < h ==>
              && Is(img, Pixel(x, y), img[y][x])
              && (img[y][x] == WHITE || img[y][x] == BLACK || FIRST_REGION <= img[y][x] < num)
  {}

  lemma SeedInOrder(img: Image, regions: seq<Region>, num: int, w: int, h: int, r: int)
    requires InOrder(img, regions, num, w, h) && FIRST_REGION <= r < num
    ensures num <= |regions|
    ensures var p := regions[r].seed; 0 <= p.x < w && 0 <= p.y < h && img[p.y][p.x] == r
  {
    assert Is(img, regions[r].seed, r);
  }

  lemma GrownBy(before: Image, after: Image, cells: set<Pixel>, seed: Pixel, to: int, w: int, h: int)
    requires IsImage(before, w, h) && IsImage(after, w, h)
    requires forall x, y | 0 <= x < w && 0 <= y < h :: after[y][x] == if Pixel(x, y) in cells then to else before[y][x]
    requires forall p | p in cells :: Connected(before, BLACK, seed, p)
    ensures Grown(before, after, w, h)
  {
    hide Connected;
    forall p | p in cells ensures Is(before, p, BLACK) {
      ConnectedEnds(before, BLACK, seed, p);
    }
  }

  /** The first regions are kept, in number and content. */
  ghost predicate KeepsRegions(known: seq<Region>, num: int, more: seq<Region>, n: int) {
    num <= n && |known| == |more| && forall r | 0 <= r < num && r < |known| :: more[r] == known[r]
  }

  /** The code is the label that the pixel carries; there is none for pixels that are white or outside, and
      when all labels are taken. The corners are extreme over the whole black area of the pixel. */
  ghost predicate IsRight(base: Image, cur: Image, num: int, request: Request, answer: Answer, w: int, h: int) {
    var x, y := request.x, request.y;
    && IsImage(base, w, h) && IsImage(cur, w, h)
    && (if !(0 <= x < w && 0 <= y < h) || base[y][x] == WHITE then answer.code == -1
        else if answer.code == -1 then num >= 65534
        else 2 <= answer.code == cur[y][x])
    && (request.CornersAt? && answer.code != -1 ==>
          AreCorners(AreaOf(base, BLACK, Pixel(x, y), w, h), request.reference, answer.corners))
  }

  /** Some black area can hold as many disjoint spans as the stack has places. */
  ghost predicate HasIntricate(base: Image, n: int) {
    exists seed :: IsIntricate(base, BLACK, seed, n)
  }

  /** Every pixel is white, black or labelled, in the image as in the one before labelling. */
  lemma LabelsKnown(base: Image, cur: Image, regions: seq<Region>, num: int, w: int, h: int, x: int, y: int)
    requires Labelled(base, cur, regions, num, w, h)
    ensures IsImage(base, w, h) && IsImage(cur, w, h)
    ensures 0 <= x < w && 0 <= y < h ==>
              && (cur[y][x] == WHITE || cur[y][x] == BLACK || FIRST_REGION <= cur[y][x] < num)
              && (cur[y][x] == WHITE <==> base[y][x] == WHITE)
              && Is(cur, Pixel(x, y), cur[y][x])
  {
    hide IsLabel;
  }

  lemma KeptRegions(known: seq<Region>, num: int, more: seq<Region>, n: int)
    requires num <= n && |known| == |more| && forall r | 0 <= r < num && r < |known| :: more[r] == known[r]
    ensures KeepsRegions(known, num, more, n)
  {}

  lemma KeptFurther(a: seq<Region>, na: int, b: seq<Region>, nb: int, c: seq<Region>, nc: int)
    requires KeepsRegions(a, na, b, nb) && KeepsRegions(b, nb, c, nc)
    ensures KeepsRegions(a, na, c, nc) && nb <= nc
  {}

  lemma GrownFurther(a: Image, b: Image, c: Image, w: int, h: int)
    requires Grown(a, b, w, h) && Grown(b, c, w, h)
    ensures Grown(a, c, w, h)
  {}

  /** A right answer stays right while further areas are labelled. */
  lemma StaysRight(base: Image, cur: Image, num: int, next: Image, n: int, request: Request, answer: Answer, w: int,
      h: int)
    requires IsRight(base, cur, num, request, answer, w, h) && Grown(cur, next, w, h) && num <= n
    ensures IsRight(base, next, n, request, answer, w, h)
  {
    hide AreCorners, AreaOf;
  }

  lemma IntricateUnlabelled(base: Image, cur: Image, regions: seq<Region>, num: int, w: int, h: int, seed: Pixel,
      n: int)
    requires Labelled(base, cur, regions, num, w, h) && Is(cur, seed, BLACK) && IsIntricate(cur, BLACK, seed, n)
    ensures HasIntricate(base, n)
  {
    hide Labelled, Connected, Is, AreDisjoint, CellsOf;
    UnlabelledArea(base, cur, regions, num, w, h, seed);
    assert IsIntricate(base, BLACK, seed, n);
  }

  lemma IntricateRegion(base: Image, cur: Image, regions: seq<Region>, num: int, w: int, h: int, r: int, n: int)
    requires Labelled(base, cur, regions, num, w, h) && FIRST_REGION <= r < num
    requires IsIntricate(cur, r, regions[r].seed, n)
    ensures HasIntricate(base, n)
  {
    hide Connected, Is, AreDisjoint, CellsOf, IsImage;
    LabelConnected(base, cur, regions, num, w, h, r);
    assert IsLabel(base, cur, r, regions[r], w, h);
    assert IsIntricate(base, BLACK, regions[r].seed, n);
  }

  /** More spans than the stack has room for fit in the area of the seed. */
  ghost predicate IsIntricate(img: Image, c: int, seed: Pixel, n: int) {
    exists spans :: |spans| >= n && AreDisjoint(spans) && forall p | p in CellsOf(spans) :: Connected(img, c, seed, p)
  }

  lemma Overflow(img: Image, c: int, seed: Pixel, spans: seq<Span>, n: int)
    requires AreDisjoint(spans) && forall p | p in CellsOf(spans) :: Connected(img, c, seed, p)
    ensures |spans| >= n ==> IsIntricate(img, c, seed, n)
  {
    hide AreDisjoint, CellsOf, Connected;
  }

  lemma CornersFound(cells: set<Pixel>, reference: Pixel, far: Pixel, corners: seq<Pixel>)
    requires |corners| == 4 && IsFarthest(cells, reference, far)
    requires AreFurthest(cells, far.x - reference.x, far.y - reference.y, corners)
    ensures AreCorners(cells, reference, corners)
  {
    hide IsFarthest, AreFurthest;
  }

  lemma CellsAreLabel(img: Image, spans: seq<Span>, r: int, w: int, h: int)
    requires IsImage(img, w, h) && forall p :: p in CellsOf(spans) <==> Is(img, p, r)
    ensures CellsOf(spans) == PixelsOf(img, r, w, h)
    ensures forall x, y | 0 <= x < w && 0 <= y < h :: Pixel(x, y) in CellsOf(spans) <==> img[y][x] == r
  {
    hide CellsOf;
    forall p ensures p in CellsOf(spans) <==> p in PixelsOf(img, r, w, h) {
      assert p == Pixel(p.x, p.y);
    }
  }

  lemma SameCells(a: seq<Span>, b: seq<Span>)
    requires forall p :: p in CellsOf(a) <==> p in CellsOf(b)
    ensures CellsOf(a) == CellsOf(b)
  {
    hide CellsOf;
  }

  lemma Restored(before: Image, clear: Image, after: Image, cells: set<Pixel>, r: int, w: int, h: int)
    requires IsImage(before, w, h) && IsImage(clear, w, h) && IsImage(after, w, h)
    requires forall x, y | 0 <= x < w && 0 <= y < h :: Pixel(x, y) in cells <==> before[y][x] == r
    requires forall x, y | 0 <= x < w && 0 <= y < h ::
               clear[y][x] == if Pixel(x, y) in cells then BLACK else before[y][x]
    requires forall x, y | 0 <= x < w && 0 <= y < h :: after[y][x] == if Pixel(x, y) in cells then r else clear[y][x]
    ensures after == before
  {
    forall y | 0 <= y < h ensures after[y] == before[y] {
      forall x | 0 <= x < w ensures after[y][x] == before[y][x] {
        assert Pixel(x, y) in cells <==> before[y][x] == r;
      }
    }
  }

  /** Adds the length of a span to the count of a region. */
  function AreaCount(box: Region, s: Span): Region {
    box.(count := box.count + s.right - s.left + 1)
  }

  lemma {:induction false} AreaCounted(box: Region, spans: seq<Span>)
    ensures Fold(AreaCount, box, spans) == box.(count := box.count + TotalArea(spans))
  {
    if spans != [] {
      AreaCounted(box, spans[..|spans| - 1]);
    }
  }

  lemma SeedIs(img: Image, x: int, y: int, c: int, w: int, h: int)
    requires IsImage(img, w, h) && 0 <= x < w && 0 <= y < h && img[y][x] == c
    ensures Is(img, Pixel(x, y), c)
  {}

  lemma NothingFolded<S>(func: (S, Span) -> S, user: S)
    ensures Fold(func, user, []) == user
  {}

  lemma SpanFolded<S>(func: (S, Span) -> S, user: S, f: Fill, g: Fill, user': S)
    requires exists s :: g.spans == f.spans + [s] && user' == func(Fold(func, user, f.spans), s)
    ensures user' == Fold(func, user, g.spans) && |g.spans| == |f.spans| + 1
  {
    hide Fold;
    var s :| g.spans == f.spans + [s] && user' == func(Fold(func, user, f.spans), s);
    FoldStep(func, user, f.spans, s);
  }

  lemma LastInRow(cur: Image, f: Fill, ctx: seq<Context>, w: int, h: int)
    requires Consistent(cur, f, ctx, w, h) && |ctx| > 0
    ensures 0 <= ctx[|ctx| - 1].y < h && IsImage(f.img, w, h)
  {
    hide Sound, Covered;
    assert InRow(ctx[|ctx| - 1], f.filled, w, h);
  }

  lemma FilledMeans(cur: Image, f: Fill, ctx: seq<Context>, w: int, h: int)
    requires Consistent(cur, f, ctx, w, h) && f.seed in f.filled
    ensures AreDisjoint(f.spans) && CellsOf(f.spans) == f.filled
    ensures forall p | p in f.filled :: Connected(f.img, f.from, f.seed, p)
    ensures IsImage(cur, w, h) && IsImage(f.img, w, h)
    ensures forall x, y | 0 <= x < w && 0 <= y < h :: cur[y][x] == if Pixel(x, y) in f.filled then f.to else f.img[y][x]
    ensures forall p | Connected(f.img, f.from, f.seed, p) && p !in f.filled :: IsBehind(cur, f.from, ctx, p)
  {
    hide AreDisjoint, CellsOf, Connected, IsBehind;
    forall p | Connected(f.img, f.from, f.seed, p) && p !in f.filled ensures IsBehind(cur, f.from, ctx, p) {
      Missed(cur, f, ctx, p, w, h);
    }
  }

  lemma ScanInRow(cur: Image, f: Fill, ctx: seq<Context>, direction: int, w: int, h: int)
    requires Consistent(cur, f, ctx, w, h) && |ctx| > 0 && (direction == -1 || direction == 1)
    requires var c := ctx[|ctx| - 1]; ScanAt(c, direction) <= c.right && 0 <= c.y + direction < h
    ensures var c := ctx[|ctx| - 1];
            && 0 <= ScanAt(c, direction) < w
            && (Is(cur, Pixel(ScanAt(c, direction), c.y + direction), f.from) <==>
                cur[c.y + direction][ScanAt(c, direction)] == f.from)
  {
    hide Sound, Covered;
    assert InRow(ctx[|ctx| - 1], f.filled, w, h);
  }
}
