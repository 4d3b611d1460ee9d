/** The flat row-major pixel buffer as a value: the bounds-checked single
    cell write and the effect of painting a sequence of points. */
module PixelBuffer {
  import opened Palette
  import opened Bresenham

  /** The screen rectangle [0, w) x [0, h). */
  predicate InBounds(w: int, h: int, p: Point) {
    0 <= p.x < w && 0 <= p.y < h
  }

  /** Row-major position of a point in a buffer of width w. */
  function Index(w: int, p: Point): int {
    p.y * w + p.x
  }

  lemma {:induction false} IndexInRange(w: int, h: int, p: Point)
    requires InBounds(w, h, p)
    ensures 0 <= Index(w, p) < w * h
  {
    assert p.y * w <= (h - 1) * w;
  }

  /** Distinct on-screen points occupy distinct cells. */
  lemma {:induction false} IndexInjective(w: int, h: int, p: Point, q: Point)
    requires InBounds(w, h, p) && InBounds(w, h, q)
    ensures Index(w, p) == Index(w, q) ==> p == q
  {
    if p.y != q.y {
      var lo, hi := if p.y < q.y then p else q, if p.y < q.y then q else p;
      var d := hi.y - lo.y;
      assert hi.y * w == lo.y * w + d * w;
      assert d * w >= 1 * w;
    }
  }

  /** `drawPixel`: on screen, the cell at row-major index y*w + x becomes
      `px`; off screen, nothing changes. */
  function SetCell(cells: seq<Pixel>, w: int, h: int, p: Point, px: Pixel): (r: seq<Pixel>)
    requires |cells| == w * h
    ensures |r| == |cells|
    ensures forall i :: 0 <= i < |r| ==>
      r[i] == if InBounds(w, h, p) && i == Index(w, p) then px else cells[i]
  {
    if InBounds(w, h, p) then
      IndexInRange(w, h, p);
      cells[Index(w, p) := px]
    else
      cells
  }

  /** The buffer after `drawPixel` was called on each point in turn. */
  function Plot(cells: seq<Pixel>, w: int, h: int, pts: seq<Point>, px: Pixel): (r: seq<Pixel>)
    requires |cells| == w * h
    ensures |r| == |cells|
    decreases |pts|
  {
    if pts == [] then cells
    else SetCell(Plot(cells, w, h, pts[..|pts| - 1], px), w, h, pts[|pts| - 1], px)
  }

  lemma {:induction false} PlotSnoc(cells: seq<Pixel>, w: int, h: int, pts: seq<Point>, p: Point, px: Pixel)
    requires |cells| == w * h
    ensures Plot(cells, w, h, pts + [p], px) == SetCell(Plot(cells, w, h, pts, px), w, h, p, px)
  {
    assert (pts + [p])[..|pts|] == pts;
  }

  /** Some on-screen point of `pts` lies on cell i. */
  ghost predicate Covers(w: int, h: int, pts: seq<Point>, i: int) {
    exists k :: 0 <= k < |pts| && InBounds(w, h, pts[k]) && Index(w, pts[k]) == i
  }

  /** Painting changes exactly the cells of the on-screen points. */
  lemma {:induction false} PlotCell(cells: seq<Pixel>, w: int, h: int, pts: seq<Point>, px: Pixel, i: int)
    requires |cells| == w * h
    requires 0 <= i < |cells|
    ensures Plot(cells, w, h, pts, px)[i] == if Covers(w, h, pts, i) then px else cells[i]
    decreases |pts|
  {
    if pts != [] {
      var init, last := pts[..|pts| - 1], pts[|pts| - 1];
      PlotCell(cells, w, h, init, px, i);
      if Covers(w, h, pts, i) && !(InBounds(w, h, last) && Index(w, last) == i) {
        var k :| 0 <= k < |pts| && InBounds(w, h, pts[k]) && Index(w, pts[k]) == i;
        assert k < |pts| - 1 && init[k] == pts[k];
      }
      if Covers(w, h, init, i) {
        var k :| 0 <= k < |init| && InBounds(w, h, init[k]) && Index(w, init[k]) == i;
        assert pts[k] == init[k];
      }
    }
  }

  /** Painting two point lists one after the other is painting their
      concatenation. */
  lemma {:induction false} PlotConcat(cells: seq<Pixel>, w: int, h: int, a: seq<Point>, b: seq<Point>, px: Pixel)
    requires |cells| == w * h
    ensures Plot(Plot(cells, w, h, a, px), w, h, b, px) == Plot(cells, w, h, a + b, px)
    decreases |b|
  {
    if b == [] {
      assert a + b == a;
    } else {
      var init := b[..|b| - 1];
      PlotConcat(cells, w, h, a, init, px);
      assert (a + b)[..|a + b| - 1] == a + init;
      assert (a + b)[|a + b| - 1] == b[|b| - 1];
    }
  }

  // ---------------------------------------------------------------------
  // Painting a line

  /** Every on-screen point of the list ends up painted. */
  lemma {:induction false} PlotPaints(cells: seq<Pixel>, w: int, h: int, pts: seq<Point>, px: Pixel, p: Point)
    requires |cells| == w * h && p in pts
    ensures InBounds(w, h, p) ==> 0 <= Index(w, p) < |cells|
    ensures InBounds(w, h, p) ==> Plot(cells, w, h, pts, px)[Index(w, p)] == px
  {
    if InBounds(w, h, p) {
      IndexInRange(w, h, p);
      PlotCell(cells, w, h, pts, px, Index(w, p));
      var k :| 0 <= k < |pts| && pts[k] == p;
    }
  }

  /** Both endpoints of a line are painted when they are on screen. */
  lemma {:induction false} LinePaintsEndpoints(cells: seq<Pixel>, w: int, h: int, x1: int, y1: int, x2: int, y2: int, px: Pixel)
    requires |cells| == w * h
    ensures InBounds(w, h, Point(x1, y1)) ==> 0 <= Index(w, Point(x1, y1)) < |cells|
    ensures InBounds(w, h, Point(x2, y2)) ==> 0 <= Index(w, Point(x2, y2)) < |cells|
    ensures InBounds(w, h, Point(x1, y1)) ==>
      Plot(cells, w, h, Line(x1, y1, x2, y2), px)[Index(w, Point(x1, y1))] == px
    ensures InBounds(w, h, Point(x2, y2)) ==>
      Plot(cells, w, h, Line(x1, y1, x2, y2), px)[Index(w, Point(x2, y2))] == px
  {
    LineHasEndpoints(x1, y1, x2, y2);
    PlotPaints(cells, w, h, Line(x1, y1, x2, y2), px, Point(x1, y1));
    PlotPaints(cells, w, h, Line(x1, y1, x2, y2), px, Point(x2, y2));
  }

  /** A line from a point to itself writes that one cell and no other. */
  lemma {:induction false} PointLinePaintsOneCell(cells: seq<Pixel>, w: int, h: int, x: int, y: int, px: Pixel)
    requires |cells| == w * h
    ensures Plot(cells, w, h, Line(x, y, x, y), px) == SetCell(cells, w, h, Point(x, y), px)
  {
    LineDegenerate(x, y);
    PlotSnoc(cells, w, h, [], Point(x, y), px);
    assert [] + [Point(x, y)] == [Point(x, y)];
  }
}
