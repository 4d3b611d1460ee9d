/** The text-mode graphics engine: a fixed-size pixel buffer changed in
    place by fills, single-cell writes and the line rasteriser, and
    serialised into the frame text that is written to the terminal. */
module ConsoleGraphics {
  import opened Palette
  import opened Bresenham
  import opened PixelBuffer
  import opened FrameText

  class ConsoleGraphicEngine {
    const screenWidth: int
    const screenHeight: int
    /** Row-major cells; cell (x, y) is at y * screenWidth + x. */
    const pixels: array<Pixel>
    /** The last serialised frame. */
    var output: string

    ghost predicate Valid() {
      pixels.Length == screenWidth * screenHeight
    }

    /** A width x height buffer of blank cells in the background colour. */
    constructor (width: int, height: int, color: Color)
      requires width * height >= 0
      ensures screenWidth == width && screenHeight == height && Valid()
      ensures fresh(pixels)
      ensures forall i :: 0 <= i < pixels.Length ==> pixels[i] == Pixel(SpaceBlock, color)
      ensures output == ""
    {
      screenWidth := width;
      screenHeight := height;
      var pixLen := width * height;
      var buf := new Pixel[pixLen];
      for index := 0 to pixLen
        invariant forall i :: 0 <= i < index ==> buf[i] == Pixel(SpaceBlock, color)
      {
        buf[index] := Pixel(SpaceBlock, color);
      }
      pixels := buf;
      output := "";
    }

    /** Overwrites every cell; the call changes nothing exactly when every
        cell already held that pixel, so a repeated call is a no-op. */
    method FillAll(pixelType: Glyph, color: Color)
      modifies pixels
      ensures forall i :: 0 <= i < pixels.Length ==> pixels[i] == Pixel(pixelType, color)
      ensures pixels[..] == old(pixels[..]) <==>
        forall i :: 0 <= i < pixels.Length ==> old(pixels[i]) == Pixel(pixelType, color)
    {
      for index := 0 to pixels.Length
        invariant forall i :: 0 <= i < index ==> pixels[i] == Pixel(pixelType, color)
        invariant forall i :: index <= i < pixels.Length ==> pixels[i] == old(pixels[i])
      {
        pixels[index] := Pixel(pixelType, color);
      }
      if pixels[..] == old(pixels[..]) {
        forall i | 0 <= i < pixels.Length
          ensures old(pixels[i]) == Pixel(pixelType, color)
        {
          assert pixels[..][i] == old(pixels[..])[i];
        }
      }
    }

    /** Bounds-checked write of one cell: on screen, exactly the cell at
        y * screenWidth + x changes; off screen, nothing does. */
    method DrawPixel(x: int, y: int, pixelType: Glyph, color: Color)
      requires Valid()
      modifies pixels
      ensures pixels[..] == SetCell(old(pixels[..]), screenWidth, screenHeight, Point(x, y), Pixel(pixelType, color))
    {
      if x >= 0 && x < screenWidth && y >= 0 && y < screenHeight {
        var target := y * screenWidth + x;
        IndexInRange(screenWidth, screenHeight, Point(x, y));
        pixels[target] := Pixel(pixelType, color);
      }
    }

    /** Rasterises the segment (x1, y1)-(x2, y2): every point of
        Line(x1, y1, x2, y2) is drawn, in order, through DrawPixel. The
        x-driven regime (|dy| <= |dx|) starts at the endpoint with the
        smaller x, the y-driven one at the endpoint with the smaller y. */
    method DrawLine(x1: int, y1: int, x2: int, y2: int, pixelType: Glyph, color: Color)
      requires Valid()
      modifies pixels
      ensures pixels[..] == Plot(old(pixels[..]), screenWidth, screenHeight, Line(x1, y1, x2, y2), Pixel(pixelType, color))
    {
      var dx := x2 - x1;
      var dy := y2 - y1;
      var dx1 := Abs(dx);
      var dy1 := Abs(dy);
      var px := 2 * dy1 - dx1;
      var py := 2 * dx1 - dy1;
      if dy1 <= dx1 {
        if dx >= 0 {
          StepAlongX(x1, y1, x2, px, dx, dy, pixelType, color);
        } else {
          StepAlongX(x2, y2, x1, px, dx, dy, pixelType, color);
        }
      } else {
        if dy >= 0 {
          StepAlongY(x1, y1, y2, py, dx, dy, pixelType, color);
        } else {
          StepAlongY(x2, y2, y1, py, dx, dy, pixelType, color);
        }
      }
    }

    /** The x-driven loop of DrawLine: paints (x0, y0), then advances x up to
        xe, stepping y when the error px is not negative. */
    method StepAlongX(x0: int, y0: int, xe: int, px0: int, dx: int, dy: int, pixelType: Glyph, color: Color)
      requires Valid()
      modifies pixels
      ensures var st := Stepper(Abs(dx), Abs(dy), Direction(dx, dy), true, false);
        pixels[..] == Plot(old(pixels[..]), screenWidth, screenHeight, [Point(x0, y0)] + Walk(st, x0, y0, xe, px0), Pixel(pixelType, color))
    {
      ghost var st := Stepper(Abs(dx), Abs(dy), Direction(dx, dy), true, false);
      ghost var canvas, w, h, ink := pixels[..], screenWidth, screenHeight, Pixel(pixelType, color);
      ghost var line := [Point(x0, y0)] + Walk(st, x0, y0, xe, px0);
      var dx1, dy1 := Abs(dx), Abs(dy);
      var x, y, px := x0, y0, px0;
      DrawPixel(x, y, pixelType, color);
      ghost var visited := [Point(x, y)];
      PlotSnoc(canvas, w, h, [], Point(x, y), ink);
      while x < xe
        invariant pixels[..] == Plot(canvas, w, h, visited, ink)
        invariant visited + Walk(st, x, y, xe, px) == line
        decreases xe - x
      {
        ghost var rest := Walk(st, x, y, xe, px);
        WalkNext(st, x, y, xe, px);
        x := x + 1;
        if px < 0 {
          px := px + 2 * dy1;
        } else {
          if (dx < 0 && dy < 0) || (dx > 0 && dy > 0) {
            y := y + 1;
          } else {
            y := y - 1;
          }
          px := px + 2 * (dy1 - dx1);
        }
        assert rest == [Point(x, y)] + Walk(st, x, y, xe, px);
        DrawPixel(x, y, pixelType, color);
        PlotSnoc(canvas, w, h, visited, Point(x, y), ink);
        VisitNext(visited, Point(x, y), Walk(st, x, y, xe, px), line);
        visited := visited + [Point(x, y)];
      }
      assert visited == line;
    }

    /** The y-driven loop of DrawLine: paints (x0, y0), then advances y up to
        ye, stepping x only when the error py is positive. */
    method StepAlongY(x0: int, y0: int, ye: int, py0: int, dx: int, dy: int, pixelType: Glyph, color: Color)
      requires Valid()
      modifies pixels
      ensures var st := Stepper(Abs(dy), Abs(dx), Direction(dx, dy), false, true);
        pixels[..] == Plot(old(pixels[..]), screenWidth, screenHeight, [Point(x0, y0)] + Walk(st, y0, x0, ye, py0), Pixel(pixelType, color))
    {
      ghost var st := Stepper(Abs(dy), Abs(dx), Direction(dx, dy), false, true);
      ghost var canvas, w, h, ink := pixels[..], screenWidth, screenHeight, Pixel(pixelType, color);
      ghost var line := [Point(x0, y0)] + Walk(st, y0, x0, ye, py0);
      var dx1, dy1 := Abs(dx), Abs(dy);
      var x, y, py := x0, y0, py0;
      DrawPixel(x, y, pixelType, color);
      ghost var visited := [Point(x, y)];
      PlotSnoc(canvas, w, h, [], Point(x, y), ink);
      while y < ye
        invariant pixels[..] == Plot(canvas, w, h, visited, ink)
        invariant visited + Walk(st, y, x, ye, py) == line
        decreases ye - y
      {
        ghost var rest := Walk(st, y, x, ye, py);
        WalkNext(st, y, x, ye, py);
        y := y + 1;
        if py <= 0 {
          py := py + 2 * dx1;
        } else {
          if (dx < 0 && dy < 0) || (dx > 0 && dy > 0) {
            x := x + 1;
          } else {
            x := x - 1;
          }
          py := py + 2 * (dx1 - dy1);
        }
        assert rest == [Point(x, y)] + Walk(st, y, x, ye, py);
        DrawPixel(x, y, pixelType, color);
        PlotSnoc(canvas, w, h, visited, Point(x, y), ink);
        VisitNext(visited, Point(x, y), Walk(st, y, x, ye, py), line);
        visited := visited + [Point(x, y)];
      }
      assert visited == line;
    }

    /** Wireframe triangle: the three edges p1-p2, p2-p3, p3-p1. Exactly the
        on-screen cells of those edges change. */
    method DrawTriangle(x1: int, y1: int, x2: int, y2: int, x3: int, y3: int, pixelType: Glyph, color: Color)
      requires Valid()
      modifies pixels
      ensures var edges := Line(x1, y1, x2, y2) + Line(x2, y2, x3, y3) + Line(x3, y3, x1, y1);
        pixels[..] == Plot(old(pixels[..]), screenWidth, screenHeight, edges, Pixel(pixelType, color)) &&
        forall i :: 0 <= i < pixels.Length ==>
          pixels[i] == if Covers(screenWidth, screenHeight, edges, i) then Pixel(pixelType, color) else old(pixels[i])
    {
      ghost var ink := Pixel(pixelType, color);
      ghost var start := pixels[..];
      ghost var a, b, c := Line(x1, y1, x2, y2), Line(x2, y2, x3, y3), Line(x3, y3, x1, y1);
      DrawLine(x1, y1, x2, y2, pixelType, color);
      DrawLine(x2, y2, x3, y3, pixelType, color);
      PlotConcat(start, screenWidth, screenHeight, a, b, ink);
      DrawLine(x3, y3, x1, y1, pixelType, color);
      PlotConcat(start, screenWidth, screenHeight, a + b, c, ink);
      forall i | 0 <= i < pixels.Length
        ensures pixels[i] == if Covers(screenWidth, screenHeight, a + b + c, i) then ink else start[i]
      {
        assert pixels[i] == pixels[..][i];
        PlotCell(start, screenWidth, screenHeight, a + b + c, ink, i);
      }
    }

    /** Serialises the buffer into `output`: the cursor-home escape, each
        cell's colour and glyph with a newline after every screenWidth-th
        cell, and a final newline. The pixels are not changed. */
    method ComputeGraphics()
      requires Valid()
      modifies this`output
      ensures output == Frame(pixels[..], screenWidth)
      ensures pixels[..] == old(pixels[..])
    {
      var out := Home;
      assert screenWidth != 0 || pixels.Length == 0;
      for index := 0 to pixels.Length
        invariant out == Home + Body(pixels[..index], screenWidth)
      {
        var pix := pixels[index];
        out := out + pix.color.ToString() + pix.pixelType.ToString();
        if (index + 1) % screenWidth == 0 {
          out := out + "\n";
        }
        assert pixels[..index + 1] == pixels[..index] + [pix];
        BodySnoc(pixels[..index], pix, screenWidth);
        AppendCell(Home, Body(pixels[..index], screenWidth), pix, if (index + 1) % screenWidth == 0 then "\n" else "");
      }
      assert pixels[..pixels.Length] == pixels[..];
      out := out + "\n";
      output := out;
    }
  }
}
