# Console graphics engine — verified model

This project models the text-mode graphics engine of the Go program
3d-engine-go, in `consoleGraphics/consoleGraphicEngine.go`: a
`screenWidth x screenHeight` buffer of pixels (a block glyph plus an ANSI
colour escape each), kept as a flat row-major array. The engine:

- fills the buffer with a background when it is constructed, and wholesale
  with `fillALL`;
- writes single cells through the bounds-checked `drawPixel`, which drops
  writes that fall off screen without an error;
- rasterises segments with the two-regime integer Bresenham `drawLine`
  (x-driven when |dy| <= |dx|, y-driven otherwise), and triangles as three
  such segments. Zero-error ties are resolved asymmetrically: the x-driven
  loop steps the minor axis (the `px < 0` test at line 99) and the y-driven
  loop does not (the `py <= 0` test at line 124);
  `Bresenham.TieBreakExamples` pins this down;
- serialises the buffer with `computeGraphics` into the frame text written
  to the terminal: the cursor-home escape, each cell's colour and glyph, a
  newline after every row, and a final newline.

Layout:

- `palette.dfy` (module `Palette`): the colour escapes and glyphs as closed
  datatypes, and the pixel record.
- `bresenham.dfy` (module `Bresenham`): the line rasteriser as a value.
  - `Walk` is the loop written as recursion.
  - `Line(x1, y1, x2, y2)` is every point `drawLine` paints, in order.
  - The lemmas cover point count, endpoints, 8-connectivity, nearness to the
    ideal line, axis-aligned lines, reversibility and the tie-break.
- `pixelbuffer.dfy` (module `PixelBuffer`): the buffer as a sequence.
  - `SetCell` is one `drawPixel`.
  - `Plot` is `drawPixel` applied to a list of points in turn.
  - `Covers` characterises exactly the cells that painting changes.
- `frametext.dfy` (module `FrameText`): the serialised frame.
  - `Body` and `Frame` follow the engine's flat loop.
  - `Rows` is an independent row-by-row layout, and a lemma proves the two
    agree.
- `engine.dfy` (module `ConsoleGraphics`): the class `ConsoleGraphicEngine`.
  - It has the `pixels` array and the `output` field.
  - Its methods are the engine's imperative operations. Each one's
    postcondition ties the new state to the functions above, and its loops
    carry the invariants that prove it.

## Model

| member | source | states |
|---|---|---|
| Palette.Color.ToString | consoleGraphics/consoleGraphicEngine.go:7-16 | each colour is a five-character escape ESC '[' '3' n 'm' and contains no newline |
| Palette.Glyph.ToString | consoleGraphics/consoleGraphicEngine.go:21-28 | each glyph is a single character that is not a newline |
| Bresenham.Abs | consoleGraphics/consoleGraphicEngine.go:139-144 | the result is non-negative and is either n or -n |
| ConsoleGraphics.ConsoleGraphicEngine.constructor | consoleGraphics/consoleGraphicEngine.go:48-60 | the buffer has width*height cells, every cell is a blank glyph in the given colour, and the output is empty |
| ConsoleGraphics.ConsoleGraphicEngine.FillAll | consoleGraphics/consoleGraphicEngine.go:62-67 | every cell afterwards holds the given pixel; the call leaves the buffer unchanged exactly when every cell already held it, so a repeated call is a no-op |
| ConsoleGraphics.ConsoleGraphicEngine.DrawPixel | consoleGraphics/consoleGraphicEngine.go:69-75 | the new buffer is SetCell of the old one: only the cell at y*W+x changes, and only when (x, y) is on screen |
| PixelBuffer.SetCell | consoleGraphics/consoleGraphicEngine.go:69-75 | cell i becomes the pixel exactly when the point is on screen and i is its row-major index; every other cell is kept, and the length is unchanged |
| PixelBuffer.InBounds | consoleGraphics/consoleGraphicEngine.go:70 | defines the bounds test of drawPixel: 0 <= x < W and 0 <= y < H |
| PixelBuffer.Index | consoleGraphics/consoleGraphicEngine.go:71 | defines the row-major target index y*W + x; its range and injectivity are proved in IndexInRange and IndexInjective |
| PixelBuffer.IndexInRange | consoleGraphics/consoleGraphicEngine.go:70-71 | the index y*W+x of an on-screen point lies in [0, W*H) |
| PixelBuffer.IndexInjective | consoleGraphics/consoleGraphicEngine.go:70-71 | distinct on-screen points have distinct indices |
| ConsoleGraphics.ConsoleGraphicEngine.DrawLine | consoleGraphics/consoleGraphicEngine.go:77-137 | the new buffer is the old one with every point of Line(x1, y1, x2, y2) drawn through drawPixel, in order |
| ConsoleGraphics.ConsoleGraphicEngine.StepAlongX | consoleGraphics/consoleGraphicEngine.go:85-110 | the x-driven loop paints its start point and then exactly the points of the recursive walk that steps y on a non-negative error |
| ConsoleGraphics.ConsoleGraphicEngine.StepAlongY | consoleGraphics/consoleGraphicEngine.go:111-136 | the y-driven loop paints its start point and then exactly the points of the recursive walk that steps x only on a positive error |
| Bresenham.Direction | consoleGraphics/consoleGraphicEngine.go:102-106 | defines the minor step: +1 when dx and dy are both positive or both negative, -1 otherwise; its meaning is proved in DirectionAgreement |
| Bresenham.DirectionAgreement | consoleGraphics/consoleGraphicEngine.go:102-106 | the minor step is +1 or -1, and it is +1 exactly when dx*dy > 0 |
| Bresenham.Walk | consoleGraphics/consoleGraphicEngine.go:97-135 | defines the points either loop paints after its first one, as recursion over the major coordinate; its shape and steps are proved in WalkShape, WalkStep and WalkNear |
| Bresenham.LinePlan | consoleGraphics/consoleGraphicEngine.go:78-120 | defines the set-up of drawLine: the regime, the start endpoint, the stop coordinate and the initial error; its properties are proved in PlanFacts and FarEnd |
| Bresenham.Line | consoleGraphics/consoleGraphicEngine.go:77-137 | defines every point drawLine paints, in painting order: the start point and then the walk; its properties are proved in the Line lemmas below |
| Bresenham.WalkNext | consoleGraphics/consoleGraphicEngine.go:97-110 | one loop iteration paints the next point, with the error update of the taken branch, and the rest of the walk follows |
| Bresenham.WalkShape | consoleGraphics/consoleGraphicEngine.go:97-98 | the loop paints end-start points after the first, and the t-th has major coordinate start+t+1 |
| Bresenham.WalkStep | consoleGraphics/consoleGraphicEngine.go:97-110 | each painted point advances the major axis by one and the minor axis by 0 or by the sign-agreement direction |
| Bresenham.NearStep | consoleGraphics/consoleGraphicEngine.go:99-108 | one iteration keeps the error equal to 2b(k+1)-a(2j+1) and the painted point within half a cell of the ideal line |
| Bresenham.WalkNear | consoleGraphics/consoleGraphicEngine.go:97-135 | every point the loop paints is within half a cell of the ideal line through the start point |
| Bresenham.PlanFacts | consoleGraphics/consoleGraphicEngine.go:78-94 | the regime is chosen by abs(dy) <= abs(dx), the major span is max(abs(dx), abs(dy)), and the initial error 2*minor-major matches the invariant |
| Bresenham.NearAtEnd | consoleGraphics/consoleGraphicEngine.go:97-110 | at the end of the major span the minor offset is the whole minor delta |
| Bresenham.FarEnd | consoleGraphics/consoleGraphicEngine.go:85-94 | the point at the end of the major span with the full minor offset is the other endpoint |
| Bresenham.LineEnds | consoleGraphics/consoleGraphicEngine.go:77-144 | a line has max(abs(dx), abs(dy))+1 points; the first is the endpoint with the smaller major coordinate and the last is the other endpoint |
| Bresenham.LineHasEndpoints | consoleGraphics/consoleGraphicEngine.go:85-136 | both endpoints are among the painted points |
| Bresenham.LineDegenerate | consoleGraphics/consoleGraphicEngine.go:77-137 | a line from a point to itself is that single point |
| Bresenham.LineNearIdeal | consoleGraphics/consoleGraphicEngine.go:97-135 | the i-th point is i major steps from the start, and its minor offset is the ideal offset rounded to the nearest integer, with ties rounded as each regime's error test decides |
| Bresenham.LineConnected | consoleGraphics/consoleGraphicEngine.go:97-135 | consecutive points advance the major axis by exactly one and the minor axis by at most one, towards the last point |
| Bresenham.LineFlat | consoleGraphics/consoleGraphicEngine.go:97-135 | a line with no minor delta keeps its minor coordinate |
| Bresenham.LineAxisAligned | consoleGraphics/consoleGraphicEngine.go:97-135 | a horizontal line keeps y and a vertical line keeps x |
| Bresenham.LineReversible | consoleGraphics/consoleGraphicEngine.go:85-136 | drawing q to p paints the same points, in the same order, as drawing p to q |
| Bresenham.TieBreakExamples | consoleGraphics/consoleGraphicEngine.go:99-124 | on a zero error the x-driven loop steps the minor axis and the y-driven loop does not: (0,0)-(2,1) gives (1,1) in the middle and (0,0)-(1,2) gives (0,1) |
| PixelBuffer.Plot | consoleGraphics/consoleGraphicEngine.go:95-134 | painting a list of points keeps the buffer length |
| PixelBuffer.PlotSnoc | consoleGraphics/consoleGraphicEngine.go:109-134 | painting one more point is one more drawPixel on the result |
| PixelBuffer.PlotCell | consoleGraphics/consoleGraphicEngine.go:69-75 | after painting, a cell holds the pixel exactly when some on-screen point of the list lies on it; otherwise it keeps its old value |
| PixelBuffer.PlotConcat | consoleGraphics/consoleGraphicEngine.go:146-150 | painting one list and then another is painting their concatenation |
| PixelBuffer.PlotPaints | consoleGraphics/consoleGraphicEngine.go:69-75 | every on-screen point of the list ends up painted |
| PixelBuffer.LinePaintsEndpoints | consoleGraphics/consoleGraphicEngine.go:77-137 | both endpoints of a line are painted when they are on screen |
| PixelBuffer.PointLinePaintsOneCell | consoleGraphics/consoleGraphicEngine.go:77-137 | a line from a point to itself has the effect of one drawPixel |
| ConsoleGraphics.ConsoleGraphicEngine.DrawTriangle | consoleGraphics/consoleGraphicEngine.go:146-150 | the buffer is painted with the edges p1-p2, p2-p3 and p3-p1; exactly the cells covered by an on-screen edge point change |
| ConsoleGraphics.ConsoleGraphicEngine.ComputeGraphics | consoleGraphics/consoleGraphicEngine.go:152-162 | output is the cursor-home escape, then colour+glyph for each cell with a newline after every W-th cell, then a final newline; the pixels are unchanged |
| FrameText.Body | consoleGraphics/consoleGraphicEngine.go:154-159 | defines the cells' text with a newline after every W-th cell, as the loop builds it; its row structure is proved in BodyByRows |
| FrameText.Frame | consoleGraphics/consoleGraphicEngine.go:152-162 | defines the whole output: the cursor-home escape Home (ESC[0;0H, line 153), the body, and a final newline |
| FrameText.Rows | consoleGraphics/consoleGraphicEngine.go:152-162 | defines an independent reference layout: h rows of w cells, each row followed by one newline |
| FrameText.CellText | consoleGraphics/consoleGraphicEngine.go:155 | a cell's text holds no newline |
| FrameText.RowText | consoleGraphics/consoleGraphicEngine.go:154-155 | a row's text holds no newline |
| FrameText.ModUnique | consoleGraphics/consoleGraphicEngine.go:156 | proof helper: the remainder of q*w + r by w is r, for 0 <= r < w; RowPosition uses it for the newline test |
| FrameText.RowPosition | consoleGraphics/consoleGraphicEngine.go:156 | inside a row the newline test fails, and it holds at the row's last cell |
| FrameText.BodySnoc | consoleGraphics/consoleGraphicEngine.go:154-159 | one more cell appends its text, plus a newline when it ends a row |
| FrameText.BodyPartialRow | consoleGraphics/consoleGraphicEngine.go:154-159 | part of a row after whole rows appends its cells and no newline |
| FrameText.BodyRow | consoleGraphics/consoleGraphicEngine.go:154-159 | a whole row after whole rows appends its cells and one newline |
| FrameText.BodyByRows | consoleGraphics/consoleGraphicEngine.go:154-159 | the flat loop's text equals the row-by-row layout: h rows of w cells, each ended by a newline |
| FrameText.FrameByRows | consoleGraphics/consoleGraphicEngine.go:152-162 | the frame is the cursor-home escape, the rows each ended by a newline, and a final newline |
| FrameText.NewlineCountConcat | consoleGraphics/consoleGraphicEngine.go:157-160 | proof helper: newline counts add up over concatenation; RowsNewlines and FrameNewlines use it |
| FrameText.RowsNewlines | consoleGraphics/consoleGraphicEngine.go:156-158 | the row layout of h rows holds h newlines |
| FrameText.FrameNewlines | consoleGraphics/consoleGraphicEngine.go:152-162 | a W-by-H frame holds H+1 newlines |
| FrameText.FrameTwoByTwo | consoleGraphics/consoleGraphicEngine.go:152-162 | a 2x2 buffer of one pixel serialises as ESC[0;0H, two rows of two cells each ended by a newline, and a final newline |

## Left out

- `Start`, `render` and `addComponent`, and the `consoleComponent` interface (consoleGraphics/consoleGraphicEngine.go:35-38, 164-181) are not modelled.
  - The first two are an endless loop that prints to the terminal.
  - The component's `onCreate`/`onUpdate` are code this model cannot see.
  - `addComponent` only stores the component.
- The `go` statements in `drawLine` and `drawTriangle` are not modelled as concurrency.
  - They start goroutines that write the shared buffer without synchronisation.
  - The model makes every such call a synchronous call, in program order.
  - It does not capture interleavings, or the engine returning before the writes land.
- Integers are unbounded. The 64-bit overflow of `width*height`, `y*W+x`, the error accumulator and `abs` of the most negative value are not modelled.
- Text is modelled as a sequence of Unicode characters, not UTF-8 bytes. In Go each block glyph is three bytes long, while in the model it is one character. Nothing in the engine depends on byte length.
- Pixels use closed datatypes. In the engine the glyph and colour are arbitrary strings, but every caller passes one of the named constants, so the model allows only those constants.
- ConsoleGraphics.ConsoleGraphicEngine.constructor: it requires width*height >= 0, because Go's `make` panics on a negative length. The panic itself is not modelled.
- ConsoleGraphics.ConsoleGraphicEngine.ComputeGraphics: the case of width 0 with a non-empty buffer is not modelled, because `% 0` panics in Go.
  - The class invariant (buffer length is width*height) rules that case out.
  - Go's truncating `%` and Dafny's Euclidean `%` agree on when the remainder is zero, which is the only thing the engine tests.
- ConsoleGraphics.ConsoleGraphicEngine.DrawLine: its two loops are separate methods, StepAlongX and StepAlongY, each called on the endpoint the engine starts from. This keeps each proof small; the statements are the engine's own.
- cubeSpin.go, cubeSpinOGE.go and openglGraphicEngine.go are not part of this model. They are floating-point projection and rotation, OpenGL bindings and frame pacing.
