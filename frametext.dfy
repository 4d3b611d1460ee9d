/** The text a frame is serialised to before it is written to the
    terminal, and its row structure. */
module FrameText {
  import opened Palette

  /** The cursor-home escape "ESC [0;0H" every frame starts with. */
  const Home: string := "\U{1B}[0;0H"

  /** One cell: its colour escape followed by its glyph. */
  function CellText(p: Pixel): (s: string)
    ensures '\n' !in s
  {
    p.color.ToString() + p.pixelType.ToString()
  }

  /** The cells in order, with a newline after every w-th cell. The engine
      tests `(index+1) % w == 0` with a truncating remainder; Dafny's
      Euclidean one is zero for exactly the same operands. */
  function Body(cells: seq<Pixel>, w: int): string
    requires w != 0 || cells == []
    decreases |cells|
  {
    if cells == [] then ""
    else
      var n := |cells|;
      Body(cells[..n - 1], w) + CellText(cells[n - 1]) + (if n % w == 0 then "\n" else "")
  }

  /** `computeGraphics`: cursor home, the cells, one final newline. */
  function Frame(cells: seq<Pixel>, w: int): string
    requires w != 0 || cells == []
  {
    Home + Body(cells, w) + "\n"
  }

  /** The cells of one row, without a terminator. */
  function RowText(row: seq<Pixel>): (s: string)
    ensures '\n' !in s
    decreases |row|
  {
    if row == [] then "" else RowText(row[..|row| - 1]) + CellText(row[|row| - 1])
  }

  /** Reference layout of an h-row screen: each row's cells followed by a
      newline. */
  function Rows(cells: seq<Pixel>, w: int, h: int): string
    requires w > 0 && h >= 0 && |cells| == w * h
    decreases h
  {
    if h == 0 then ""
    else Rows(cells[..(h - 1) * w], w, h - 1) + RowText(cells[(h - 1) * w..]) + "\n"
  }

  function NewlineCount(s: string): nat
    decreases |s|
  {
    if s == [] then 0 else NewlineCount(s[..|s| - 1]) + (if s[|s| - 1] == '\n' then 1 else 0)
  }

  // ---------------------------------------------------------------------
  // Remainder arithmetic

  /** The remainder of q*w + r by w is r. */
  lemma {:induction false} ModUnique(n: int, w: int, q: int, r: int)
    requires w > 0 && n == q * w + r && 0 <= r < w
    ensures n % w == r
  {
    var q', r' := n / w, n % w;
    assert n == q' * w + r';
    assert (q - q') * w == r' - r;
    MulBound(q - q', w);
  }

  lemma {:induction false} MulBound(d: int, w: int)
    requires w > 0
    ensures d >= 1 ==> d * w >= w
    ensures d <= -1 ==> d * w <= -w
  {
  }

  /** After a multiple of w, the remainder is non-zero inside the next
      row and zero at its end. */
  lemma {:induction false} RowPosition(a: int, w: int, j: int)
    requires w > 0 && a % w == 0 && 0 < j <= w
    ensures (a + j) % w == 0 <==> j == w
  {
    var q := a / w;
    assert a == q * w;
    if j < w {
      ModUnique(a + j, w, q, j);
    } else {
      ModUnique(a + j, w, q + 1, 0);
    }
  }

  // ---------------------------------------------------------------------
  // Facts about the serialised frame

  lemma {:induction false} NewlineCountConcat(a: string, b: string)
    ensures NewlineCount(a + b) == NewlineCount(a) + NewlineCount(b)
    decreases |b|
  {
    if b == [] {
      assert a + b == a;
    } else {
      NewlineCountConcat(a, b[..|b| - 1]);
      assert (a + b)[..|a + b| - 1] == a + b[..|b| - 1];
    }
  }

  lemma {:induction false} NoNewline(s: string)
    requires '\n' !in s
    ensures NewlineCount(s) == 0
    decreases |s|
  {
    if s != [] {
      assert s[|s| - 1] in s;
      assert forall c :: c in s[..|s| - 1] ==> c in s;
      NoNewline(s[..|s| - 1]);
    }
  }

  /** Appending a cell's colour and glyph, and maybe a newline, to the frame
      so far is appending to its body. */
  lemma {:induction false} AppendCell(home: string, body: string, p: Pixel, nl: string)
    ensures home + body + p.color.ToString() + p.pixelType.ToString() + nl == home + (body + CellText(p) + nl)
  {
  }

  /** Appending one cell adds its text, and a newline when it ends a row. */
  lemma {:induction false} BodySnoc(t: seq<Pixel>, p: Pixel, w: int)
    requires w != 0
    ensures Body(t + [p], w) == Body(t, w) + CellText(p) + (if (|t| + 1) % w == 0 then "\n" else "")
  {
    assert (t + [p])[..|t|] == t;
  }

  lemma {:induction false} RowTextSnoc(r: seq<Pixel>, p: Pixel)
    ensures RowText(r + [p]) == RowText(r) + CellText(p)
  {
    assert (r + [p])[..|r|] == r;
  }

  /** A cell strictly inside a row adds no newline. */
  lemma {:induction false} BodyInRow(pre: seq<Pixel>, row: seq<Pixel>, w: int, j: int)
    requires w > 0 && |pre| % w == 0 && |row| == w && 0 < j < w
    ensures Body(pre + row[..j], w) == Body(pre + row[..j - 1], w) + CellText(row[j - 1])
  {
    assert pre + row[..j] == (pre + row[..j - 1]) + [row[j - 1]];
    RowPosition(|pre|, w, j);
    BodySnoc(pre + row[..j - 1], row[j - 1], w);
  }

  lemma {:induction false} RowTextPrefix(row: seq<Pixel>, j: int)
    requires 0 < j <= |row|
    ensures RowText(row[..j]) == RowText(row[..j - 1]) + CellText(row[j - 1])
  {
    assert row[..j] == row[..j - 1] + [row[j - 1]];
    RowTextSnoc(row[..j - 1], row[j - 1]);
  }

  /** Part of a row after full rows adds its cells and no newline. */
  lemma {:induction false} BodyPartialRow(pre: seq<Pixel>, row: seq<Pixel>, w: int, j: int)
    requires w > 0 && |pre| % w == 0 && |row| == w && 0 <= j < w
    ensures Body(pre + row[..j], w) == Body(pre, w) + RowText(row[..j])
    decreases j
  {
    if j == 0 {
      assert pre + row[..0] == pre;
      assert row[..0] == [];
    } else {
      BodyPartialRow(pre, row, w, j - 1);
      BodyInRow(pre, row, w, j);
      RowTextPrefix(row, j);
    }
  }

  /** The last cell of a row adds its text and a newline. */
  lemma {:induction false} BodyRowEnd(pre: seq<Pixel>, row: seq<Pixel>, w: int)
    requires w > 0 && |pre| % w == 0 && |row| == w
    ensures Body(pre + row, w) == Body(pre + row[..w - 1], w) + CellText(row[w - 1]) + "\n"
  {
    assert pre + row == (pre + row[..w - 1]) + [row[w - 1]];
    RowPosition(|pre|, w, w);
    BodySnoc(pre + row[..w - 1], row[w - 1], w);
  }

  /** A full row after full rows adds its cells and one newline. */
  lemma {:induction false} BodyRow(pre: seq<Pixel>, row: seq<Pixel>, w: int)
    requires w > 0 && |pre| % w == 0 && |row| == w
    ensures Body(pre + row, w) == Body(pre, w) + RowText(row) + "\n"
  {
    BodyPartialRow(pre, row, w, w - 1);
    BodyRowEnd(pre, row, w);
    RowTextPrefix(row, w);
    assert row[..w] == row;
    Regroup(Body(pre + row, w), Body(pre + row[..w - 1], w), Body(pre, w),
      RowText(row[..w - 1]), CellText(row[w - 1]), RowText(row));
  }

  lemma {:induction false} Regroup(whole: string, part: string, b: string, r: string, c: string, rt: string)
    requires whole == part + c + "\n" && part == b + r && rt == r + c
    ensures whole == b + rt + "\n"
  {
    assert (b + r) + c + "\n" == b + (r + c) + "\n";
  }

  /** The engine's flat serialisation is the row layout: h rows of w cells,
      each ended by a newline, between the cursor-home escape and a final
      newline. */
  lemma {:induction false} FrameByRows(cells: seq<Pixel>, w: int, h: int)
    requires w > 0 && h >= 0 && |cells| == w * h
    ensures Frame(cells, w) == Home + Rows(cells, w, h) + "\n"
  {
    BodyByRows(cells, w, h);
  }

  lemma {:induction false} LastRowStart(w: int, h: int)
    ensures (h - 1) * w == w * h - w && w * (h - 1) == w * h - w
  {
  }

  lemma {:induction false} BodyByRows(cells: seq<Pixel>, w: int, h: int)
    requires w > 0 && h >= 0 && |cells| == w * h
    ensures Body(cells, w) == Rows(cells, w, h)
    decreases h
  {
    if h > 0 {
      var m := (h - 1) * w;
      LastRowStart(w, h);
      var pre, row := cells[..m], cells[m..];
      BodyByRows(pre, w, h - 1);
      assert cells == pre + row;
      ModUnique(m, w, h - 1, 0);
      BodyRow(pre, row, w);
    }
  }

  lemma {:induction false} RowsNewlines(cells: seq<Pixel>, w: int, h: int)
    requires w > 0 && h >= 0 && |cells| == w * h
    ensures NewlineCount(Rows(cells, w, h)) == h
    decreases h
  {
    if h > 0 {
      var pre, row := cells[..(h - 1) * w], cells[(h - 1) * w..];
      RowsNewlines(pre, w, h - 1);
      NoNewline(RowText(row));
      NewlineCountConcat(Rows(pre, w, h - 1), RowText(row));
      NewlineCountConcat(Rows(pre, w, h - 1) + RowText(row), "\n");
    }
  }

  /** A w-by-h frame holds h + 1 newlines: one per row and the final one. */
  lemma {:induction false} FrameNewlines(cells: seq<Pixel>, w: int, h: int)
    requires w > 0 && h >= 0 && |cells| == w * h
    ensures NewlineCount(Frame(cells, w)) == h + 1
  {
    FrameByRows(cells, w, h);
    RowsNewlines(cells, w, h);
    NoNewline(Home);
    NewlineCountConcat(Home, Rows(cells, w, h));
    NewlineCountConcat(Home + Rows(cells, w, h), "\n");
  }

  /** A 2x2 buffer of one pixel serialises as two rows of two cells. */
  lemma {:induction false} FrameTwoByTwo(p: Pixel)
    ensures var c := CellText(p);
      Frame([p, p, p, p], 2) == Home + c + c + "\n" + c + c + "\n" + "\n"
  {
    var c := CellText(p);
    assert [p, p, p, p][..3] == [p, p, p];
    assert [p, p, p][..2] == [p, p];
    assert [p, p][..1] == [p];
    assert [p][..0] == [];
    assert Body([p], 2) == c;
    assert Body([p, p], 2) == c + c + "\n";
    assert Body([p, p, p], 2) == c + c + "\n" + c;
    assert Body([p, p, p, p], 2) == c + c + "\n" + c + c + "\n";
  }
}
