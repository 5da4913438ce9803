/**
  How readBoard turns the visit counters into text: each count becomes a
  glyph of `freq_to_val`, the start and end cells are overwritten with "S"
  and "E", every cell is left-aligned in a field of width 4, and the rows are
  joined with newlines.
 */
module Rendering {
  import opened Wrappers
  import opened Grid

  /** `freq_to_val`: the glyph of each visit count; 15 and 16 reuse the start and end markers. */
  const FreqToVal: map<nat, string> := map[
    0 := "", 1 := ".", 2 := "o", 3 := "+", 4 := "=", 5 := "*", 6 := "B", 7 := "O", 8 := "X",
    9 := "@", 10 := "%", 11 := "&", 12 := "#", 13 := "/", 14 := "^", 15 := "S", 16 := "E"]

  /** Width of the field each cell is padded to (`"{:4}"`). */
  const CellWidth: nat := 4

  /** Characters in one rendered row. */
  const LineWidth: nat := CellWidth * NumCols

  /** The exceptions readBoard can raise: a count without a glyph, or a marker index off the board. */
  datatype Error = KeyError | IndexError

  /** Python list indexing: a negative index counts from the end; anything else out of range fails. */
  function PyIndex(i: int, n: nat): (r: Option<nat>)
    ensures r.Some? <==> -(n as int) <= i < n
    ensures r.Some? ==> r.value < n && r.value == if i < 0 then i + n else i
  {
    if 0 <= i < n then Some(i) else if -(n as int) <= i < 0 then Some(i + n) else None
  }

  /** Every count on the board has a glyph. */
  predicate Renderable(b: Board) {
    forall i, j :: 0 <= i < |b| && 0 <= j < |b[i]| ==> b[i][j] in FreqToVal
  }

  /** The grid of glyphs readBoard fills in its double loop. */
  function GlyphGrid(b: Board): (g: seq<seq<string>>)
    requires Renderable(b)
    ensures |g| == |b| && forall i :: 0 <= i < |b| ==> |g[i]| == |b[i]|
    ensures forall i, j :: 0 <= i < |b| && 0 <= j < |b[i]| ==> |g[i][j]| <= 1 && '\n' !in g[i][j]
    ensures forall i, j :: 0 <= i < |b| && 0 <= j < |b[i]| ==> (g[i][j] == "" <==> b[i][j] == 0)
  {
    seq(|b|, i requires 0 <= i < |b| => seq(|b[i]|, j requires 0 <= j < |b[i]| => FreqToVal[b[i][j]]))
  }

  /** Overwrites one cell of a glyph grid. */
  function Mark(g: seq<seq<string>>, r: nat, c: nat, glyph: string): seq<seq<string>>
    requires r < |g| && c < |g[r]|
  {
    g[r := g[r][c := glyph]]
  }

  /** `"{:w}".format(s)` for a string: left-aligned, padded with spaces to width w. */
  function Pad(s: string, w: nat): (r: string)
    ensures |r| == if |s| < w then w else |s|
    ensures r[..|s|] == s
    ensures forall i :: |s| <= i < |r| ==> r[i] == ' '
    ensures '\n' !in s ==> '\n' !in r
  {
    if |s| < w then s + seq(w - |s|, _ => ' ') else s
  }

  /** `"".join(...)` of the padded cells of one row. */
  function RowText(row: seq<string>): (s: string)
    ensures (forall c :: 0 <= c < |row| ==> |row[c]| <= CellWidth) ==> |s| == CellWidth * |row|
    ensures (forall c :: 0 <= c < |row| ==> '\n' !in row[c]) ==> '\n' !in s
  {
    if row == [] then "" else Pad(row[0], CellWidth) + RowText(row[1..])
  }

  /** The summed length of some lines. */
  function Width(lines: seq<string>): nat {
    if lines == [] then 0 else |lines[0]| + Width(lines[1..])
  }

  /** `"\n".join(lines)`. */
  function JoinLines(lines: seq<string>): (s: string)
    ensures |lines| == 0 ==> s == ""
    ensures |lines| > 0 ==> |s| == Width(lines) + |lines| - 1
  {
    if |lines| == 0 then "" else if |lines| == 1 then lines[0] else lines[0] + "\n" + JoinLines(lines[1..])
  }

  /** The rows of a glyph grid, padded and joined: newlines appear only between rows. */
  function Layout(g: seq<seq<string>>): string {
    JoinLines(RowTexts(g))
  }

  /** The padded text of every row of a glyph grid. */
  function RowTexts(g: seq<seq<string>>): seq<string> {
    seq(|g|, i requires 0 <= i < |g| => RowText(g[i]))
  }

  /** In the layout of a nonempty grid of newline-free glyphs, the newlines are exactly the |g| - 1 row separators. */
  lemma LayoutNewlines(g: seq<seq<string>>)
    requires |g| > 0
    requires forall r, c :: 0 <= r < |g| && 0 <= c < |g[r]| ==> '\n' !in g[r][c]
    ensures multiset(Layout(g))['\n'] == |g| - 1
  {
    JoinLinesNewlines(RowTexts(g));
  }

  /** Joining newline-free lines puts a newline between each two of them and nowhere else. */
  lemma {:induction false} JoinLinesNewlines(lines: seq<string>)
    requires |lines| > 0
    requires forall l :: 0 <= l < |lines| ==> '\n' !in lines[l]
    ensures multiset(JoinLines(lines))['\n'] == |lines| - 1
  {
    if |lines| > 1 {
      JoinLinesNewlines(lines[1..]);
    }
  }

  /**
    The text readBoard(start_x, start_y, end_x, end_y) returns for board `b`,
    or the exception it raises: KeyError while filling the glyphs, then
    IndexError when a marker falls off the board.
   */
  function Render(b: Board, startX: int, startY: int, endX: int, endY: int): (r: Result<string, Error>)
    requires Shaped(b)
    ensures r == Err(IndexError) <==>
      Renderable(b) &&
      !(-NumRows <= startY < NumRows && -NumCols <= startX < NumCols &&
        -NumRows <= endY < NumRows && -NumCols <= endX < NumCols)
  {
    if !Renderable(b) then Err(KeyError)
    else
      var sr, sc := PyIndex(startY, NumRows), PyIndex(startX, NumCols);
      if sr.None? || sc.None? then Err(IndexError)
      else
        var er, ec := PyIndex(endY, NumRows), PyIndex(endX, NumCols);
        if er.None? || ec.None? then Err(IndexError)
        else Ok(Layout(Marked(b, sr.value, sc.value, er.value, ec.value)))
  }

  /** The glyph grid with "S" written at the start cell, then "E" at the end cell. */
  function Marked(b: Board, sr: nat, sc: nat, er: nat, ec: nat): seq<seq<string>>
    requires Shaped(b) && Renderable(b)
    requires sr < NumRows && sc < NumCols && er < NumRows && ec < NumCols
  {
    Mark(Mark(GlyphGrid(b), sr, sc, "S"), er, ec, "E")
  }

  /** What a cell should show: "E" at the end, else "S" at the start, else the glyph of its count. */
  function CellGlyph(b: Board, sr: nat, sc: nat, er: nat, ec: nat, i: nat, j: nat): string
    requires Renderable(b) && i < |b| && j < |b[i]|
  {
    if i == er && j == ec then "E" else if i == sr && j == sc then "S" else FreqToVal[b[i][j]]
  }

  /** The counts with a glyph are exactly 0..16, and every glyph is at most one character. */
  lemma FreqToValDomain()
    ensures forall n: nat :: n in FreqToVal <==> n <= 16
    ensures forall n :: n in FreqToVal ==> |FreqToVal[n]| <= 1
    ensures FreqToVal[0] == "" && FreqToVal[15] == "S" && FreqToVal[16] == "E"
  {
  }

  lemma {:induction false} RowTextAt(row: seq<string>, j: nat, k: nat)
    requires forall c :: 0 <= c < |row| ==> |row[c]| <= CellWidth
    requires j < |row| && k < CellWidth
    ensures |RowText(row)| == CellWidth * |row|
    ensures RowText(row)[CellWidth * j + k] == Pad(row[j], CellWidth)[k]
  {
    if j > 0 {
      RowTextAt(row[1..], j - 1, k);
    }
  }

  /** Where line i starts in the joined text of lines of width w: `i * (w + 1)`. */
  function Offset(i: nat, w: nat): nat {
    if i == 0 then 0 else Offset(i - 1, w) + w + 1
  }

  /** Where row i starts in the rendered board. */
  function LineStart(i: nat): nat {
    i * (LineWidth + 1)
  }

  lemma {:induction false} OffsetLineStart(i: nat)
    ensures Offset(i, LineWidth) == LineStart(i)
  {
    if i > 0 {
      OffsetLineStart(i - 1);
    }
  }

  lemma {:induction false} JoinLinesLength(lines: seq<string>, w: nat)
    requires |lines| >= 1
    requires forall l :: 0 <= l < |lines| ==> |lines[l]| == w
    ensures |JoinLines(lines)| == Offset(|lines|, w) - 1
  {
    if |lines| > 1 {
      JoinLinesLength(lines[1..], w);
      OffsetShift(|lines| - 1, w);
    }
  }

  lemma {:induction false} OffsetShift(i: nat, w: nat)
    ensures Offset(i + 1, w) == (w + 1) + Offset(i, w)
  {
    if i > 0 {
      OffsetShift(i - 1, w);
    }
  }

  lemma {:induction false} OffsetMono(i: nat, n: nat, w: nat)
    requires i < n
    ensures Offset(i, w) + w + 1 <= Offset(n, w)
  {
    if i < n - 1 {
      OffsetMono(i, n - 1, w);
    }
  }

  lemma {:induction false} JoinLinesAt(lines: seq<string>, w: nat, i: nat, k: nat)
    requires forall l :: 0 <= l < |lines| ==> |lines[l]| == w
    requires i < |lines| && k <= w
    requires k == w ==> i < |lines| - 1
    ensures |JoinLines(lines)| == Offset(|lines|, w) - 1
    ensures Offset(i, w) + k < |JoinLines(lines)|
    ensures JoinLines(lines)[Offset(i, w) + k] == if k < w then lines[i][k] else '\n'
  {
    JoinLinesLength(lines, w);
    OffsetMono(i, |lines|, w);
    if k == w {
      OffsetMono(i + 1, |lines|, w);
    }
    if i > 0 {
      JoinLinesAt(lines[1..], w, i - 1, k);
      OffsetShift(i - 1, w);
    }
  }

  /** The layout of a 9 x 17 grid of short glyphs: rows of 68 characters separated by newlines. */
  lemma LayoutAt(g: seq<seq<string>>, i: nat, j: nat, k: nat)
    requires |g| == NumRows
    requires forall r, c :: 0 <= r < |g| && 0 <= c < |g[r]| ==> |g[r][c]| <= CellWidth
    requires forall r :: 0 <= r < |g| ==> |g[r]| == NumCols
    requires i < NumRows && j < NumCols && k < CellWidth
    ensures |Layout(g)| == LineStart(NumRows) - 1
    ensures LineStart(i) + CellWidth * j + k < |Layout(g)|
    ensures Layout(g)[LineStart(i) + CellWidth * j + k] == Pad(g[i][j], CellWidth)[k]
    ensures i < NumRows - 1 ==> LineStart(i) + LineWidth < |Layout(g)| && Layout(g)[LineStart(i) + LineWidth] == '\n'
  {
    var lines := RowTexts(g);
    assert forall r :: 0 <= r < |lines| ==> |lines[r]| == LineWidth;
    OffsetLineStart(i);
    OffsetLineStart(NumRows);
    RowTextAt(g[i], j, k);
    JoinLinesAt(lines, LineWidth, i, CellWidth * j + k);
    if i < NumRows - 1 {
      JoinLinesAt(lines, LineWidth, i, LineWidth);
    }
  }

  /** readBoard fails exactly when a count has no glyph or a marker index is out of range. */
  lemma RenderFails(b: Board, startX: int, startY: int, endX: int, endY: int)
    requires Shaped(b)
    ensures Render(b, startX, startY, endX, endY) == Err(KeyError) <==>
      exists i, j :: 0 <= i < NumRows && 0 <= j < NumCols && b[i][j] > 16
    ensures Render(b, startX, startY, endX, endY).Ok? <==>
      (forall i, j :: 0 <= i < NumRows && 0 <= j < NumCols ==> b[i][j] <= 16) &&
      -NumRows <= startY < NumRows && -NumCols <= startX < NumCols &&
      -NumRows <= endY < NumRows && -NumCols <= endX < NumCols
  {
    FreqToValDomain();
  }

  /** After marking, every cell holds what `CellGlyph` says, and no cell is wider than one character. */
  lemma MarkedCells(b: Board, sr: nat, sc: nat, er: nat, ec: nat)
    requires Shaped(b) && Renderable(b)
    requires sr < NumRows && sc < NumCols && er < NumRows && ec < NumCols
    ensures var g := Marked(b, sr, sc, er, ec);
      |g| == NumRows && (forall r :: 0 <= r < |g| ==> |g[r]| == NumCols) &&
      (forall r, c :: 0 <= r < |g| && 0 <= c < |g[r]| ==> g[r][c] == CellGlyph(b, sr, sc, er, ec, r, c)) &&
      (forall r, c :: 0 <= r < |g| && 0 <= c < |g[r]| ==> |g[r][c]| <= 1)
  {
    FreqToValDomain();
  }

  /**
    The text of a successful readBoard: 9 lines of 68 characters separated by
    newlines; cell (i, j) occupies 4 characters, holding "E" at the end
    position, otherwise "S" at the start position, otherwise the glyph of
    its count, followed by spaces.
   */
  lemma RenderText(b: Board, startX: int, startY: int, endX: int, endY: int)
    requires Shaped(b)
    requires Render(b, startX, startY, endX, endY).Ok?
    ensures Renderable(b)
    ensures var t := Render(b, startX, startY, endX, endY).value;
      |t| == LineStart(NumRows) - 1 &&
      (forall i :: 0 <= i < NumRows - 1 ==> t[LineStart(i) + LineWidth] == '\n')
    ensures var t := Render(b, startX, startY, endX, endY).value;
      var sr, sc := PyIndex(startY, NumRows).value, PyIndex(startX, NumCols).value;
      var er, ec := PyIndex(endY, NumRows).value, PyIndex(endX, NumCols).value;
      forall i, j, k :: 0 <= i < NumRows && 0 <= j < NumCols && 0 <= k < CellWidth ==>
        t[LineStart(i) + CellWidth * j + k] == Pad(CellGlyph(b, sr, sc, er, ec, i, j), CellWidth)[k]
  {
    var sr, sc := PyIndex(startY, NumRows).value, PyIndex(startX, NumCols).value;
    var er, ec := PyIndex(endY, NumRows).value, PyIndex(endX, NumCols).value;
    var g := Marked(b, sr, sc, er, ec);
    var t := Layout(g);
    assert Render(b, startX, startY, endX, endY).value == t;
    MarkedCells(b, sr, sc, er, ec);
    forall i | 0 <= i < NumRows - 1
      ensures LineStart(i) + LineWidth < |t| && t[LineStart(i) + LineWidth] == '\n'
    {
      LayoutAt(g, i, 0, 0);
    }
    forall i, j, k | 0 <= i < NumRows && 0 <= j < NumCols && 0 <= k < CellWidth
      ensures LineStart(i) + CellWidth * j + k < |t| &&
        t[LineStart(i) + CellWidth * j + k] == Pad(CellGlyph(b, sr, sc, er, ec, i, j), CellWidth)[k]
    {
      LayoutAt(g, i, j, k);
    }
    LayoutAt(g, 0, 0, 0);
  }
}
