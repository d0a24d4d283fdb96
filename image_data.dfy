/**
 * An RGBA image and its rendering to terminal text: the image is tiled
 * into whole 4x8 blocks (a partial block at the right or bottom edge is
 * dropped), each block becomes one glyph preceded by the colour codes
 * that changed since the previous block of the same row, and every row
 * ends with an SGR reset and a newline.
 */
module ImageData {
  import opened ANSIColor
  import opened BlockCharacter
  import opened Floating
  import opened Wrappers

  /** `ImageData(width:height:data:)`: the fields as given, the pixels row-major, 4 bytes each. */
  datatype ImageData = ImageData(width: int, height: int, data: seq<Byte>)

  // -----------------------------------------------------------------------
  // Tiling.

  /**
   * How many values `stride(from: 0, to: extent - (size - 1), by: size)`
   * produces: the number of whole blocks of `size` that fit in `extent`.
   */
  function BlockCount(extent: int, size: int): nat
    requires size > 0
  {
    if extent < size then 0 else extent / size
  }

  lemma MulMonotone(s: int, a: int, b: int)
    requires s > 0 && a <= b
    ensures s * a <= s * b
  {
  }

  /** Block `i` is visited by the stride exactly when `i` is below the block count. */
  lemma StrideVisits(extent: int, size: int, i: nat)
    requires size > 0
    ensures size * i < extent - (size - 1) <==> i < BlockCount(extent, size)
  {
    var q := extent / size;
    assert extent == size * q + extent % size && 0 <= extent % size < size;
    assert size * (i + 1) == size * i + size;
    if i < q {
      MulMonotone(size, i + 1, q);
    } else {
      MulMonotone(size, q + 1, i + 1);
      assert size * (q + 1) == size * q + size;
    }
  }

  function RowCount(img: ImageData): nat
  {
    BlockCount(img.height, 8)
  }

  function ColumnCount(img: ImageData): nat
  {
    BlockCount(img.width, 4)
  }

  /** Bytes per image row. */
  function ScanWidth(img: ImageData): int
  {
    img.width * 4
  }

  /** `y * scanWidth + x * bytesPerPixel` for block row `r` and block column `c`. */
  function BlockStart(img: ImageData, r: int, c: int): int
  {
    (8 * r) * ScanWidth(img) + (4 * c) * 4
  }

  /** Every read of every block the renderer visits stays inside the buffer. */
  predicate Renderable(img: ImageData)
  {
    forall r, c :: 0 <= r < RowCount(img) && 0 <= c < ColumnCount(img) ==>
      BlockInBounds(|img.data|, BlockStart(img, r, c), ScanWidth(img))
  }

  lemma CellBelowArea(row: int, col: int, w: int, h: int)
    requires 0 <= row < h && 0 <= col < w
    ensures 0 <= row * w + col < h * w
  {
    assert row * w + col < (row + 1) * w;
    assert (row + 1) * w <= h * w;
  }

  /**
   * Pixel `k` of the block at block row `r`, block column `c` of a
   * `w`-by-`h` image lies inside the image's `4 * w * h` bytes.
   */
  lemma PixelInside(w: int, h: int, r: int, c: int, k: int)
    requires 0 <= w && 0 <= h && 0 <= r && 0 <= c && 8 * r + 8 <= h && 4 * c + 4 <= w && 0 <= k < 32
    ensures var o := (8 * r) * (w * 4) + (4 * c) * 4 + (k / 4) * (w * 4) + (k % 4) * 4;
      0 <= o && o + 2 < w * h * 4
  {
    var row, col := 8 * r + k / 4, 4 * c + k % 4;
    assert row < h && col < w;
    assert (8 * r) * (w * 4) + (k / 4) * (w * 4) == 4 * (row * w);
    CellBelowArea(row, col, w, h);
  }

  /**
   * A buffer holding exactly `width * height` pixels of 4 bytes lets the
   * renderer read every block it visits.
   */
  lemma FullBufferRenderable(img: ImageData)
    requires 0 <= img.width && 0 <= img.height && |img.data| == img.width * img.height * 4
    ensures Renderable(img)
  {
    var w, h := img.width, img.height;
    forall r, c | 0 <= r < RowCount(img) && 0 <= c < ColumnCount(img)
      ensures BlockInBounds(|img.data|, BlockStart(img, r, c), ScanWidth(img))
    {
      StrideVisits(h, 8, r);
      StrideVisits(w, 4, c);
      forall k | 0 <= k < 32
        ensures 0 <= Offset(BlockStart(img, r, c), ScanWidth(img), k)
        ensures Offset(BlockStart(img, r, c), ScanWidth(img), k) + 2 < |img.data|
      {
        PixelInside(w, h, r, c, k);
      }
    }
  }

  // -----------------------------------------------------------------------
  // One block's output.

  /** The codes and glyph produced for one block. */
  datatype Cell = Cell(fg: string, bg: string, glyph: char)

  /**
   * The foreground and background codes for a quantised block: the role
   * flag united with the colour mode, from the block's colours or, in
   * grayscale, from their luma.
   */
  function CellOf(b: BlockCharacter, colorMode: Flags, grayscale: bool, fp: FloatOps): (cell: Cell)
    ensures IsControlSequence(cell.fg) && IsControlSequence(cell.bg)
  {
    var f, g := b.foregroundColor, b.backgroundColor;
    if grayscale then
      var fgGray := fp.luma(f.red, f.green, f.blue);
      var bgGray := fp.luma(g.red, g.green, g.blue);
      Cell(Color({Foreground} + colorMode, fgGray, fgGray, fgGray, fp),
           Color({Background} + colorMode, bgGray, bgGray, bgGray, fp),
           b.character)
    else
      Cell(Color({Foreground} + colorMode, f.red, f.green, f.blue, fp),
           Color({Background} + colorMode, g.red, g.green, g.blue, fp),
           b.character)
  }

  /** The block at block row `r`, block column `c`. */
  function BlockOf(img: ImageData, r: int, c: int): BlockCharacter
    requires Renderable(img) && 0 <= r < RowCount(img) && 0 <= c < ColumnCount(img)
  {
    Quantize(Window(img.data, BlockStart(img, r, c), ScanWidth(img)))
  }

  /**
   * `g` holds the cell of every block row and column. Its link to the
   * quantised block is only drawn where a `BlockOf` term is at hand, so
   * reasoning about rows and the frame never unfolds the quantiser or
   * the code synthesis.
   */
  ghost predicate IsCellRow(img: ImageData, colorMode: Flags, grayscale: bool, fp: FloatOps, r: int, row: seq<Cell>)
    requires Renderable(img) && 0 <= r < RowCount(img)
  {
    |row| == ColumnCount(img) && CodesNonEmpty(row) &&
    forall c {:trigger BlockOf(img, r, c)} :: 0 <= c < ColumnCount(img) ==>
      row[c] == CellOf(BlockOf(img, r, c), colorMode, grayscale, fp)
  }

  lemma CellRowExists(img: ImageData, colorMode: Flags, grayscale: bool, fp: FloatOps, r: int)
    requires Renderable(img) && 0 <= r < RowCount(img)
    ensures exists row :: IsCellRow(img, colorMode, grayscale, fp, r, row)
  {
    var row := seq(ColumnCount(img), c requires 0 <= c < ColumnCount(img) =>
      CellOf(BlockOf(img, r, c), colorMode, grayscale, fp));
    assert IsCellRow(img, colorMode, grayscale, fp, r, row);
  }

  /** The cells of block row `r`, left to right. */
  ghost function CellRow(img: ImageData, colorMode: Flags, grayscale: bool, fp: FloatOps, r: int): (row: seq<Cell>)
    requires Renderable(img) && 0 <= r < RowCount(img)
    ensures IsCellRow(img, colorMode, grayscale, fp, r, row)
  {
    CellRowExists(img, colorMode, grayscale, fp, r);
    var row :| IsCellRow(img, colorMode, grayscale, fp, r, row); row
  }

  ghost predicate IsCellGrid(img: ImageData, colorMode: Flags, grayscale: bool, fp: FloatOps, g: seq<seq<Cell>>)
    requires Renderable(img)
  {
    |g| == RowCount(img) &&
    forall r :: 0 <= r < |g| ==> IsCellRow(img, colorMode, grayscale, fp, r, g[r])
  }

  lemma CellGridExists(img: ImageData, colorMode: Flags, grayscale: bool, fp: FloatOps)
    requires Renderable(img)
    ensures exists g :: IsCellGrid(img, colorMode, grayscale, fp, g)
  {
    var g := seq(RowCount(img), r requires 0 <= r < RowCount(img) => CellRow(img, colorMode, grayscale, fp, r));
    assert IsCellGrid(img, colorMode, grayscale, fp, g);
  }

  /** The cell of every block, row by row. */
  ghost function CellGrid(img: ImageData, colorMode: Flags, grayscale: bool, fp: FloatOps): (g: seq<seq<Cell>>)
    requires Renderable(img)
    ensures IsCellGrid(img, colorMode, grayscale, fp, g)
  {
    CellGridExists(img, colorMode, grayscale, fp);
    var g :| IsCellGrid(img, colorMode, grayscale, fp, g); g
  }

  /** The cells of block row `r`, left to right. */
  ghost function RowCells(img: ImageData, colorMode: Flags, grayscale: bool, fp: FloatOps, r: int): (cells: seq<Cell>)
    requires Renderable(img) && 0 <= r < RowCount(img)
    ensures |cells| == ColumnCount(img) && CodesNonEmpty(cells)
  {
    CellGrid(img, colorMode, grayscale, fp)[r]
  }

  /** Cell `c` of row `r` is the code synthesis applied to that block. */
  lemma RowCellAt(img: ImageData, colorMode: Flags, grayscale: bool, fp: FloatOps, r: int, c: int)
    requires Renderable(img) && 0 <= r < RowCount(img) && 0 <= c < ColumnCount(img)
    ensures RowCells(img, colorMode, grayscale, fp, r)[c] == CellOf(BlockOf(img, r, c), colorMode, grayscale, fp)
  {
  }

  /** Whether every cell carries a non-empty code for both roles. */
  predicate CodesNonEmpty(cells: seq<Cell>)
  {
    forall i :: 0 <= i < |cells| ==> cells[i].fg != "" && cells[i].bg != ""
  }

  // -----------------------------------------------------------------------
  // One row's output.

  /** The row text so far and the last foreground and background codes emitted in the row. */
  datatype RowState = RowState(text: string, lastFg: string, lastBg: string)

  /**
   * One cell of the row loop: a code is appended only when it differs
   * from the last one emitted, then the glyph; the trackers take the
   * cell's codes.
   */
  function EmitNext(st: RowState, c: Cell): RowState
  {
    var fgPart := if c.fg != st.lastFg then c.fg else "";
    var bgPart := if c.bg != st.lastBg then c.bg else "";
    RowState(st.text + fgPart + bgPart + [c.glyph], c.fg, c.bg)
  }

  /** The row loop after `n` cells, starting with empty trackers. */
  function EmitUpTo(cells: seq<Cell>, n: nat): RowState
    requires n <= |cells|
  {
    if n == 0 then RowState("", "", "") else EmitNext(EmitUpTo(cells, n - 1), cells[n - 1])
  }

  /**
   * What cell `i` contributes when read without the loop's state: a code
   * when the cell is the row's first or its code differs from the
   * previous cell's, then the glyph.
   */
  function Piece(cells: seq<Cell>, i: nat): string
    requires i < |cells|
  {
    var c := cells[i];
    (if i == 0 || c.fg != cells[i - 1].fg then c.fg else "") +
    (if i == 0 || c.bg != cells[i - 1].bg then c.bg else "") +
    [c.glyph]
  }

  /** The first `n` pieces, concatenated. */
  function Pieces(cells: seq<Cell>, n: nat): string
    requires n <= |cells|
  {
    if n == 0 then "" else Pieces(cells, n - 1) + Piece(cells, n - 1)
  }

  /**
   * With non-empty codes the row loop emits exactly the pieces, and its
   * trackers hold the previous cell's codes (empty at the row's start).
   */
  lemma {:induction false} EmitUpToPieces(cells: seq<Cell>, n: nat)
    requires n <= |cells| && CodesNonEmpty(cells)
    ensures var st := EmitUpTo(cells, n);
      st.text == Pieces(cells, n) &&
      (n == 0 ==> st.lastFg == "" && st.lastBg == "") &&
      (n > 0 ==> st.lastFg == cells[n - 1].fg && st.lastBg == cells[n - 1].bg)
  {
    if n > 0 {
      EmitUpToPieces(cells, n - 1);
    }
  }

  /** The pieces of a longer prefix extend those of a shorter one. */
  lemma {:induction false} PiecesExtend(cells: seq<Cell>, m: nat, n: nat)
    requires m <= n <= |cells|
    ensures Pieces(cells, m) <= Pieces(cells, n)
  {
    if m < n {
      PiecesExtend(cells, m, n - 1);
    }
  }

  /** A row's text. */
  function RowText(cells: seq<Cell>): string
  {
    EmitUpTo(cells, |cells|).text
  }

  // -----------------------------------------------------------------------
  // The whole frame.

  /** Each row's text followed by the reset and a newline, top to bottom. */
  function Frame(rows: seq<string>): string
  {
    if rows == [] then "" else Frame(rows[..|rows| - 1]) + rows[|rows| - 1] + Reset + "\n"
  }

  /** No rows give no output; otherwise the output ends with `ESC[0m` and a newline. */
  lemma FrameEnding(rows: seq<string>)
    ensures var s := Frame(rows);
      (rows == [] ==> s == "") &&
      (rows != [] ==> |s| >= 5 && s[|s| - 5..] == [Esc] + "[0m\n")
  {
    if rows != [] {
      var front := Frame(rows[..|rows| - 1]) + rows[|rows| - 1];
      assert Frame(rows) == front + ([Esc] + "[0m\n");
    }
  }

  /** Adding row `r` to the first `r` rows appends its text, the reset and a newline. */
  lemma FrameStep(rows: seq<string>, r: nat)
    requires r < |rows|
    ensures Frame(rows[..r + 1]) == Frame(rows[..r]) + rows[r] + Reset + "\n"
  {
    assert rows[..r + 1][..r] == rows[..r];
  }

  /** The text of every block row, top to bottom. */
  ghost function RowTexts(img: ImageData, colorMode: Flags, grayscale: bool, fp: FloatOps): (rows: seq<string>)
    requires Renderable(img)
    ensures |rows| == RowCount(img)
    ensures forall r :: 0 <= r < |rows| ==> rows[r] == RowText(RowCells(img, colorMode, grayscale, fp, r))
  {
    seq(RowCount(img), r requires 0 <= r < RowCount(img) =>
      RowText(RowCells(img, colorMode, grayscale, fp, r)))
  }

  /** The output of `render` for an image whose blocks are all readable. */
  ghost function Rendered(img: ImageData, colorMode: Flags, grayscale: bool, fp: FloatOps): string
    requires Renderable(img)
  {
    Frame(RowTexts(img, colorMode, grayscale, fp))
  }

  /**
   * An image shorter than one block renders as nothing; otherwise the
   * output ends with `ESC[0m` and a newline.
   */
  lemma RenderedEnding(img: ImageData, colorMode: Flags, grayscale: bool, fp: FloatOps)
    requires Renderable(img)
    ensures var s := Rendered(img, colorMode, grayscale, fp);
      (img.height < 8 ==> s == "") &&
      (img.height >= 8 ==> |s| >= 5 && s[|s| - 5..] == [Esc] + "[0m\n")
  {
    var rows := RowTexts(img, colorMode, grayscale, fp);
    FrameEnding(rows);
    assert img.height >= 8 ==> |rows| > 0;
  }

  /**
   * Each block row holds `width / 4` cells and its text is their pieces:
   * one glyph per block, each preceded by the codes that changed, and the
   * row's first block emits both codes because the trackers start empty
   * and codes never are.
   */
  lemma RowLayout(img: ImageData, colorMode: Flags, grayscale: bool, fp: FloatOps, r: int)
    requires Renderable(img) && 0 <= r < RowCount(img)
    ensures var cells := RowCells(img, colorMode, grayscale, fp, r);
      var text := RowTexts(img, colorMode, grayscale, fp)[r];
      |cells| == ColumnCount(img) &&
      text == Pieces(cells, |cells|) &&
      (|cells| > 0 ==> cells[0].fg + cells[0].bg + [cells[0].glyph] <= text)
  {
    var cells := RowCells(img, colorMode, grayscale, fp, r);
    assert CodesNonEmpty(cells);
    EmitUpToPieces(cells, |cells|);
    if |cells| > 0 {
      PiecesExtend(cells, 1, |cells|);
      assert Pieces(cells, 1) == cells[0].fg + cells[0].bg + [cells[0].glyph];
    }
  }

  /**
   * For every colour mode, a block's codes decode to its own colours: the
   * foreground code's role is background exactly when `.background` is in
   * the mode, the background code's role always is, and each carries the
   * palette index of its colour under `.mode256` and the colour itself
   * otherwise.
   */
  lemma CellCodesDecode(b: BlockCharacter, colorMode: Flags, fp: FloatOps)
    requires InByteRange(b.foregroundColor) && InByteRange(b.backgroundColor)
    ensures var cell := CellOf(b, colorMode, false, fp);
      var f, g := b.foregroundColor, b.backgroundColor;
      var role := Background in colorMode;
      if Mode256 in colorMode then
        ParseColorCode(cell.fg) == Some(Indexed(role, PaletteIndex(f.red, f.green, f.blue, fp))) &&
        ParseColorCode(cell.bg) == Some(Indexed(true, PaletteIndex(g.red, g.green, g.blue, fp)))
      else
        ParseColorCode(cell.fg) == Some(TrueColor(role, f.red, f.green, f.blue)) &&
        ParseColorCode(cell.bg) == Some(TrueColor(true, g.red, g.green, g.blue))
  {
    var f, g := b.foregroundColor, b.backgroundColor;
    assert Clamp(f.red) == f.red && Clamp(f.green) == f.green && Clamp(f.blue) == f.blue;
    assert Clamp(g.red) == g.red && Clamp(g.green) == g.green && Clamp(g.blue) == g.blue;
    UnitedColorDecodes(Foreground, colorMode, f.red, f.green, f.blue, fp);
    UnitedColorDecodes(Background, colorMode, g.red, g.green, g.blue, fp);
  }

  /**
   * In grayscale, for every colour mode, each code carries the clamped
   * luma of its colour on all three channels (or that gray's palette
   * index under `.mode256`), with the same roles as in colour.
   */
  lemma GrayCellCodesDecode(b: BlockCharacter, colorMode: Flags, fp: FloatOps)
    ensures var cell := CellOf(b, colorMode, true, fp);
      var f, g := b.foregroundColor, b.backgroundColor;
      var fy := Clamp(fp.luma(f.red, f.green, f.blue));
      var gy := Clamp(fp.luma(g.red, g.green, g.blue));
      var role := Background in colorMode;
      if Mode256 in colorMode then
        ParseColorCode(cell.fg) == Some(Indexed(role, PaletteIndex(fy, fy, fy, fp))) &&
        ParseColorCode(cell.bg) == Some(Indexed(true, PaletteIndex(gy, gy, gy, fp)))
      else
        ParseColorCode(cell.fg) == Some(TrueColor(role, fy, fy, fy)) &&
        ParseColorCode(cell.bg) == Some(TrueColor(true, gy, gy, gy))
  {
    var f, g := b.foregroundColor, b.backgroundColor;
    var fGray, gGray := fp.luma(f.red, f.green, f.blue), fp.luma(g.red, g.green, g.blue);
    UnitedColorDecodes(Foreground, colorMode, fGray, fGray, fGray, fp);
    UnitedColorDecodes(Background, colorMode, gGray, gGray, gGray, fp);
  }

  /**
   * With `.background` in the colour mode, the union makes the
   * foreground code a background code as well.
   */
  lemma BackgroundModeOverridesRole(b: BlockCharacter, colorMode: Flags, grayscale: bool, fp: FloatOps)
    requires Background in colorMode
    ensures var cell := CellOf(b, colorMode, grayscale, fp);
      ParseColorCode(cell.fg).Some? && ParseColorCode(cell.fg).value.background
  {
    var f := b.foregroundColor;
    var flags := {Foreground} + colorMode;
    if grayscale {
      var gray := fp.luma(f.red, f.green, f.blue);
      ColorDecodes(flags, gray, gray, gray, fp);
    } else {
      ColorDecodes(flags, f.red, f.green, f.blue, fp);
    }
  }

  /**
   * In a full-size image at least one block tall, the output contains an
   * escape character and ends with `ESC[0m` and a newline.
   */
  lemma RenderTestOutput(img: ImageData, colorMode: Flags, grayscale: bool, fp: FloatOps)
    requires 0 <= img.width && 8 <= img.height && |img.data| == img.width * img.height * 4
    ensures Renderable(img)
    ensures var s := Rendered(img, colorMode, grayscale, fp);
      Esc in s && |s| >= 5 && s[|s| - 5..] == [Esc] + "[0m\n"
  {
    FullBufferRenderable(img);
    RenderedEnding(img, colorMode, grayscale, fp);
    var s := Rendered(img, colorMode, grayscale, fp);
    assert s[|s| - 5] == Esc;
  }

  // -----------------------------------------------------------------------
  // The renderer.

  /**
   * One block of the column loop: its start offset, the quantised block
   * and its two codes.
   */
  method RenderBlock(img: ImageData, y: int, x: int, ghost r: int, ghost c: int, colorMode: Flags, grayscale: bool, fp: FloatOps)
    returns (fg: string, bg: string, character: char)
    requires Renderable(img) && 0 <= r < RowCount(img) && 0 <= c < ColumnCount(img) && y == 8 * r && x == 4 * c
    ensures Cell(fg, bg, character) == RowCells(img, colorMode, grayscale, fp, r)[c]
  {
    var bytesPerPixel := 4;
    var scanWidth := img.width * bytesPerPixel;
    var startPos := y * scanWidth + x * bytesPerPixel;
    assert startPos == BlockStart(img, r, c) && scanWidth == ScanWidth(img);
    var blockChar := NewBlockCharacter(img.data, startPos, scanWidth);
    assert blockChar == BlockOf(img, r, c);
    RowCellAt(img, colorMode, grayscale, fp, r, c);
    var f, g := blockChar.foregroundColor, blockChar.backgroundColor;
    if grayscale {
      var fgGray := fp.luma(f.red, f.green, f.blue);
      var bgGray := fp.luma(g.red, g.green, g.blue);
      fg := Color({Foreground} + colorMode, fgGray, fgGray, fgGray, fp);
      bg := Color({Background} + colorMode, bgGray, bgGray, bgGray, fp);
    } else {
      fg := Color({Foreground} + colorMode, f.red, f.green, f.blue, fp);
      bg := Color({Background} + colorMode, g.red, g.green, g.blue, fp);
    }
    character := blockChar.character;
  }

  /** Append one block to the row: each code only when it changed, then the glyph. */
  method EmitCell(text: string, lastFg: string, lastBg: string, fg: string, bg: string, character: char)
    returns (text': string, lastFg': string, lastBg': string)
    ensures RowState(text', lastFg', lastBg') == EmitNext(RowState(text, lastFg, lastBg), Cell(fg, bg, character))
  {
    text', lastFg', lastBg' := text, lastFg, lastBg;
    if fg != lastFg' {
      text' := text' + fg;
      lastFg' := fg;
    }
    if bg != lastBg' {
      text' := text' + bg;
      lastBg' := bg;
    }
    text' := text' + [character];
  }

  /** The column loop over block row `r` (pixel row `y`), with trackers reset at its start. */
  method RenderRow(img: ImageData, fp: FloatOps, colorMode: Flags, grayscale: bool, y: int, ghost r: int)
    returns (text: string)
    requires Renderable(img) && 0 <= r < RowCount(img) && y == 8 * r
    ensures text == RowText(RowCells(img, colorMode, grayscale, fp, r))
  {
    var blockWidth := 4;
    ghost var cells := RowCells(img, colorMode, grayscale, fp, r);
    text := "";
    var lastFg, lastBg := "", "";
    var x := 0;
    ghost var c := 0;
    while x < img.width - (blockWidth - 1)
      invariant x == 4 * c && c <= ColumnCount(img)
      invariant EmitUpTo(cells, c) == RowState(text, lastFg, lastBg)
      decreases img.width - x
    {
      StrideVisits(img.width, 4, c);
      var fg, bg, character := RenderBlock(img, y, x, r, c, colorMode, grayscale, fp);
      text, lastFg, lastBg := EmitCell(text, lastFg, lastBg, fg, bg, character);
      x := x + blockWidth;
      c := c + 1;
    }
    StrideVisits(img.width, 4, c);
    assert c == |cells|;
  }

  /** `render(colorMode:grayscale:)`: the frame as terminal text. */
  method Render(img: ImageData, fp: FloatOps, colorMode: Flags := {Mode24Bit}, grayscale: bool := false)
    returns (output: string)
    requires Renderable(img)
    ensures output == Rendered(img, colorMode, grayscale, fp)
  {
    output := "";
    var blockHeight := 8;
    ghost var rows := RowTexts(img, colorMode, grayscale, fp);
    var y := 0;
    ghost var r := 0;
    while y < img.height - (blockHeight - 1)
      invariant y == 8 * r && r <= RowCount(img)
      invariant output == Frame(rows[..r])
      decreases img.height - y
    {
      StrideVisits(img.height, 8, r);
      var line := RenderRow(img, fp, colorMode, grayscale, y, r);
      FrameStep(rows, r);
      output := output + line + Reset + "\n";
      y := y + blockHeight;
      r := r + 1;
    }
    StrideVisits(img.height, 8, r);
    assert rows[..r] == rows;
  }
}
