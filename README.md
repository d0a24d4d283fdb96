# SwiftyTIV rendering core in Dafny

SwiftyTIV is a terminal image viewer. It draws an RGBA image as text. Each
4x8 block of pixels becomes one character, and each character carries a
foreground and a background colour, given as ANSI control sequences. This
project models the three parts that turn a pixel buffer into that text, and
proves what each part promises:

- **The block quantiser** (`BlockCharacter.init`, module `BlockCharacter`)
  works on one 4x8 window.
  - It finds the colour channel with the widest range and thresholds every
    pixel at the midpoint of that range.
  - It packs the foreground flags into a 32-bit pattern, first pixel in the
    top bit, and averages the two clusters. Each output colour is the floor
    of the mean of its own cluster's pixels (`QuantizeColorsAreMeans`).
  - It searches a 51-entry glyph table for the bitmap, or bitmap complement,
    nearest to the pattern.
  - If even the best entry is more than 10 bits away, it falls back to a
    5-step shade ramp. It swaps the colours when a complement won.
  - The imperative initialiser `NewBlockCharacter` keeps the source's nested
    loops and array updates. It is proved equal to the function `Quantize`,
    and the lemmas are stated about `Quantize`.
- **The colour-code synthesis** (`ANSIColor.color`, module `ANSIColor`)
  emits an SGR control sequence (ECMA-48 section 8.3.117).
  - The colour parameters are the xterm extended-colour ones: `38;2;r;g;b`
    / `48;2;r;g;b`, or `38;5;n` / `48;5;n` when `.mode256` is set.
  - The option set `Flags` is a `set<Flag>`, and `union` is `+`.
  - Decimal formatting (Swift string interpolation of an `Int`) is in module
    `Text`.
  - A parser for the emitted codes (`ParseColorCode`) is the partner that the
    round-trip lemmas use.
- **The frame renderer** (`ImageData.render`, module `ImageData`) has two
  parts.
  - The datatype `ImageData` holds the fields; its constructor is the plain
    `init(width:height:data:)`.
  - `Render` keeps the source's row loop. Its column loop (`RenderRow`) keeps
    the `lastFg`/`lastBg` trackers, which reset every row.
  - `Render` is proved equal to the ghost function `Rendered`.
  - `Rendered` is the frame of row texts. Each row text is read off the row's
    cells, and each cell is `CellOf(Quantize(window))`.

The 32-bit pattern (`UInt32`) is a `bv32`, and `nonzeroBitCount` is the
number of `true` entries in the pattern's bit sequence (module `Bits`).
Three floating-point formulas are parameters of the model, as the total
functions of a `FloatOps` value (module `Floating`):

- the `Float` gray value of the 256-colour path;
- the `Double` weighted errors that compare cube and ramp;
- the `Double` luma of the grayscale path.

Every contract holds for every choice of these functions.

The model follows the code also where its behaviour may be unexpected:

- `bestIndex` breaks a distance tie towards the higher step, because its
  comparison is strict (`CubeTieGoesUp`).
- A uniform block has an empty foreground cluster. Its foreground colour
  is therefore black (0,0,0), and its background is the pixel colour
  (`UniformBlock`, `AllWhiteBlock`). An all-white block is thus drawn as
  black on white, not white on white.
- `render` unites `.foreground` and `.background` with the colour mode. A
  colour mode that already holds `.background` therefore turns the
  foreground code into a background code too (`BackgroundModeOverridesRole`).
- Error ties in the 256-colour choice go to the grayscale ramp, because
  `colorError < grayError` is strict (`PaletteIndex`).

## Model

| member | source | states |
|---|---|---|
| ANSIColor.Clamp | Sources/SwiftyTIV/ANSIColor.swift:25-27 | the result lies in [lo, hi]; it is the input when that is in range, lo below the range and hi above it |
| ANSIColor.FirstIndexAtLeast | Sources/SwiftyTIV/ANSIColor.swift:30 | `firstIndex(where: { $0 >= value })`: a found index holds a step at least `value` and every earlier step is below it; none found means every step is below `value` |
| ANSIColor.BestIndex | Sources/SwiftyTIV/ANSIColor.swift:29-42 | -1 for no steps, otherwise an index in range; the last index when `value` exceeds every step, 0 when `value` is at most the first |
| ANSIColor.BestIndexNearest | Sources/SwiftyTIV/ANSIColor.swift:29-42 | on strictly ascending steps the chosen step is a nearest one, and of two equally near steps the higher one |
| ANSIColor.StepsAscending | Sources/SwiftyTIV/ANSIColor.swift:19-23 | the cube steps and the grayscale steps are strictly ascending |
| ANSIColor.CubeLevelNearest | Sources/SwiftyTIV/ANSIColor.swift:62-64 | each channel's cube level is a nearest of the six steps, the higher on a tie |
| ANSIColor.GrayLevelNearest | Sources/SwiftyTIV/ANSIColor.swift:71-72 | the ramp level is a nearest of the 24 ramp grays, the higher on a tie |
| ANSIColor.CubeLevel | Sources/SwiftyTIV/ANSIColor.swift:62-64 | a channel's cube level is `bestIndex` over the six cube steps, an index in [0, 5]; `CubeLevelNearest` shows it picks a nearest step |
| ANSIColor.GrayLevel | Sources/SwiftyTIV/ANSIColor.swift:70-72 | the ramp level of the `Float` gray value is `bestIndex` over the 24 ramp grays, an index in [0, 23]; `GrayLevelNearest` shows it picks a nearest gray |
| ANSIColor.CubeError | Sources/SwiftyTIV/ANSIColor.swift:66-75 | the weighted error of the chosen cube colour: the weighting applied to the squared differences between each channel and its cube step; `PaletteIndex` picks the cube exactly when this is strictly below `GrayError` |
| ANSIColor.GrayError | Sources/SwiftyTIV/ANSIColor.swift:70-76 | the weighted error of the chosen ramp gray: the same weighting applied to the squared differences between that gray and each channel |
| ANSIColor.CubeTieGoesUp | Sources/SwiftyTIV/ANSIColor.swift:41 | 115, midway between steps 0x5f and 0x87, maps to the higher level 2 |
| ANSIColor.Square | Sources/SwiftyTIV/ANSIColor.swift:44-46 | the square is never negative and is zero exactly for zero |
| ANSIColor.PaletteIndex | Sources/SwiftyTIV/ANSIColor.swift:62-82 | the index lies in [16, 255]; it is a cube index (at most 231) exactly when the cube error is strictly lower, so ties go to gray; a cube index is `16 + 36r + 6g + b` of the channel levels, a gray index is `232 +` the ramp level |
| ANSIColor.PaletteIndexDecodes | Sources/SwiftyTIV/ANSIColor.swift:79 | a cube palette index gives back the three channel levels by `/ 36`, `/ 6 % 6` and `% 6` |
| ANSIColor.CubeIndexDecodes | Sources/SwiftyTIV/ANSIColor.swift:79 | a cube offset `36r + 6g + b` of levels below 6 is below 216 and decodes to those levels |
| ANSIColor.Color | Sources/SwiftyTIV/ANSIColor.swift:48-86 | every code starts with `ESC [` and ends with `m` |
| ANSIColor.ColorDecodes | Sources/SwiftyTIV/ANSIColor.swift:48-86 | every emitted code parses back: the role is background exactly when `.background` is in the flags; without `.mode256` it carries the three clamped channels, with it the palette index of the clamped channels |
| ANSIColor.UnitedColorDecodes | Sources/SwiftyTIV/ImageData.swift:138-150 | `.foreground` or `.background` united with any colour mode decodes as a background code exactly when the role or the mode holds `.background`, and as a palette index exactly when the mode holds `.mode256` |
| ANSIColor.TrueColorDecodes | Sources/SwiftyTIV/ANSIColor.swift:57-58 | `ESC[38;2;r;g;bm` / `ESC[48;2;r;g;bm` with decimal channels parses to that role and those channels |
| ANSIColor.IndexedDecodes | Sources/SwiftyTIV/ANSIColor.swift:84-85 | `ESC[38;5;nm` / `ESC[48;5;nm` with a decimal index parses to that role and that index |
| ANSIColor.PaletteCodeShape | Sources/SwiftyTIV/ANSIColor.swift:84-85 | a 256-colour code is the role prefix `ESC[38;5;` or `ESC[48;5;`, a digit string denoting a number in [16, 255], and `m` |
| ANSIColor.TrueColorExample | Tests/SwiftyTIVTests/SwiftyTIVTests.swift:5-8 | `.foreground` in 24-bit mode with (255, 100, 50) gives exactly `ESC[38;2;255;100;50m` |
| Text.Decimal | Sources/SwiftyTIV/ANSIColor.swift:58 | the interpolated form of a non-negative number is a non-empty digit string without a leading zero |
| Text.ParseDecimalOfDecimal | Sources/SwiftyTIV/ANSIColor.swift:58 | reading a formatted number back gives the number |
| Text.DecimalInjective | Sources/SwiftyTIV/ANSIColor.swift:58 | distinct numbers are formatted differently |
| Text.SplitJoin | Sources/SwiftyTIV/ANSIColor.swift:58 | fields joined with `;` and split at `;` come back unchanged when no field contains `;` |
| Bits.Popcount | Sources/SwiftyTIV/BlockCharacter.swift:162 | `nonzeroBitCount` of a 32-bit pattern is at most 32 |
| Bits.PopcountZero | Sources/SwiftyTIV/BlockCharacter.swift:162 | a pattern has popcount 0 exactly when it is zero |
| Bits.PopcountNot | Sources/SwiftyTIV/BlockCharacter.swift:169 | the complement of a pattern has `32 -` its popcount |
| Bits.DistanceComplement | Sources/SwiftyTIV/BlockCharacter.swift:162-169 | the distances to a bitmap and to its complement sum to 32 |
| Bits.BitsOfInjective | Sources/SwiftyTIV/BlockCharacter.swift:114 | two patterns with the same 32 bits are equal |
| Bits.PushBitAt | Sources/SwiftyTIV/BlockCharacter.swift:121-127 | after `bits << 1` and or-ing in the flag, the flag is bit 0 and each earlier bit has moved up by one |
| Bits.PackBit | Sources/SwiftyTIV/BlockCharacter.swift:114-127 | after shifting in up to 32 flags, bit `i` holds the flag pushed `i` steps before the end, and bits above the count are clear |
| Bits.PackBits | Sources/SwiftyTIV/BlockCharacter.swift:114-127 | after shifting in 32 flags, the pattern read from its top bit down is exactly the flags in order |
| Bits.PopcountPack | Sources/SwiftyTIV/BlockCharacter.swift:114-127 | the popcount of 32 packed flags is the number of set flags |
| BlockCharacter.GlyphTable | Sources/SwiftyTIV/BlockCharacter.swift:8-77 | the table has 51 entries and starts with the no-break space on the empty bitmap; no other entry's bitmap is empty or full, so only entry 0 matches a uniform pattern exactly, plainly or inverted |
| BlockCharacter.Window | Sources/SwiftyTIV/BlockCharacter.swift:86-97 | pixel `k` of the window is row `k / 4`, column `k % 4`: its channels are the bytes at `start + row * scanWidth + col * 4` and the two after it |
| BlockCharacter.OffsetAt | Sources/SwiftyTIV/BlockCharacter.swift:86-97 | the cursor for row `row`, column `col` is `start + row * scanWidth + 4 * col`, the pixel offset of index `4 * row + col` |
| BlockCharacter.MinUpTo | Sources/SwiftyTIV/BlockCharacter.swift:80-98 | the running minimum of one channel over the pixels read so far, starting from 255; its meaning is stated by `ScanBounds` |
| BlockCharacter.MaxUpTo | Sources/SwiftyTIV/BlockCharacter.swift:81-98 | the running maximum of one channel over the pixels read so far, starting from 0; its meaning is stated by `ScanBounds` |
| BlockCharacter.ScanBounds | Sources/SwiftyTIV/BlockCharacter.swift:85-98 | the scanned minimum and maximum of a channel are bytes, bound every value seen and are each attained by a pixel seen |
| BlockCharacter.ScanRanges | Sources/SwiftyTIV/BlockCharacter.swift:80-98 | the nested range-scan loops leave each channel's minimum and maximum over the 32 pixels |
| BlockCharacter.WidestUpTo | Sources/SwiftyTIV/BlockCharacter.swift:101-109 | the split after examining the first `n` channels with a strict `>`; the split channel is always one of the three; `WidestIsFirstWidest` characterises it |
| BlockCharacter.WidestIsFirstWidest | Sources/SwiftyTIV/BlockCharacter.swift:101-109 | the split channel is the lowest-numbered one whose range is strictly greatest and positive; with no positive range it is channel 0 with range 0 |
| BlockCharacter.WidestChannel | Sources/SwiftyTIV/BlockCharacter.swift:101-109 | the split-channel loop produces the split the fold describes |
| BlockCharacter.SplitValue | Sources/SwiftyTIV/BlockCharacter.swift:111 | the threshold `minValues[splitIndex] + bestSplit / 2`; `SplitValueInRange` places it in the split channel's range |
| BlockCharacter.SplitValueInRange | Sources/SwiftyTIV/BlockCharacter.swift:111 | `min + range / 2` lies between the split channel's minimum and maximum |
| BlockCharacter.AddPixel | Sources/SwiftyTIV/BlockCharacter.swift:129-136 | the channel loop adds the pixel's three colour bytes to the cluster sum |
| BlockCharacter.ClassifyStep | Sources/SwiftyTIV/BlockCharacter.swift:121-137 | one pixel of the classification loop: the flag shifted in, one cluster's count and channel sums updated; the sums stay triples |
| BlockCharacter.Classify | Sources/SwiftyTIV/BlockCharacter.swift:113-142 | the classification loop after `k` pixels; counts are never negative; its meaning is stated by `ClassifyAgrees` |
| BlockCharacter.ForegroundFlags | Sources/SwiftyTIV/BlockCharacter.swift:123-124 | pixel `k` is a foreground pixel exactly when its split-channel value is strictly above the threshold |
| BlockCharacter.SumIf | Sources/SwiftyTIV/BlockCharacter.swift:129-136 | the reference cluster sum: channel `i` summed over exactly those pixels whose flag is `want` |
| BlockCharacter.ClassifySums | Sources/SwiftyTIV/BlockCharacter.swift:113-142 | after `k` pixels each cluster's channel sum equals the reference sum over that cluster's own pixels |
| BlockCharacter.ClassifyPixel | Sources/SwiftyTIV/BlockCharacter.swift:121-137 | one pixel shifts its foreground flag into the pattern and adds to exactly one cluster's count and sum |
| BlockCharacter.BuildPattern | Sources/SwiftyTIV/BlockCharacter.swift:113-142 | the classification loops produce the pattern, counts and sums of the window's 32 pixels in reading order |
| BlockCharacter.ClassifyAgrees | Sources/SwiftyTIV/BlockCharacter.swift:113-142 | after `k` pixels the pattern packs their foreground flags, the foreground count counts them, the counts sum to `k`, each cluster's channel sum is the sum of that channel over exactly the cluster's pixels, and lies between 0 and 255 per pixel in the cluster |
| BlockCharacter.PatternBits | Sources/SwiftyTIV/BlockCharacter.swift:113-142 | the pattern's bits, top first, are the pixels' foreground flags; the first pixel read is bit 31; the counts sum to 32; the popcount is the foreground count |
| BlockCharacter.Average | Sources/SwiftyTIV/BlockCharacter.swift:145-154 | `sum / count` for a non-empty cluster, the untouched (zero) sum for an empty one; `AverageOf` states its meaning |
| BlockCharacter.ClusterColor | Sources/SwiftyTIV/BlockCharacter.swift:144-154 | the three averaged channels of a cluster as a colour tuple; `ClusterColorOf` states its meaning |
| BlockCharacter.AverageOf | Sources/SwiftyTIV/BlockCharacter.swift:144-154 | a cluster average is a byte, the floor of the mean of a non-empty cluster, and 0 for an empty one |
| BlockCharacter.ClusterColorOf | Sources/SwiftyTIV/BlockCharacter.swift:144-154 | a cluster colour is a byte triple, each channel the floor of its mean, and black for an empty cluster |
| BlockCharacter.ClusterMeanOf | Sources/SwiftyTIV/BlockCharacter.swift:144-154 | a cluster whose sums are its members' channel sums is coloured, channel by channel, by the floor of its members' mean, and black when empty |
| BlockCharacter.ClusterMeans | Sources/SwiftyTIV/BlockCharacter.swift:113-154 | the foreground cluster has the `Count` of foreground pixels and the background cluster the rest; each cluster colour is the floor of the mean of its own pixels, black when empty |
| BlockCharacter.QuantizeColorsInRange | Sources/SwiftyTIV/BlockCharacter.swift:144-154 | both output colours of the quantiser are byte triples |
| BlockCharacter.QuantizeColorsAreMeans | Sources/SwiftyTIV/BlockCharacter.swift:144-193 | the output colours are the two cluster means, foreground cluster as foreground, swapped exactly when a glyph within 10 bits won through its complement |
| BlockCharacter.EntryComplement | Sources/SwiftyTIV/BlockCharacter.swift:162-169 | an entry's plain and inverted distances are non-negative and sum to 32 |
| BlockCharacter.MatchStep | Sources/SwiftyTIV/BlockCharacter.swift:161-174 | one entry of the match loop: the bitmap, then its complement, each taking over when strictly nearer; `StepTakes` and `StepKeeps` state its effect |
| BlockCharacter.MatchUpTo | Sources/SwiftyTIV/BlockCharacter.swift:156-175 | the match loop after the first `n` entries, starting from `Int.max`; `MatchIsFirstMinimum` states where it ends |
| BlockCharacter.StepTakes | Sources/SwiftyTIV/BlockCharacter.swift:161-174 | an entry whose better distance is strictly below the best so far takes over, inverted exactly when its complement is strictly nearer |
| BlockCharacter.StepKeeps | Sources/SwiftyTIV/BlockCharacter.swift:161-174 | an entry no nearer than the best so far changes nothing |
| BlockCharacter.FirstMinimum | Sources/SwiftyTIV/BlockCharacter.swift:161-175 | the chosen index holds the smallest score, and every earlier index scores strictly more |
| BlockCharacter.MatchIsFirstMinimum | Sources/SwiftyTIV/BlockCharacter.swift:156-175 | the match loop ends on the first entry with the smallest `min(plain, inverted)` distance, with that distance, that entry's glyph, and inversion exactly when the complement is strictly nearer |
| BlockCharacter.BestMatchIsWinner | Sources/SwiftyTIV/BlockCharacter.swift:156-175 | over the whole table the loop settles on the first minimum, and its distance is between 0 and 16 |
| BlockCharacter.BestDiffAtMost16 | Sources/SwiftyTIV/BlockCharacter.swift:156-175 | the best distance is never above 16 |
| BlockCharacter.TableRepeats | Sources/SwiftyTIV/BlockCharacter.swift:46-76 | entries 30 and 50 repeat entry 28's bitmap; entries 44 and 45 repeat entries 34 and 35 |
| BlockCharacter.DuplicatesNeverChosen | Sources/SwiftyTIV/BlockCharacter.swift:161-175 | U+257B, U+25AA, U+23A2 and U+23A5, which repeat an earlier bitmap, are never the entry chosen |
| BlockCharacter.ShadeIndex | Sources/SwiftyTIV/BlockCharacter.swift:179-181 | `min(4, fgCount * 5 / 32)` indexes the five-step shade ramp `ShadeChars` |
| BlockCharacter.Quantize | Sources/SwiftyTIV/BlockCharacter.swift:79-194 | the quantiser as a function of the window's 32 pixels, composing the phases; `NewBlockCharacter` is proved equal to it, and `QuantizeChoosesWinner` and `QuantizeColorsAreMeans` state what it returns |
| BlockCharacter.QuantizeChoosesWinner | Sources/SwiftyTIV/BlockCharacter.swift:177-193 | above 10 bits the glyph is the shade for the foreground share with the colours in place; otherwise it is the winning glyph, with the colours swapped exactly when its complement won |
| BlockCharacter.LowerHalfMatch | Sources/SwiftyTIV/BlockCharacter.swift:15 | the pattern `0x0000ffff` matches the lower half block U+2584 at distance 0, uninverted |
| BlockCharacter.UniformBlock | Sources/SwiftyTIV/BlockCharacter.swift:79-194 | a block of 32 equal pixels gives the no-break space, a black foreground and the pixel's colour as background |
| BlockCharacter.HalfBlackWhite | Sources/SwiftyTIV/BlockCharacter.swift:79-194 | a black top half over a white bottom half packs to `0x0000ffff` and gives U+2584, white on black |
| BlockCharacter.AllWhiteBlock | Tests/SwiftyTIVTests/SwiftyTIVTests.swift:16-28 | the source's test block (128 bytes of 255, scan width 16) is read in bounds and gives U+00A0 with byte colours, black on white |
| BlockCharacter.MatchGlyph | Sources/SwiftyTIV/BlockCharacter.swift:156-175 | the table loop leaves the best distance, glyph and inversion of the whole table |
| BlockCharacter.TryGlyph | Sources/SwiftyTIV/BlockCharacter.swift:161-174 | one entry: the bitmap is tried first, then its complement, each taking over only when strictly nearer |
| BlockCharacter.NewBlockCharacter | Sources/SwiftyTIV/BlockCharacter.swift:79-194 | the initialiser produces exactly the quantisation of the window it reads |
| ImageData.BlockCount | Sources/SwiftyTIV/ImageData.swift:119 | the number of whole blocks of `size` in `extent`, never negative; `StrideVisits` shows the stride visits exactly these |
| ImageData.StrideVisits | Sources/SwiftyTIV/ImageData.swift:119 | `stride(from: 0, to: extent - (size - 1), by: size)` visits block `i` exactly when `i < extent / size` (none when `extent < size`) |
| ImageData.BlockStart | Sources/SwiftyTIV/ImageData.swift:124 | `y * scanWidth + x * bytesPerPixel` for the block at block row `r`, block column `c` |
| ImageData.FullBufferRenderable | Sources/SwiftyTIV/ImageData.swift:117-125 | with exactly `width * height * 4` bytes, every read of every block visited stays in the buffer |
| ImageData.CellOf | Sources/SwiftyTIV/ImageData.swift:130-150 | both codes of a block are control sequences `ESC [` ... `m` |
| ImageData.CellCodesDecode | Sources/SwiftyTIV/ImageData.swift:143-150 | for every colour mode, the foreground code has role background exactly when `.background` is in the mode and the background code always does; both carry their colour's palette index under `.mode256` and the colour itself otherwise |
| ImageData.GrayCellCodesDecode | Sources/SwiftyTIV/ImageData.swift:130-141 | in grayscale, for every colour mode, each code carries the clamped luma of its colour on all three channels (or that gray's palette index under `.mode256`), with the same roles |
| ImageData.BackgroundModeOverridesRole | Sources/SwiftyTIV/ImageData.swift:139-150 | with `.background` in the colour mode, the foreground code parses as a background code |
| ImageData.EmitNext | Sources/SwiftyTIV/ImageData.swift:153-162 | one cell of the row loop: each code appended when it differs from the tracker, then the glyph; the trackers take the cell's codes |
| ImageData.EmitUpTo | Sources/SwiftyTIV/ImageData.swift:120-163 | the row loop after `n` cells from empty trackers; `EmitUpToPieces` equates it with the stateless pieces |
| ImageData.RowText | Sources/SwiftyTIV/ImageData.swift:120-163 | a block row's text: the row loop over all its cells |
| ImageData.EmitUpToPieces | Sources/SwiftyTIV/ImageData.swift:120-162 | the row loop's text is each cell's glyph preceded by the codes that differ from the previous cell's (both codes for the first cell), and the trackers hold the last cell's codes |
| ImageData.Frame | Sources/SwiftyTIV/ImageData.swift:119-166 | the row texts, each followed by `ANSIColor.reset` and a newline, top to bottom; `FrameEnding` and `FrameStep` state its shape |
| ImageData.RowTexts | Sources/SwiftyTIV/ImageData.swift:119-165 | one text per block row, `height / 8` of them, each the row text of that row's cells |
| ImageData.Rendered | Sources/SwiftyTIV/ImageData.swift:110-169 | the specification of `render`: the frame of the row texts; `Render` is proved equal to it |
| ImageData.FrameEnding | Sources/SwiftyTIV/ImageData.swift:165 | no rows give empty output; otherwise the output ends with `ESC[0m` and a newline |
| ImageData.FrameStep | Sources/SwiftyTIV/ImageData.swift:165 | each row adds its text, the reset and a newline to the output |
| ImageData.RenderedEnding | Sources/SwiftyTIV/ImageData.swift:119-165 | an image under 8 pixels tall renders as nothing; otherwise the output ends with `ESC[0m` and a newline |
| ImageData.RowLayout | Sources/SwiftyTIV/ImageData.swift:120-162 | a block row holds `width / 4` cells, its text is their pieces, and it starts with the first cell's foreground code, background code and glyph |
| ImageData.RenderTestOutput | Tests/SwiftyTIVTests/SwiftyTIVTests.swift:68-81 | a full-size image at least 8 pixels tall renders to text that contains ESC and ends with `ESC[0m` and a newline |
| ImageData.RenderBlock | Sources/SwiftyTIV/ImageData.swift:124-150 | the block at `y * scanWidth + x * 4` yields the codes and glyph of that block's cell |
| ImageData.EmitCell | Sources/SwiftyTIV/ImageData.swift:153-162 | a code is appended and remembered only when it differs from the last one emitted, then the glyph is appended |
| ImageData.RenderRow | Sources/SwiftyTIV/ImageData.swift:120-163 | the column loop, with trackers reset to empty, produces the row text of the block row's cells |
| ImageData.Render | Sources/SwiftyTIV/ImageData.swift:110-169 | the output is the frame of all block rows: each row's text followed by `ESC[0m` and a newline, top to bottom |

## Left out

- Image loading and decoding are not part of this model. This covers `init(cgImage:)`, `init(nsImage:)`, `init(uiImage:)`, `load(from:)` and `ImageLoadError`. They are platform image APIs and file I/O.
- `scaled(maxWidth:maxHeight:)` and `scaled(width:height:)` are not modelled. They compute source coordinates from `Double` ratios.
- Sources/SwiftyTIV/SwiftyTIV.swift, the command-line tool, example_usage.swift and Package.swift are not part of this model. They wrap load, scale and render, or parse arguments and print.
- The `Float` gray value, the `Double` weighted errors and the `Double` luma are parameters (`FloatOps`), not IEEE arithmetic. Contracts that depend on them hold for every choice of these functions. The concrete palette index for given channels is therefore not computed.
- Glyphs are Unicode code points (`char`). Swift `Character` grapheme handling is not modelled.
- Swift `Int` overflow traps are not modelled, because integers are unbounded. Offsets, sums and `Int.max` are unaffected for buffers Swift can index.
- BlockCharacter.NewBlockCharacter: requires every byte it reads to be inside the buffer. Where Swift would trap on an out-of-range index, the model has no behaviour.
- ImageData.Render: requires every block it visits to be readable (`Renderable`). `FullBufferRenderable` shows that a buffer of exactly `width * height * 4` bytes meets this. Shorter buffers, on which Swift traps, are not modelled.
- ImageData.Render: each block row's text is built by `RenderRow` and then appended to the output. Swift appends to one string throughout; the output is the same.
- Swift's value-type arrays (`minValues`, `maxValues`, `fgColor`, `bgColor`) are local sequences that are reassigned. No array is shared, so there is no aliasing to model.
- BlockCharacter.DuplicatesNeverChosen: states the rule for the four repeated table entries by index. It does not state it for every conceivable table.
