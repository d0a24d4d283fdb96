/**
 * The block quantiser: one 4x8 window of an RGBA buffer becomes one
 * glyph with a foreground and a background colour.
 *
 * The window is split on the colour channel with the widest range, each
 * pixel above the midpoint of that range is a foreground pixel, the two
 * clusters are averaged, and the glyph whose bitmap (or its complement)
 * is nearest to the resulting 32-bit pattern is chosen; a poor match
 * falls back to a shade character.
 *
 * The model is layered: `Window` reads the 32 pixels, the
 * functions below describe each phase of the source's loops as a fold
 * (`MinUpTo`, `WidestUpTo`, `Classify`, `MatchUpTo`), lemmas relate each
 * fold to an independent characterisation, and `Quantize` composes them.
 * `NewBlockCharacter` is the imperative initialiser, proved equal to
 * `Quantize` of its window.
 */
module BlockCharacter {
  import opened Bits

  /** An element of the RGBA buffer (Swift `UInt8`). */
  type Byte = x: int | 0 <= x < 256

  /** The colour channels of one pixel; its alpha byte is never read. */
  datatype Pixel = Pixel(red: Byte, green: Byte, blue: Byte)

  /** Channel `i` of a pixel: 0 red, 1 green, 2 blue. */
  function Channel(p: Pixel, i: int): Byte
    requires 0 <= i < 3
  {
    if i == 0 then p.red else if i == 1 then p.green else p.blue
  }

  /** A `(red:green:blue:)` colour tuple. */
  datatype Rgb = Rgb(red: int, green: int, blue: int)

  /** One entry of the glyph table: the pixels a glyph covers, MSB first. */
  datatype Glyph = Glyph(bitmap: bv32, character: char)

  datatype BlockCharacter = BlockCharacter(character: char, foregroundColor: Rgb, backgroundColor: Rgb)

  /** The glyph table, in the order it is searched. */
  const Bitmaps: seq<Glyph> := BlockGraphics + LineDrawing + MiscTechnical + GeometricShapes

  /** The no-break space and the block elements (indices 0-15). */
  const BlockGraphics: seq<Glyph> := [
    Glyph(0x00000000, '\U{00a0}'),  // no-break space
    Glyph(0x0000000f, '\U{2581}'),
    Glyph(0x000000ff, '\U{2582}'),
    Glyph(0x00000fff, '\U{2583}'),
    Glyph(0x0000ffff, '\U{2584}'),  // lower half
    Glyph(0x000fffff, '\U{2585}'),
    Glyph(0x00ffffff, '\U{2586}'),
    Glyph(0x0fffffff, '\U{2587}'),
    Glyph(0xeeeeeeee, '\U{258a}'),
    Glyph(0xcccccccc, '\U{258c}'),
    Glyph(0x88888888, '\U{258e}'),
    Glyph(0x0000cccc, '\U{2596}'),
    Glyph(0x00003333, '\U{2597}'),
    Glyph(0xcccc0000, '\U{2598}'),
    Glyph(0xcccc3333, '\U{259a}'),
    Glyph(0x33330000, '\U{259d}')
  ]

  /** The box-drawing subset (indices 16-43). */
  const LineDrawing: seq<Glyph> := [
    Glyph(0x000ff000, '\U{2501}'),
    Glyph(0x66666666, '\U{2503}'),
    Glyph(0x00077666, '\U{250f}'),
    Glyph(0x000ee666, '\U{2513}'),
    Glyph(0x66677000, '\U{2517}'),
    Glyph(0x666ee000, '\U{251b}'),
    Glyph(0x66677666, '\U{2523}'),
    Glyph(0x666ee666, '\U{252b}'),
    Glyph(0x000ff666, '\U{2533}'),
    Glyph(0x666ff000, '\U{253b}'),
    Glyph(0x666ff666, '\U{254b}'),
    Glyph(0x000cc000, '\U{2578}'),
    Glyph(0x00066000, '\U{2579}'),  // index 28
    Glyph(0x00033000, '\U{257a}'),
    Glyph(0x00066000, '\U{257b}'),  // same bitmap as index 28
    Glyph(0x06600660, '\U{254f}'),
    Glyph(0x000f0000, '\U{2500}'),
    Glyph(0x0000f000, '\U{2500}'),
    Glyph(0x44444444, '\U{2502}'),  // index 34
    Glyph(0x22222222, '\U{2502}'),  // index 35
    Glyph(0x000e0000, '\U{2574}'),
    Glyph(0x0000e000, '\U{2574}'),
    Glyph(0x44440000, '\U{2575}'),
    Glyph(0x22220000, '\U{2575}'),
    Glyph(0x00030000, '\U{2576}'),
    Glyph(0x00003000, '\U{2576}'),
    Glyph(0x00004444, '\U{2577}'),
    Glyph(0x00002222, '\U{2577}')
  ]

  /** Miscellaneous technical glyphs (indices 44-49). */
  const MiscTechnical: seq<Glyph> := [
    Glyph(0x44444444, '\U{23a2}'),  // same bitmap as index 34
    Glyph(0x22222222, '\U{23a5}'),  // same bitmap as index 35
    Glyph(0x0f000000, '\U{23ba}'),
    Glyph(0x00f00000, '\U{23bb}'),
    Glyph(0x00000f00, '\U{23bc}'),
    Glyph(0x000000f0, '\U{23bd}')
  ]

  /** Geometric shapes (index 50). */
  const GeometricShapes: seq<Glyph> := [
    Glyph(0x00066000, '\U{25aa}')  // same bitmap as index 28
  ]

  /** The shade ramp used when no glyph matches well: empty to full. */
  const ShadeChars: seq<char> := [' ', '\U{2591}', '\U{2592}', '\U{2593}', '\U{2588}']

  /** Swift's `Int.max` on a 64-bit platform: the initial best distance. */
  const IntMax: int := 0x7fff_ffff_ffff_ffff

  /** Swift's `min`. */
  function Min(a: int, b: int): int
  {
    if b < a then b else a
  }

  /** Swift's `max`. */
  function Max(a: int, b: int): int
  {
    if b >= a then b else a
  }

  // -----------------------------------------------------------------------
  // Reading the window.

  /**
   * Byte offset of pixel `k` (row-major, 4 pixels per row) of the window
   * starting at `start` in a buffer with `scanWidth` bytes per row.
   */
  function Offset(start: int, scanWidth: int, k: int): int
  {
    start + (k / 4) * scanWidth + (k % 4) * 4
  }

  /** Every colour byte the quantiser reads lies inside a buffer of `n` bytes. */
  predicate BlockInBounds(n: int, start: int, scanWidth: int)
  {
    forall k :: 0 <= k < 32 ==> 0 <= Offset(start, scanWidth, k) && Offset(start, scanWidth, k) + 2 < n
  }

  lemma OffsetAt(start: int, scanWidth: int, row: int, col: int)
    requires 0 <= row && 0 <= col < 4
    ensures Offset(start, scanWidth, 4 * row + col) == start + row * scanWidth + 4 * col
  {
    assert (4 * row + col) / 4 == row;
    assert (4 * row + col) % 4 == col;
  }

  /** The 32 pixels of the window, in the order the source visits them. */
  function Window(pixelData: seq<Byte>, start: int, scanWidth: int): (px: seq<Pixel>)
    requires BlockInBounds(|pixelData|, start, scanWidth)
    ensures |px| == 32
    ensures forall k, i :: 0 <= k < 32 && 0 <= i < 3 ==>
      Channel(px[k], i) == pixelData[Offset(start, scanWidth, k) + i]
  {
    seq(32, k requires 0 <= k < 32 =>
      var o := Offset(start, scanWidth, k);
      Pixel(pixelData[o], pixelData[o + 1], pixelData[o + 2]))
  }

  // -----------------------------------------------------------------------
  // Phase 1: per-channel minimum and maximum.

  /** Channel `i` minimum over the first `k` pixels, starting from 255. */
  function MinUpTo(px: seq<Pixel>, k: nat, i: int): int
    requires k <= |px| && 0 <= i < 3
  {
    if k == 0 then 255 else Min(MinUpTo(px, k - 1, i), Channel(px[k - 1], i))
  }

  /** Channel `i` maximum over the first `k` pixels, starting from 0. */
  function MaxUpTo(px: seq<Pixel>, k: nat, i: int): int
    requires k <= |px| && 0 <= i < 3
  {
    if k == 0 then 0 else Max(MaxUpTo(px, k - 1, i), Channel(px[k - 1], i))
  }

  /** The scanned minimum and maximum bound every value seen and stay bytes. */
  lemma {:induction false} ScanBounds(px: seq<Pixel>, k: nat, i: int)
    requires k <= |px| && 0 <= i < 3
    ensures 0 <= MinUpTo(px, k, i) <= 255 && 0 <= MaxUpTo(px, k, i) <= 255
    ensures forall j :: 0 <= j < k ==> MinUpTo(px, k, i) <= Channel(px[j], i) <= MaxUpTo(px, k, i)
    ensures k > 0 ==> exists j :: 0 <= j < k && MinUpTo(px, k, i) == Channel(px[j], i)
    ensures k > 0 ==> exists j :: 0 <= j < k && MaxUpTo(px, k, i) == Channel(px[j], i)
  {
    if k > 0 {
      ScanBounds(px, k - 1, i);
    }
  }

  function Mins(px: seq<Pixel>): (m: seq<int>)
    requires |px| == 32
    ensures |m| == 3
  {
    [MinUpTo(px, 32, 0), MinUpTo(px, 32, 1), MinUpTo(px, 32, 2)]
  }

  function Maxs(px: seq<Pixel>): (m: seq<int>)
    requires |px| == 32
    ensures |m| == 3
  {
    [MaxUpTo(px, 32, 0), MaxUpTo(px, 32, 1), MaxUpTo(px, 32, 2)]
  }

  // -----------------------------------------------------------------------
  // Phase 2: the split channel.

  /** The channel to split on and its range. */
  datatype Split = Split(channel: int, range: int)

  /** The split after examining the first `n` channels (strict `>` against the best so far). */
  function WidestUpTo(minValues: seq<int>, maxValues: seq<int>, n: nat): (s: Split)
    requires |minValues| == 3 && |maxValues| == 3 && n <= 3
    ensures 0 <= s.channel < 3
  {
    if n == 0 then Split(0, 0)
    else
      var s := WidestUpTo(minValues, maxValues, n - 1);
      var range := maxValues[n - 1] - minValues[n - 1];
      if range > s.range then Split(n - 1, range) else s
  }

  /**
   * The split channel is the lowest-numbered one with the greatest
   * positive range; when no range is positive it is channel 0 with range 0.
   */
  lemma {:induction false} WidestIsFirstWidest(minValues: seq<int>, maxValues: seq<int>, n: nat)
    requires |minValues| == 3 && |maxValues| == 3 && n <= 3
    ensures var s := WidestUpTo(minValues, maxValues, n);
      s.range >= 0 &&
      (forall j :: 0 <= j < n ==> maxValues[j] - minValues[j] <= s.range) &&
      (s.range > 0 ==>
        s.channel < n && maxValues[s.channel] - minValues[s.channel] == s.range &&
        forall j :: 0 <= j < s.channel ==> maxValues[j] - minValues[j] < s.range) &&
      (s.range == 0 ==> s.channel == 0)
  {
    if n > 0 {
      WidestIsFirstWidest(minValues, maxValues, n - 1);
    }
  }

  function SplitOf(px: seq<Pixel>): (s: Split)
    requires |px| == 32
    ensures 0 <= s.channel < 3
  {
    WidestUpTo(Mins(px), Maxs(px), 3)
  }

  /** `minValues[splitIndex] + bestSplit / 2`. */
  function SplitValue(px: seq<Pixel>): int
    requires |px| == 32
  {
    var s := SplitOf(px);
    Mins(px)[s.channel] + s.range / 2
  }

  /**
   * The split channel's range is exactly its max minus min when positive,
   * and the threshold lies between that channel's minimum and maximum.
   */
  lemma SplitValueInRange(px: seq<Pixel>)
    requires |px| == 32
    ensures var s := SplitOf(px);
      MinUpTo(px, 32, s.channel) <= SplitValue(px) <= MaxUpTo(px, 32, s.channel)
  {
    var s := SplitOf(px);
    WidestIsFirstWidest(Mins(px), Maxs(px), 3);
    ScanBounds(px, 32, s.channel);
    assert MinUpTo(px, 32, s.channel) <= Channel(px[0], s.channel) <= MaxUpTo(px, 32, s.channel);
  }

  // -----------------------------------------------------------------------
  // Phase 3: the pattern and the two clusters.

  /** The state of the classification loop. */
  datatype Tally = Tally(bits: bv32, fgCount: int, bgCount: int, fgColor: seq<int>, bgColor: seq<int>)

  /** Adds a pixel's channels to a channel-sum triple. */
  function Accumulate(sum: seq<int>, p: Pixel): (r: seq<int>)
    requires |sum| == 3
    ensures |r| == 3
    ensures forall i :: 0 <= i < 3 ==> r[i] == sum[i] + Channel(p, i)
  {
    [sum[0] + p.red, sum[1] + p.green, sum[2] + p.blue]
  }

  /** One pixel of the classification loop. */
  function ClassifyStep(t: Tally, p: Pixel, channel: int, splitValue: int): (r: Tally)
    requires |t.fgColor| == 3 && |t.bgColor| == 3 && 0 <= channel < 3
    ensures |r.fgColor| == 3 && |r.bgColor| == 3
  {
    if Channel(p, channel) > splitValue then
      Tally(PushBit(t.bits, true), t.fgCount + 1, t.bgCount, Accumulate(t.fgColor, p), t.bgColor)
    else
      Tally(PushBit(t.bits, false), t.fgCount, t.bgCount + 1, t.fgColor, Accumulate(t.bgColor, p))
  }

  /** The classification loop after `k` pixels: shift in one flag per pixel, sum each cluster. */
  function Classify(px: seq<Pixel>, channel: int, splitValue: int, k: nat): (t: Tally)
    requires k <= |px| && 0 <= channel < 3
    ensures |t.fgColor| == 3 && |t.bgColor| == 3
    ensures 0 <= t.fgCount && 0 <= t.bgCount
  {
    if k == 0 then Tally(0, 0, 0, [0, 0, 0], [0, 0, 0])
    else ClassifyStep(Classify(px, channel, splitValue, k - 1), px[k - 1], channel, splitValue)
  }

  /** Which pixels lie strictly above the threshold on the split channel. */
  function ForegroundFlags(px: seq<Pixel>, channel: int, splitValue: int): (fs: seq<bool>)
    requires 0 <= channel < 3
    ensures |fs| == |px|
    ensures forall k :: 0 <= k < |px| ==> fs[k] == (Channel(px[k], channel) > splitValue)
  {
    seq(|px|, k requires 0 <= k < |px| => Channel(px[k], channel) > splitValue)
  }

  /**
   * The sum of channel `i` over those of the first `k` pixels whose flag
   * in `fs` is `want`: a cluster's channel total, read off its members.
   */
  function SumIf(px: seq<Pixel>, fs: seq<bool>, want: bool, i: int, k: nat): int
    requires k <= |px| && k <= |fs| && 0 <= i < 3
  {
    if k == 0 then 0
    else SumIf(px, fs, want, i, k - 1) + (if fs[k - 1] == want then Channel(px[k - 1], i) else 0)
  }

  /**
   * After `k` pixels each cluster's channel sum is the sum of that channel
   * over the cluster's own pixels.
   */
  lemma {:induction false} ClassifySums(px: seq<Pixel>, channel: int, splitValue: int, k: nat)
    requires k <= |px| && 0 <= channel < 3
    ensures var t := Classify(px, channel, splitValue, k);
      var fs := ForegroundFlags(px, channel, splitValue);
      forall i :: 0 <= i < 3 ==>
        t.fgColor[i] == SumIf(px, fs, true, i, k) && t.bgColor[i] == SumIf(px, fs, false, i, k)
  {
    if k > 0 {
      ClassifySums(px, channel, splitValue, k - 1);
    }
  }

  /**
   * After `k` pixels the pattern packs their foreground flags, the counts
   * split `k`, and each cluster's channel sum is the sum of that channel
   * over the cluster's own pixels, at most 255 per pixel counted.
   */
  lemma {:induction false} ClassifyAgrees(px: seq<Pixel>, channel: int, splitValue: int, k: nat)
    requires k <= |px| && 0 <= channel < 3
    ensures var t := Classify(px, channel, splitValue, k);
      var all := ForegroundFlags(px, channel, splitValue);
      var fs := all[..k];
      t.bits == Pack(fs) && t.fgCount == Count(fs) && t.fgCount + t.bgCount == k &&
      t.bgCount >= 0 && |t.fgColor| == 3 && |t.bgColor| == 3 &&
      (forall i :: 0 <= i < 3 ==>
        t.fgColor[i] == SumIf(px, all, true, i, k) && t.bgColor[i] == SumIf(px, all, false, i, k)) &&
      forall i :: 0 <= i < 3 ==>
        0 <= t.fgColor[i] <= 255 * t.fgCount && 0 <= t.bgColor[i] <= 255 * t.bgCount
  {
    ClassifySums(px, channel, splitValue, k);
    if k > 0 {
      ClassifyAgrees(px, channel, splitValue, k - 1);
      var fs := ForegroundFlags(px, channel, splitValue);
      assert fs[..k][..k - 1] == fs[..k - 1];
    }
  }

  /** The classification of the whole window. */
  function Pattern(px: seq<Pixel>): Tally
    requires |px| == 32
  {
    var s := SplitOf(px);
    Classify(px, s.channel, SplitValue(px), 32)
  }

  /** Whether each pixel of the window is a foreground pixel. */
  function ForegroundOf(px: seq<Pixel>): (fs: seq<bool>)
    requires |px| == 32
    ensures |fs| == 32
  {
    ForegroundFlags(px, SplitOf(px).channel, SplitValue(px))
  }

  /**
   * Bit `31 - k` of the pattern says whether pixel `k` is a foreground
   * pixel (so the first pixel read is bit 31), the two counts sum to 32,
   * and the popcount of the pattern is the foreground count.
   */
  lemma PatternBits(px: seq<Pixel>)
    requires |px| == 32
    ensures var t := Pattern(px);
      BitsOf(t.bits) == ForegroundOf(px) &&
      Bit(t.bits, 31) == (Channel(px[0], SplitOf(px).channel) > SplitValue(px)) &&
      t.fgCount + t.bgCount == 32 &&
      Popcount(t.bits) == t.fgCount
  {
    var fs := ForegroundOf(px);
    ClassifyAgrees(px, SplitOf(px).channel, SplitValue(px), 32);
    assert fs[..32] == fs;
    PackBits(fs);
    PopcountPack(fs);
    PackBit(fs, 31);
  }

  // -----------------------------------------------------------------------
  // Phase 4: cluster averages.

  /** `sum / count` when the cluster is non-empty; an empty cluster keeps its (zero) sum. */
  function Average(sum: int, count: int): int
  {
    if count > 0 then sum / count else sum
  }

  function ClusterColor(sum: seq<int>, count: int): Rgb
    requires |sum| == 3
  {
    Rgb(Average(sum[0], count), Average(sum[1], count), Average(sum[2], count))
  }

  predicate InByteRange(c: Rgb)
  {
    0 <= c.red <= 255 && 0 <= c.green <= 255 && 0 <= c.blue <= 255
  }

  lemma AverageOf(sum: int, count: int)
    requires 0 <= count && 0 <= sum <= 255 * count
    ensures 0 <= Average(sum, count) <= 255
    ensures count == 0 ==> Average(sum, count) == 0
    ensures count > 0 ==> Average(sum, count) * count <= sum < (Average(sum, count) + 1) * count
  {
    if count > 0 {
      var a := sum / count;
      assert a * count <= sum < (a + 1) * count;
    }
  }

  /**
   * A cluster's colour is the floor of its mean channel by channel, hence
   * a byte; an empty cluster gives black.
   */
  lemma ClusterColorOf(sum: seq<int>, count: int)
    requires |sum| == 3 && 0 <= count
    requires forall i :: 0 <= i < 3 ==> 0 <= sum[i] <= 255 * count
    ensures var c := ClusterColor(sum, count);
      InByteRange(c) &&
      (count == 0 ==> c == Rgb(0, 0, 0)) &&
      (count > 0 ==>
        c.red * count <= sum[0] < (c.red + 1) * count &&
        c.green * count <= sum[1] < (c.green + 1) * count &&
        c.blue * count <= sum[2] < (c.blue + 1) * count)
  {
    AverageOf(sum[0], count);
    AverageOf(sum[1], count);
    AverageOf(sum[2], count);
  }

  /** Channel `i` of a colour tuple: 0 red, 1 green, 2 blue. */
  function RgbChannel(c: Rgb, i: int): int
    requires 0 <= i < 3
  {
    if i == 0 then c.red else if i == 1 then c.green else c.blue
  }

  /**
   * `c` is, channel by channel, the floor of the mean over the `n` pixels
   * whose flag in `fs` is `want`, and black when there are none.
   */
  ghost predicate IsClusterMean(c: Rgb, px: seq<Pixel>, fs: seq<bool>, want: bool, n: int)
    requires |px| == 32 && |fs| == 32
  {
    (n == 0 ==> c == Rgb(0, 0, 0)) &&
    (n > 0 ==> forall i :: 0 <= i < 3 ==>
      RgbChannel(c, i) * n <= SumIf(px, fs, want, i, 32) < (RgbChannel(c, i) + 1) * n)
  }

  /**
   * The foreground cluster holds the `Count` flagged pixels and the
   * background cluster the rest; each cluster's colour is the floor of
   * the mean of its own pixels.
   */
  lemma ClusterMeans(px: seq<Pixel>)
    requires |px| == 32
    ensures var t := Pattern(px);
      var fs := ForegroundOf(px);
      t.fgCount == Count(fs) && t.bgCount == 32 - Count(fs) &&
      IsClusterMean(ClusterColor(t.fgColor, t.fgCount), px, fs, true, t.fgCount) &&
      IsClusterMean(ClusterColor(t.bgColor, t.bgCount), px, fs, false, t.bgCount)
  {
    var t := Pattern(px);
    var fs := ForegroundOf(px);
    ClassifyAgrees(px, SplitOf(px).channel, SplitValue(px), 32);
    assert fs[..32] == fs;
    ClusterMeanOf(t.fgColor, t.fgCount, px, fs, true);
    ClusterMeanOf(t.bgColor, t.bgCount, px, fs, false);
  }

  /** A cluster whose sums are its members' channel sums is coloured by their floor mean. */
  lemma ClusterMeanOf(sum: seq<int>, count: int, px: seq<Pixel>, fs: seq<bool>, want: bool)
    requires |sum| == 3 && 0 <= count && |px| == 32 && |fs| == 32
    requires forall i :: 0 <= i < 3 ==> sum[i] == SumIf(px, fs, want, i, 32) && 0 <= sum[i] <= 255 * count
    ensures IsClusterMean(ClusterColor(sum, count), px, fs, want, count)
  {
    ClusterColorOf(sum, count);
  }

  // -----------------------------------------------------------------------
  // Phase 5: the glyph match.

  /** The state of the match loop: best distance, its glyph, and whether the complement won. */
  datatype Match = Match(diff: int, character: char, invert: bool)

  /** How far a pattern is from a table entry's bitmap and from that bitmap's complement. */
  datatype Distances = Distances(plain: int, inverted: int)

  /** `(bitmap ^ bits).nonzeroBitCount` and `(~bitmap ^ bits).nonzeroBitCount` for every entry. */
  function DistancesOf(table: seq<Glyph>, bits: bv32): (ds: seq<Distances>)
    ensures |ds| == |table|
  {
    seq(|table|, j requires 0 <= j < |table| => EntryDistances(table[j].bitmap, bits))
  }

  /** The distances of one entry. */
  function EntryDistances(bitmap: bv32, bits: bv32): Distances
  {
    Distances(Popcount(bitmap ^ bits), Popcount(!bitmap ^ bits))
  }

  /** The two distances of an entry are complementary: they sum to 32. */
  lemma EntryComplement(bitmap: bv32, bits: bv32)
    ensures var d := EntryDistances(bitmap, bits);
      0 <= d.plain && 0 <= d.inverted && d.plain + d.inverted == 32
  {
    DistanceComplement(bitmap, bits);
  }

  lemma DistancesComplement(table: seq<Glyph>, bits: bv32)
    ensures var ds := DistancesOf(table, bits);
      forall j :: 0 <= j < |ds| ==> 0 <= ds[j].plain && 0 <= ds[j].inverted && ds[j].plain + ds[j].inverted == 32
  {
    var ds := DistancesOf(table, bits);
    forall j | 0 <= j < |ds|
      ensures 0 <= ds[j].plain && 0 <= ds[j].inverted && ds[j].plain + ds[j].inverted == 32
    {
      EntryComplement(table[j].bitmap, bits);
    }
  }

  /**
   * One entry of the match loop: the bitmap is tried first, then its
   * complement, each taking over only when strictly nearer.
   */
  function MatchStep(m: Match, d: Distances, character: char): Match
  {
    var m1 := if d.plain < m.diff then Match(d.plain, character, false) else m;
    if d.inverted < m1.diff then Match(d.inverted, character, true) else m1
  }

  /** The match loop after the first `n` table entries. */
  function MatchUpTo(table: seq<Glyph>, ds: seq<Distances>, n: nat): Match
    requires n <= |table| == |ds|
  {
    if n == 0 then Match(IntMax, ' ', false)
    else MatchStep(MatchUpTo(table, ds, n - 1), ds[n - 1], table[n - 1].character)
  }

  /** How far an entry is from the pattern when it may be inverted. */
  function Score(d: Distances): int
  {
    Min(d.plain, d.inverted)
  }

  /** Whether the complement is strictly nearer than the bitmap. */
  predicate Inverted(d: Distances)
  {
    d.inverted < d.plain
  }

  function Scores(ds: seq<Distances>): (s: seq<int>)
    ensures |s| == |ds|
    ensures forall j :: 0 <= j < |ds| ==> s[j] == Score(ds[j])
  {
    seq(|ds|, j requires 0 <= j < |ds| => Score(ds[j]))
  }

  /** The first index holding the minimum of `s`. */
  function FirstMinimum(s: seq<int>): (w: nat)
    requires |s| > 0
    ensures w < |s|
    ensures forall j :: 0 <= j < |s| ==> s[w] <= s[j]
    ensures forall j :: 0 <= j < w ==> s[w] < s[j]
  {
    if |s| == 1 then 0
    else
      var v := FirstMinimum(s[..|s| - 1]);
      if s[|s| - 1] < s[v] then |s| - 1 else v
  }

  /** An entry scoring no better than the best so far leaves the match unchanged. */
  lemma StepKeeps(m: Match, d: Distances, character: char)
    requires m.diff <= Score(d)
    ensures MatchStep(m, d, character) == m
  {
  }

  /** An entry scoring strictly better takes over, inverted when its complement is nearer. */
  lemma StepTakes(m: Match, d: Distances, character: char)
    requires Score(d) < m.diff
    ensures MatchStep(m, d, character) == Match(Score(d), character, Inverted(d))
  {
  }

  /**
   * The match loop ends on the first entry with the smallest score; its
   * distance is that score and it is inverted exactly when the complement
   * is strictly nearer than the bitmap.
   */
  lemma {:induction false} MatchIsFirstMinimum(table: seq<Glyph>, ds: seq<Distances>, n: nat)
    requires 1 <= n <= |table| == |ds|
    requires forall j :: 0 <= j < |ds| ==> ds[j].plain < IntMax
    ensures var w := FirstMinimum(Scores(ds[..n]));
      MatchUpTo(table, ds, n) == Match(Score(ds[w]), table[w].character, Inverted(ds[w]))
  {
    if n == 1 {
      StepTakes(Match(IntMax, ' ', false), ds[0], table[0].character);
    } else {
      MatchIsFirstMinimum(table, ds, n - 1);
      MatchNextEntry(table, ds, n);
    }
  }

  /** The inductive step: the claim for the first `n - 1` entries carries over to `n`. */
  lemma MatchNextEntry(table: seq<Glyph>, ds: seq<Distances>, n: nat)
    requires 1 < n <= |table| == |ds|
    requires var v := FirstMinimum(Scores(ds[..n - 1]));
      MatchUpTo(table, ds, n - 1) == Match(Score(ds[v]), table[v].character, Inverted(ds[v]))
    ensures var w := FirstMinimum(Scores(ds[..n]));
      MatchUpTo(table, ds, n) == Match(Score(ds[w]), table[w].character, Inverted(ds[w]))
  {
    ScoresPrefix(ds, n);
    var s := Scores(ds[..n]);
    var v := FirstMinimum(Scores(ds[..n - 1]));
    assert FirstMinimum(s) == if s[n - 1] < s[v] then n - 1 else v;
    assert s[v] == Score(ds[v]);
    MatchOneMore(MatchUpTo(table, ds, n - 1), ds[v], ds[n - 1], table[v].character, table[n - 1].character);
  }

  /** The scores of the first `n` entries extend those of the first `n - 1`. */
  lemma ScoresPrefix(ds: seq<Distances>, n: nat)
    requires 1 < n <= |ds|
    ensures var s := Scores(ds[..n]);
      s[..n - 1] == Scores(ds[..n - 1]) && s[n - 1] == Score(ds[n - 1])
  {
    assert ds[..n][..n - 1] == ds[..n - 1];
  }

  /** One more entry: it takes over exactly when it scores strictly better than the best so far. */
  lemma MatchOneMore(m: Match, best: Distances, d: Distances, bestChar: char, character: char)
    requires m == Match(Score(best), bestChar, Inverted(best))
    ensures Score(d) < Score(best) ==> MatchStep(m, d, character) == Match(Score(d), character, Inverted(d))
    ensures Score(best) <= Score(d) ==> MatchStep(m, d, character) == m
  {
    if Score(d) < Score(best) {
      StepTakes(m, d, character);
    } else {
      StepKeeps(m, d, character);
    }
  }

  /** The result of matching a pattern against the whole table. */
  function BestMatch(bits: bv32): Match
  {
    MatchUpTo(Bitmaps, DistancesOf(Bitmaps, bits), |Bitmaps|)
  }

  /** The table entry the match settles on. */
  function Winner(bits: bv32): (w: nat)
    ensures w < |Bitmaps|
  {
    FirstMinimum(Scores(DistancesOf(Bitmaps, bits)))
  }

  lemma BestMatchIsWinner(bits: bv32)
    ensures var w := Winner(bits);
      var d := DistancesOf(Bitmaps, bits)[w];
      BestMatch(bits) == Match(Score(d), Bitmaps[w].character, Inverted(d)) &&
      0 <= Score(d) <= 16
  {
    var ds := DistancesOf(Bitmaps, bits);
    DistancesComplement(Bitmaps, bits);
    assert ds[..|ds|] == ds;
    MatchIsFirstMinimum(Bitmaps, ds, |Bitmaps|);
  }

  /** A bitmap or its complement is always within 16 bits, so the best distance is too. */
  lemma BestDiffAtMost16(bits: bv32)
    ensures 0 <= BestMatch(bits).diff <= 16
  {
    BestMatchIsWinner(bits);
  }

  /** Of two equal scores, the later one is never the first minimum. */
  lemma FirstMinimumSkipsRepeat(s: seq<int>, i: nat, j: nat)
    requires i < j < |s| && s[i] == s[j]
    ensures FirstMinimum(s) != j
  {
  }

  lemma TableRepeats()
    ensures Bitmaps[30].bitmap == Bitmaps[28].bitmap && Bitmaps[50].bitmap == Bitmaps[28].bitmap
    ensures Bitmaps[44].bitmap == Bitmaps[34].bitmap && Bitmaps[45].bitmap == Bitmaps[35].bitmap
  {
  }

  /** Neither the empty nor the full pattern appears among the entries of a group. */
  predicate NoUniformBitmap(group: seq<Glyph>)
  {
    forall j :: 0 <= j < |group| ==> group[j].bitmap != 0 && group[j].bitmap != 0xffff_ffff
  }

  /**
   * The table has 51 entries and starts with the no-break space on the
   * empty bitmap; no later entry's bitmap is empty or full, so entry 0 is
   * the only one a uniform pattern matches exactly, plainly or inverted.
   */
  lemma GlyphTable()
    ensures |Bitmaps| == 51 && Bitmaps[0] == Glyph(0, '\U{00a0}')
    ensures forall j :: 0 < j < |Bitmaps| ==> Bitmaps[j].bitmap != 0 && Bitmaps[j].bitmap != 0xffff_ffff
  {
    assert NoUniformBitmap(BlockGraphics[1..]);
    assert NoUniformBitmap(LineDrawing);
    assert NoUniformBitmap(MiscTechnical);
    assert NoUniformBitmap(GeometricShapes);
    forall j | 0 < j < |Bitmaps|
      ensures Bitmaps[j].bitmap != 0 && Bitmaps[j].bitmap != 0xffff_ffff
    {
      if j < 16 {
        assert Bitmaps[j] == BlockGraphics[1..][j - 1];
      } else if j < 44 {
        assert Bitmaps[j] == LineDrawing[j - 16];
      } else if j < 50 {
        assert Bitmaps[j] == MiscTechnical[j - 44];
      } else {
        assert Bitmaps[j] == GeometricShapes[j - 50];
      }
    }
  }

  /** An entry whose bitmap repeats an earlier entry's is never the one chosen. */
  lemma DuplicatesNeverChosen(bits: bv32)
    ensures Winner(bits) != 30 && Winner(bits) != 44 && Winner(bits) != 45 && Winner(bits) != 50
  {
    var ds := DistancesOf(Bitmaps, bits);
    var s := Scores(ds);
    TableRepeats();
    assert ds[30] == ds[28] && ds[50] == ds[28] && ds[44] == ds[34] && ds[45] == ds[35];
    FirstMinimumSkipsRepeat(s, 28, 30);
    FirstMinimumSkipsRepeat(s, 34, 44);
    FirstMinimumSkipsRepeat(s, 35, 45);
    FirstMinimumSkipsRepeat(s, 28, 50);
  }

  // -----------------------------------------------------------------------
  // The quantiser as a whole.

  /** `min(4, fgCount * 5 / 32)`: the shade nearest the foreground share. */
  function ShadeIndex(fgCount: int): (r: int)
    requires 0 <= fgCount
    ensures 0 <= r <= 4
  {
    Min(4, fgCount * 5 / 32)
  }

  /** The glyph and colours the initialiser produces for a window. */
  function Quantize(px: seq<Pixel>): BlockCharacter
    requires |px| == 32
  {
    var t := Pattern(px);
    var fg := ClusterColor(t.fgColor, t.fgCount);
    var bg := ClusterColor(t.bgColor, t.bgCount);
    var m := BestMatch(t.bits);
    if m.diff > 10 then BlockCharacter(ShadeChars[ShadeIndex(t.fgCount)], fg, bg)
    else if m.invert then BlockCharacter(m.character, bg, fg)
    else BlockCharacter(m.character, fg, bg)
  }

  /**
   * The glyph is the first nearest table entry, with the cluster colours
   * swapped when its complement is nearer; if even that entry is more
   * than 10 bits away, a shade by foreground share with the colours in
   * place.
   */
  lemma QuantizeChoosesWinner(px: seq<Pixel>)
    requires |px| == 32
    ensures var t := Pattern(px);
      var w := Winner(t.bits);
      var d := DistancesOf(Bitmaps, t.bits)[w];
      var fg := ClusterColor(t.fgColor, t.fgCount);
      var bg := ClusterColor(t.bgColor, t.bgCount);
      var b := Quantize(px);
      if Score(d) > 10 then
        b == BlockCharacter(ShadeChars[ShadeIndex(t.fgCount)], fg, bg)
      else if Inverted(d) then
        b == BlockCharacter(Bitmaps[w].character, bg, fg)
      else
        b == BlockCharacter(Bitmaps[w].character, fg, bg)
  {
    BestMatchIsWinner(Pattern(px).bits);
  }

  /** Both output colours are bytes. */
  lemma QuantizeColorsInRange(px: seq<Pixel>)
    requires |px| == 32
    ensures InByteRange(Quantize(px).foregroundColor) && InByteRange(Quantize(px).backgroundColor)
  {
    var t := Pattern(px);
    ClassifyAgrees(px, SplitOf(px).channel, SplitValue(px), 32);
    ClusterColorOf(t.fgColor, t.fgCount);
    ClusterColorOf(t.bgColor, t.bgCount);
  }

  /**
   * The output colours are the two cluster means: foreground on
   * background, swapped exactly when a glyph within 10 bits won through
   * its complement.
   */
  lemma QuantizeColorsAreMeans(px: seq<Pixel>)
    requires |px| == 32
    ensures var fs := ForegroundOf(px);
      var n := Count(fs);
      var b := Quantize(px);
      var m := BestMatch(Pattern(px).bits);
      if m.diff <= 10 && m.invert then
        IsClusterMean(b.foregroundColor, px, fs, false, 32 - n) && IsClusterMean(b.backgroundColor, px, fs, true, n)
      else
        IsClusterMean(b.foregroundColor, px, fs, true, n) && IsClusterMean(b.backgroundColor, px, fs, false, 32 - n)
  {
    var t := Pattern(px);
    var m := BestMatch(t.bits);
    var fg, bg := ClusterColor(t.fgColor, t.fgCount), ClusterColor(t.bgColor, t.bgCount);
    ClusterMeans(px);
    assert Quantize(px).foregroundColor == (if m.diff <= 10 && m.invert then bg else fg);
    assert Quantize(px).backgroundColor == (if m.diff <= 10 && m.invert then fg else bg);
  }

  // -----------------------------------------------------------------------
  // Worked cases.

  /** A block whose pixels are all `p`. */
  function Uniform(p: Pixel): (px: seq<Pixel>)
    ensures |px| == 32 && forall k :: 0 <= k < 32 ==> px[k] == p
  {
    seq(32, _ => p)
  }

  /** Scanning a uniform block finds `p`'s channels as both minimum and maximum. */
  lemma UniformScan(p: Pixel)
    ensures Mins(Uniform(p)) == Maxs(Uniform(p)) == [p.red, p.green, p.blue]
  {
    var px := Uniform(p);
    forall i | 0 <= i < 3
      ensures MinUpTo(px, 32, i) == Channel(p, i) == MaxUpTo(px, 32, i)
    {
      ScanBounds(px, 32, i);
    }
  }

  /** With nothing above the threshold every pixel goes to the background cluster. */
  lemma {:induction false} UniformClassify(p: Pixel, k: nat)
    requires k <= 32
    ensures Classify(Uniform(p), 0, p.red, k) == Tally(0, 0, k, [0, 0, 0], [k * p.red, k * p.green, k * p.blue])
  {
    if k > 0 {
      UniformClassify(p, k - 1);
      assert PushBit(0, false) == 0;
      assert (k - 1) * p.red + p.red == k * p.red;
      assert (k - 1) * p.green + p.green == k * p.green;
      assert (k - 1) * p.blue + p.blue == k * p.blue;
    }
  }

  /** A distance pair whose score is 0 at index 0 makes index 0 the first minimum. */
  lemma FirstMinimumAtZero(s: seq<int>)
    requires |s| > 0 && s[0] == 0
    requires forall j :: 0 <= j < |s| ==> 0 <= s[j]
    ensures FirstMinimum(s) == 0
  {
  }

  /** The empty pattern matches the no-break space exactly, uninverted. */
  lemma BlankMatch()
    ensures BestMatch(0) == Match(0, '\U{00a0}', false)
  {
    var ds := DistancesOf(Bitmaps, 0);
    DistancesComplement(Bitmaps, 0);
    assert Bitmaps[0].bitmap == 0;
    PopcountZero(0);
    assert ds[0] == EntryDistances(0, 0);
    assert ds[0].plain == 0;
    FirstMinimumAtZero(Scores(ds));
    BestMatchIsWinner(0);
  }

  /**
   * A uniform block has an empty pattern: the glyph is the no-break space,
   * the foreground cluster is empty (black) and the background is the
   * pixel's colour.
   */
  lemma UniformBlock(p: Pixel)
    ensures Quantize(Uniform(p)) == BlockCharacter('\U{00a0}', Rgb(0, 0, 0), Rgb(p.red, p.green, p.blue))
  {
    var px := Uniform(p);
    UniformScan(p);
    WidestIsFirstWidest(Mins(px), Maxs(px), 3);
    assert SplitOf(px) == Split(0, 0);
    assert SplitValue(px) == p.red;
    UniformClassify(p, 32);
    var t := Pattern(px);
    assert t == Tally(0, 0, 32, [0, 0, 0], [32 * p.red, 32 * p.green, 32 * p.blue]);
    assert ClusterColor(t.bgColor, 32) == Rgb(p.red, p.green, p.blue);
    BlankMatch();
  }

  /**
   * The source's block test: 128 bytes of 255 read with scan width 16 are a
   * uniform white block, so the glyph is the no-break space on white.
   */
  lemma AllWhiteBlock()
    ensures BlockInBounds(128, 0, 16)
    ensures Quantize(Window(seq(128, _ => 255), 0, 16)) ==
      BlockCharacter('\U{00a0}', Rgb(0, 0, 0), Rgb(255, 255, 255))
  {
    forall k | 0 <= k < 32
      ensures 0 <= Offset(0, 16, k) && Offset(0, 16, k) + 2 < 128
    {
      assert 0 <= k / 4 < 8 && 0 <= k % 4 < 4;
    }
    var white := Pixel(255, 255, 255);
    var data: seq<Byte> := seq(128, _ => 255);
    var px := Window(data, 0, 16);
    forall k | 0 <= k < 32
      ensures px[k] == white
    {
      assert Channel(px[k], 0) == 255 && Channel(px[k], 1) == 255 && Channel(px[k], 2) == 255;
    }
    assert px == Uniform(white);
    UniformBlock(white);
  }

  const Black: Pixel := Pixel(0, 0, 0)
  const White: Pixel := Pixel(255, 255, 255)

  /** Black top half (pixels 0-15), white bottom half (pixels 16-31). */
  function HalfBlock(): (px: seq<Pixel>)
    ensures |px| == 32 && forall k :: 0 <= k < 32 ==> px[k] == if k < 16 then Black else White
  {
    seq(32, k => if k < 16 then Black else White)
  }

  lemma {:induction false} HalfClassify(k: nat)
    requires k <= 32
    ensures var t := Classify(HalfBlock(), 0, 127, k);
      var f := if k < 16 then 0 else k - 16;
      t.fgCount == f && t.bgCount == k - f &&
      t.fgColor == [255 * f, 255 * f, 255 * f] && t.bgColor == [0, 0, 0]
  {
    if k > 0 {
      HalfClassify(k - 1);
      assert HalfBlock()[k - 1] == if k - 1 < 16 then Black else White;
    }
  }

  lemma LowHalfBits()
    ensures BitsOf(0x0000ffff) == seq(32, k => k >= 16)
  {
    forall j | 0 <= j < 32
      ensures BitsOf(0x0000ffff)[j] == (j >= 16)
    {
      var t := Shift(31 - j);
      assert t < 32;
      assert BitAt(0x0000ffff, t) == (t < 16);
    }
  }

  /** Against a lower-half pattern the first four entries score above 0 and the fifth scores 0. */
  lemma LowerHalfScores()
    ensures var s := Scores(DistancesOf(Bitmaps, 0x0000ffff));
      s[4] == 0 && s[0] > 0 && s[1] > 0 && s[2] > 0 && s[3] > 0
  {
    var bits: bv32 := 0x0000ffff;
    var ds := DistancesOf(Bitmaps, bits);
    assert Bitmaps[4].bitmap == bits;
    PopcountZero(0);
    assert ds[4] == EntryDistances(bits, bits);
    assert Bitmaps[0].bitmap == 0 && Bitmaps[1].bitmap == 0xf && Bitmaps[2].bitmap == 0xff && Bitmaps[3].bitmap == 0xfff;
    NoExactMatch(0, bits);
    NoExactMatch(0xf, bits);
    NoExactMatch(0xff, bits);
    NoExactMatch(0xfff, bits);
  }

  /** The first exact match wins: entry 4, the lower half block. */
  lemma LowerHalfWinner()
    ensures Winner(0x0000ffff) == 4
  {
    var s := Scores(DistancesOf(Bitmaps, 0x0000ffff));
    LowerHalfScores();
    DistancesComplement(Bitmaps, 0x0000ffff);
    assert forall j :: 0 <= j < |s| ==> s[j] >= 0;
  }

  /** The glyph table's lower half block matches a lower-half pattern exactly. */
  lemma LowerHalfMatch()
    ensures BestMatch(0x0000ffff) == Match(0, '\U{2584}', false)
  {
    LowerHalfWinner();
    LowerHalfScores();
    BestMatchIsWinner(0x0000ffff);
    assert Bitmaps[4] == Glyph(0x0000ffff, '\U{2584}');
  }

  /** A bitmap that differs from the pattern and from its complement scores above 0. */
  lemma NoExactMatch(bitmap: bv32, bits: bv32)
    requires bitmap != bits && !bitmap != bits
    ensures Score(EntryDistances(bitmap, bits)) > 0
  {
    PopcountZero(bitmap ^ bits);
    PopcountZero(!bitmap ^ bits);
  }

  lemma HalfSplit()
    ensures SplitOf(HalfBlock()) == Split(0, 255) && SplitValue(HalfBlock()) == 127
  {
    var px := HalfBlock();
    forall i | 0 <= i < 3
      ensures MinUpTo(px, 32, i) == 0 && MaxUpTo(px, 32, i) == 255
    {
      ScanBounds(px, 32, i);
      assert Channel(px[0], i) == 0 && Channel(px[16], i) == 255;
    }
    assert Mins(px) == [0, 0, 0] && Maxs(px) == [255, 255, 255];
    WidestIsFirstWidest(Mins(px), Maxs(px), 3);
  }

  lemma HalfForeground()
    ensures ForegroundOf(HalfBlock()) == seq(32, k => k >= 16)
  {
    HalfSplit();
  }

  lemma HalfPattern()
    ensures Pattern(HalfBlock()) == Tally(0x0000ffff, 16, 16, [4080, 4080, 4080], [0, 0, 0])
  {
    var px := HalfBlock();
    var t := Pattern(px);
    HalfSplit();
    assert t == Classify(px, 0, 127, 32);
    HalfClassify(32);
    assert t.fgCount == 16 && t.bgCount == 16 && t.fgColor == [4080, 4080, 4080] && t.bgColor == [0, 0, 0];
    PatternBits(px);
    HalfForeground();
    LowHalfBits();
    BitsOfInjective(t.bits, 0x0000ffff);
  }

  /**
   * A block with a black top half and a white bottom half splits on red at
   * 127, packs to `0x0000ffff` and is drawn as the lower half block, white
   * on black.
   */
  lemma HalfBlackWhite()
    ensures Pattern(HalfBlock()).bits == 0x0000ffff
    ensures Quantize(HalfBlock()) == BlockCharacter('\U{2584}', Rgb(255, 255, 255), Rgb(0, 0, 0))
  {
    HalfPattern();
    assert ClusterColor([4080, 4080, 4080], 16) == Rgb(255, 255, 255);
    assert ClusterColor([0, 0, 0], 16) == Rgb(0, 0, 0);
    LowerHalfMatch();
  }

  // -----------------------------------------------------------------------
  // The initialiser.

  /** The range scan: per-channel minimum and maximum over the window, row by row. */
  method ScanRanges(pixelData: seq<Byte>, startPosition: int, scanWidth: int)
    returns (minValues: seq<int>, maxValues: seq<int>)
    requires BlockInBounds(|pixelData|, startPosition, scanWidth)
    ensures minValues == Mins(Window(pixelData, startPosition, scanWidth))
    ensures maxValues == Maxs(Window(pixelData, startPosition, scanWidth))
  {
    ghost var px := Window(pixelData, startPosition, scanWidth);
    minValues := [255, 255, 255];
    maxValues := [0, 0, 0];
    var pos := startPosition;
    for row := 0 to 8
      invariant pos == startPosition + row * scanWidth
      invariant |minValues| == 3 && |maxValues| == 3
      invariant forall j :: 0 <= j < 3 ==>
        minValues[j] == MinUpTo(px, 4 * row, j) && maxValues[j] == MaxUpTo(px, 4 * row, j)
    {
      for col := 0 to 4
        invariant pos == startPosition + row * scanWidth + 4 * col
        invariant |minValues| == 3 && |maxValues| == 3
        invariant forall j :: 0 <= j < 3 ==>
          minValues[j] == MinUpTo(px, 4 * row + col, j) && maxValues[j] == MaxUpTo(px, 4 * row + col, j)
      {
        ghost var k := 4 * row + col;
        OffsetAt(startPosition, scanWidth, row, col);
        for i := 0 to 3
          invariant pos == Offset(startPosition, scanWidth, k) + i
          invariant |minValues| == 3 && |maxValues| == 3
          invariant forall j :: 0 <= j < i ==>
            minValues[j] == MinUpTo(px, k + 1, j) && maxValues[j] == MaxUpTo(px, k + 1, j)
          invariant forall j :: i <= j < 3 ==>
            minValues[j] == MinUpTo(px, k, j) && maxValues[j] == MaxUpTo(px, k, j)
        {
          var value := pixelData[pos];
          minValues := minValues[i := Min(minValues[i], value)];
          maxValues := maxValues[i := Max(maxValues[i], value)];
          pos := pos + 1;
        }
        pos := pos + 1;  // the alpha byte
      }
      pos := pos + scanWidth - 16;
      assert (row + 1) * scanWidth == row * scanWidth + scanWidth;
    }
  }

  /** The split-channel loop: the first channel with the strictly greatest range. */
  method WidestChannel(minValues: seq<int>, maxValues: seq<int>) returns (splitIndex: int, bestSplit: int)
    requires |minValues| == 3 && |maxValues| == 3
    ensures Split(splitIndex, bestSplit) == WidestUpTo(minValues, maxValues, 3)
  {
    splitIndex, bestSplit := 0, 0;
    for i := 0 to 3
      invariant Split(splitIndex, bestSplit) == WidestUpTo(minValues, maxValues, i)
    {
      var range := maxValues[i] - minValues[i];
      if range > bestSplit {
        bestSplit := range;
        splitIndex := i;
      }
    }
  }

  /** Adds the three colour bytes at `pos` to a channel-sum triple, channel by channel. */
  method AddPixel(sum: seq<int>, pixelData: seq<Byte>, pos: int) returns (r: seq<int>)
    requires |sum| == 3 && 0 <= pos && pos + 2 < |pixelData|
    ensures r == Accumulate(sum, Pixel(pixelData[pos], pixelData[pos + 1], pixelData[pos + 2]))
  {
    r := sum;
    for i := 0 to 3
      invariant |r| == 3
      invariant forall j :: 0 <= j < i ==> r[j] == sum[j] + pixelData[pos + j]
      invariant forall j :: i <= j < 3 ==> r[j] == sum[j]
    {
      r := r[i := r[i] + pixelData[pos + i]];
    }
  }

  /** The body of the classification loop for the pixel whose colour bytes start at `pos`. */
  method ClassifyPixel(bits: bv32, fgCount: int, bgCount: int, fgColor: seq<int>, bgColor: seq<int>,
                       pixelData: seq<Byte>, pos: int, splitIndex: int, splitValue: int)
    returns (bits': bv32, fgCount': int, bgCount': int, fgColor': seq<int>, bgColor': seq<int>)
    requires |fgColor| == 3 && |bgColor| == 3 && 0 <= splitIndex < 3
    requires 0 <= pos && pos + 2 < |pixelData|
    ensures Tally(bits', fgCount', bgCount', fgColor', bgColor') ==
      ClassifyStep(Tally(bits, fgCount, bgCount, fgColor, bgColor),
        Pixel(pixelData[pos], pixelData[pos + 1], pixelData[pos + 2]), splitIndex, splitValue)
  {
    bits', fgCount', bgCount', fgColor', bgColor' := bits << 1, fgCount, bgCount, fgColor, bgColor;
    ghost var p := Pixel(pixelData[pos], pixelData[pos + 1], pixelData[pos + 2]);
    var channelValue := pixelData[pos + splitIndex];
    var isForeground := channelValue > splitValue;
    assert channelValue == Channel(p, splitIndex);
    if isForeground {
      bits' := bits' | 1;
      PushBitShape(bits);
      fgCount' := fgCount' + 1;
      fgColor' := AddPixel(fgColor', pixelData, pos);
    } else {
      PushBitShape(bits);
      bgCount' := bgCount' + 1;
      bgColor' := AddPixel(bgColor', pixelData, pos);
    }
  }

  /** The classification loop: shift in one flag per pixel and sum each cluster. */
  method BuildPattern(pixelData: seq<Byte>, startPosition: int, scanWidth: int, splitIndex: int, splitValue: int)
    returns (bits: bv32, fgCount: int, bgCount: int, fgColor: seq<int>, bgColor: seq<int>)
    requires BlockInBounds(|pixelData|, startPosition, scanWidth) && 0 <= splitIndex < 3
    ensures Tally(bits, fgCount, bgCount, fgColor, bgColor) ==
      Classify(Window(pixelData, startPosition, scanWidth), splitIndex, splitValue, 32)
  {
    ghost var px := Window(pixelData, startPosition, scanWidth);
    bits, fgCount, bgCount := 0, 0, 0;
    fgColor, bgColor := [0, 0, 0], [0, 0, 0];
    var pos := startPosition;
    for row := 0 to 8
      invariant pos == startPosition + row * scanWidth
      invariant Tally(bits, fgCount, bgCount, fgColor, bgColor) == Classify(px, splitIndex, splitValue, 4 * row)
    {
      for col := 0 to 4
        invariant pos == startPosition + row * scanWidth + 4 * col
        invariant Tally(bits, fgCount, bgCount, fgColor, bgColor) == Classify(px, splitIndex, splitValue, 4 * row + col)
      {
        ghost var k := 4 * row + col;
        OffsetAt(startPosition, scanWidth, row, col);
        assert px[k] == Pixel(pixelData[pos], pixelData[pos + 1], pixelData[pos + 2]) by {
          assert Channel(px[k], 0) == pixelData[pos];
          assert Channel(px[k], 1) == pixelData[pos + 1];
          assert Channel(px[k], 2) == pixelData[pos + 2];
        }
        bits, fgCount, bgCount, fgColor, bgColor :=
          ClassifyPixel(bits, fgCount, bgCount, fgColor, bgColor, pixelData, pos, splitIndex, splitValue);
        pos := pos + 4;
      }
      pos := pos + scanWidth - 16;
      assert (row + 1) * scanWidth == row * scanWidth + scanWidth;
    }
  }

  /** The match loop over the glyph table. */
  method MatchGlyph(bits: bv32) returns (bestDiff: int, bestChar: char, shouldInvert: bool)
    ensures Match(bestDiff, bestChar, shouldInvert) == BestMatch(bits)
  {
    ghost var ds := DistancesOf(Bitmaps, bits);
    bestDiff, bestChar, shouldInvert := IntMax, ' ', false;
    for n := 0 to |Bitmaps|
      invariant Match(bestDiff, bestChar, shouldInvert) == MatchUpTo(Bitmaps, ds, n)
    {
      bestDiff, bestChar, shouldInvert := TryGlyph(bestDiff, bestChar, shouldInvert, Bitmaps[n].bitmap, Bitmaps[n].character, bits);
      assert ds[n] == EntryDistances(Bitmaps[n].bitmap, bits);
    }
  }

  /** The body of the match loop for one table entry. */
  method TryGlyph(bestDiff: int, bestChar: char, shouldInvert: bool, bitmap: bv32, character: char, bits: bv32)
    returns (bestDiff': int, bestChar': char, shouldInvert': bool)
    ensures Match(bestDiff', bestChar', shouldInvert') ==
      MatchStep(Match(bestDiff, bestChar, shouldInvert), EntryDistances(bitmap, bits), character)
  {
    bestDiff', bestChar', shouldInvert' := bestDiff, bestChar, shouldInvert;
    var diff := Popcount(bitmap ^ bits);
    if diff < bestDiff' {
      bestChar' := character;
      bestDiff' := diff;
      shouldInvert' := false;
    }
    var invertedDiff := Popcount(!bitmap ^ bits);
    if invertedDiff < bestDiff' {
      bestChar' := character;
      bestDiff' := invertedDiff;
      shouldInvert' := true;
    }
  }

  /**
   * `BlockCharacter(pixelData:startPosition:scanWidth:)`: quantises the
   * 4x8 window whose first colour byte is at `startPosition`.
   */
  method NewBlockCharacter(pixelData: seq<Byte>, startPosition: int, scanWidth: int) returns (block: BlockCharacter)
    requires BlockInBounds(|pixelData|, startPosition, scanWidth)
    ensures block == Quantize(Window(pixelData, startPosition, scanWidth))
  {
    ghost var px := Window(pixelData, startPosition, scanWidth);
    var minValues, maxValues := ScanRanges(pixelData, startPosition, scanWidth);
    var splitIndex, bestSplit := WidestChannel(minValues, maxValues);
    var splitValue := minValues[splitIndex] + bestSplit / 2;
    assert Split(splitIndex, bestSplit) == SplitOf(px) && splitValue == SplitValue(px);

    var bits, fgCount, bgCount, fgColor, bgColor := BuildPattern(pixelData, startPosition, scanWidth, splitIndex, splitValue);
    ghost var t := Tally(bits, fgCount, bgCount, fgColor, bgColor);
    assert t == Pattern(px);

    if bgCount > 0 {
      for i := 0 to 3
        invariant |bgColor| == 3
        invariant forall j :: 0 <= j < i ==> bgColor[j] == t.bgColor[j] / bgCount
        invariant forall j :: i <= j < 3 ==> bgColor[j] == t.bgColor[j]
      {
        bgColor := bgColor[i := bgColor[i] / bgCount];
      }
    }
    if fgCount > 0 {
      for i := 0 to 3
        invariant |fgColor| == 3
        invariant forall j :: 0 <= j < i ==> fgColor[j] == t.fgColor[j] / fgCount
        invariant forall j :: i <= j < 3 ==> fgColor[j] == t.fgColor[j]
      {
        fgColor := fgColor[i := fgColor[i] / fgCount];
      }
    }
    var fg := Rgb(fgColor[0], fgColor[1], fgColor[2]);
    var bg := Rgb(bgColor[0], bgColor[1], bgColor[2]);
    assert fg == ClusterColor(t.fgColor, t.fgCount) && bg == ClusterColor(t.bgColor, t.bgCount);

    var bestDiff, bestChar, shouldInvert := MatchGlyph(bits);
    if bestDiff > 10 {
      var shadeIndex := Min(4, fgCount * 5 / 32);
      bestChar := ShadeChars[shadeIndex];
      shouldInvert := false;
    }

    if shouldInvert {
      block := BlockCharacter(bestChar, bg, fg);
    } else {
      block := BlockCharacter(bestChar, fg, bg);
    }
  }
}
