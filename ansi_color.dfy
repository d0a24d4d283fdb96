/**
 * ANSI colour codes: SGR control sequences (ECMA-48 section 8.3.117)
 * selecting a foreground or background colour, with xterm's extended
 * colour parameters `38;2;r;g;b` / `48;2;r;g;b` (24-bit) and
 * `38;5;n` / `48;5;n` (256-colour palette).
 */
module ANSIColor {
  import opened Text
  import opened Wrappers
  import opened Floating

  /** The members of the `Flags` option set (raw values 1, 2, 4 and 8). */
  datatype Flag = Foreground | Background | Mode256 | Mode24Bit

  /** An option set is the set of flags it contains; `union` is `+`. */
  type Flags = set<Flag>

  const Esc: char := '\U{1B}'

  /** SGR 0: all attributes off. */
  const Reset: string := [Esc] + "[0m"

  /** The six intensity levels of the 6x6x6 colour cube (palette 16-231). */
  const ColorSteps: seq<int> := [0x00, 0x5f, 0x87, 0xaf, 0xd7, 0xff]

  /** The 24 levels of the grayscale ramp (palette 232-255). */
  const GrayscaleSteps: seq<int> := [
    0x08, 0x12, 0x1c, 0x26, 0x30, 0x3a, 0x44, 0x4e, 0x58, 0x62, 0x6c, 0x76,
    0x80, 0x8a, 0x94, 0x9e, 0xa8, 0xb2, 0xbc, 0xc6, 0xd0, 0xda, 0xe4, 0xee
  ]

  /** `min(max(value, lo), hi)`; the source always uses the defaults 0 and 255. */
  function Clamp(value: int, lo: int := 0, hi: int := 255): (r: int)
    ensures lo <= hi ==> lo <= r <= hi
    ensures lo <= value <= hi ==> r == value
    ensures value < lo && lo <= hi ==> r == lo
    ensures value > hi ==> r == hi
  {
    var atLeast := if value < lo then lo else value;
    if atLeast > hi then hi else atLeast
  }

  /** `options.firstIndex(where: { $0 >= value })`. */
  function FirstIndexAtLeast(options: seq<int>, value: int): (r: Option<nat>)
    ensures r.Some? ==> r.value < |options| && options[r.value] >= value
    ensures r.Some? ==> forall j :: 0 <= j < r.value ==> options[j] < value
    ensures r.None? ==> forall j :: 0 <= j < |options| ==> options[j] < value
  {
    if options == [] then None
    else if options[0] >= value then Some(0)
    else match FirstIndexAtLeast(options[1..], value)
      case None => None
      case Some(i) => Some(i + 1)
  }

  /**
   * The index of the step chosen for `value`: the last step when `value`
   * exceeds them all, otherwise the first step at least `value` or the one
   * before it, whichever is strictly closer (the later one on a tie).
   */
  function BestIndex(value: int, options: seq<int>): (r: int)
    ensures |options| == 0 ==> r == -1
    ensures |options| > 0 ==> 0 <= r < |options|
    ensures (forall j :: 0 <= j < |options| ==> options[j] < value) ==> r == |options| - 1
    ensures |options| > 0 && value <= options[0] ==> r == 0
  {
    match FirstIndexAtLeast(options, value)
    case None => |options| - 1
    case Some(index) =>
      if index == 0 then 0
      else
        var val0 := options[index - 1];
        var val1 := options[index];
        if value - val0 < val1 - value then index - 1 else index
  }

  function Square(value: int): (r: int)
    ensures r >= 0
    ensures r == 0 <==> value == 0
  {
    value * value
  }

  predicate StrictlyAscending(s: seq<int>)
  {
    forall i, j :: 0 <= i < j < |s| ==> s[i] < s[j]
  }

  function Distance(a: int, b: int): nat
  {
    if a < b then b - a else a - b
  }

  /**
   * On strictly ascending steps `BestIndex` picks a nearest step, and of
   * two equally near steps the higher one.
   */
  lemma BestIndexNearest(value: int, options: seq<int>)
    requires |options| > 0 && StrictlyAscending(options)
    ensures var r := BestIndex(value, options);
      forall j :: 0 <= j < |options| ==>
        Distance(options[r], value) <= Distance(options[j], value) &&
        (Distance(options[j], value) == Distance(options[r], value) ==> j <= r)
  {
    var r := BestIndex(value, options);
    match FirstIndexAtLeast(options, value)
    case None =>
    case Some(index) =>
      if index > 0 {
        assert options[index - 1] < value <= options[index];
      }
  }

  lemma AdjacentAscending(s: seq<int>)
    requires forall i :: 0 < i < |s| ==> s[i - 1] < s[i]
    ensures StrictlyAscending(s)
  {
    forall i, j | 0 <= i < j < |s|
      ensures s[i] < s[j]
    {
      AdjacentChain(s, i, j);
    }
  }

  lemma {:induction false} AdjacentChain(s: seq<int>, i: nat, j: nat)
    requires forall k :: 0 < k < |s| ==> s[k - 1] < s[k]
    requires i < j < |s|
    ensures s[i] < s[j]
    decreases j - i
  {
    if i + 1 < j {
      AdjacentChain(s, i + 1, j);
    }
  }

  lemma StepsAscending()
    ensures StrictlyAscending(ColorSteps) && StrictlyAscending(GrayscaleSteps)
  {
    AdjacentAscending(ColorSteps);
    AdjacentAscending(GrayscaleSteps);
  }

  /** The cube level chosen for a channel value. */
  function CubeLevel(v: int): (k: int)
    ensures 0 <= k < 6
  {
    BestIndex(v, ColorSteps)
  }

  /** The grayscale-ramp level chosen for a gray value. */
  function GrayLevel(gray: int): (k: int)
    ensures 0 <= k < 24
  {
    BestIndex(gray, GrayscaleSteps)
  }

  /** Weighted squared error of the nearest cube colour against (r, g, b). */
  function CubeError(r: int, g: int, b: int, fp: FloatOps): real
  {
    fp.weightedError(
      Square(ColorSteps[CubeLevel(r)] - r),
      Square(ColorSteps[CubeLevel(g)] - g),
      Square(ColorSteps[CubeLevel(b)] - b))
  }

  /** Weighted squared error of the nearest ramp gray against (r, g, b). */
  function GrayError(r: int, g: int, b: int, fp: FloatOps): real
  {
    var grayQ := GrayscaleSteps[GrayLevel(fp.gray(r, g, b))];
    fp.weightedError(Square(grayQ - r), Square(grayQ - g), Square(grayQ - b))
  }

  /**
   * The 256-colour palette index for clamped channels: the cube colour
   * when its error is strictly lower, otherwise the ramp gray.
   */
  function PaletteIndex(r: int, g: int, b: int, fp: FloatOps): (n: int)
    ensures 16 <= n <= 255
    ensures n <= 231 <==> CubeError(r, g, b, fp) < GrayError(r, g, b, fp)
    ensures n <= 231 ==> n == 16 + 36 * CubeLevel(r) + 6 * CubeLevel(g) + CubeLevel(b)
    ensures n >= 232 ==> n - 232 == GrayLevel(fp.gray(r, g, b))
  {
    var rIdx, gIdx, bIdx := CubeLevel(r), CubeLevel(g), CubeLevel(b);
    var grayIdx := GrayLevel(fp.gray(r, g, b));
    if CubeError(r, g, b, fp) < GrayError(r, g, b, fp) then 16 + 36 * rIdx + 6 * gIdx + bIdx
    else 232 + grayIdx
  }

  /** A cube palette index decodes to the cube level chosen for each channel. */
  lemma PaletteIndexDecodes(r: int, g: int, b: int, fp: FloatOps)
    ensures var n := PaletteIndex(r, g, b, fp);
      n <= 231 ==>
        (n - 16) / 36 == CubeLevel(r) && (n - 16) / 6 % 6 == CubeLevel(g) && (n - 16) % 6 == CubeLevel(b)
  {
    CubeOffsetDecodes(PaletteIndex(r, g, b, fp), CubeLevel(r), CubeLevel(g), CubeLevel(b));
  }

  /** A palette index in the cube range decodes to its cube coordinates. */
  lemma CubeOffsetDecodes(n: int, rIdx: int, gIdx: int, bIdx: int)
    requires 0 <= rIdx < 6 && 0 <= gIdx < 6 && 0 <= bIdx < 6
    requires n <= 231 ==> n == 16 + 36 * rIdx + 6 * gIdx + bIdx
    ensures n <= 231 ==> (n - 16) / 36 == rIdx && (n - 16) / 6 % 6 == gIdx && (n - 16) % 6 == bIdx
  {
    if n <= 231 {
      CubeIndexDecodes(n - 16, rIdx, gIdx, bIdx);
    }
  }

  /** Cube coordinates are recovered from a cube palette offset. */
  lemma CubeIndexDecodes(k: int, rIdx: int, gIdx: int, bIdx: int)
    requires 0 <= rIdx < 6 && 0 <= gIdx < 6 && 0 <= bIdx < 6
    requires k == 36 * rIdx + 6 * gIdx + bIdx
    ensures 0 <= k < 216 && k / 36 == rIdx && k / 6 % 6 == gIdx && k % 6 == bIdx
  {
    assert k / 6 == 6 * rIdx + gIdx;
  }

  /** The SGR sequence selecting the colour (red, green, blue) for the role and mode in `flags`. */
  function Color(flags: Flags, red: int, green: int, blue: int, fp: FloatOps): (s: string)
    ensures IsControlSequence(s)
  {
    var r, g, b := Clamp(red), Clamp(green), Clamp(blue);
    var isBackground := Background in flags;
    if Mode256 !in flags then
      var prefix := if isBackground then [Esc] + "[48;2;" else [Esc] + "[38;2;";
      var channels := Decimal(r) + ";" + Decimal(g) + ";" + Decimal(b);
      Enclosed(prefix, channels);
      prefix + channels + "m"
    else
      var prefix := if isBackground then [Esc] + "[48;5;" else [Esc] + "[38;5;";
      var index := Decimal(PaletteIndex(r, g, b, fp));
      Enclosed(prefix, index);
      prefix + index + "m"
  }

  /** Starts with the control sequence introducer `ESC [` and ends with the SGR final byte `m`. */
  predicate IsControlSequence(s: string)
  {
    |s| >= 3 && s[0] == Esc && s[1] == '[' && s[|s| - 1] == 'm'
  }

  lemma Enclosed(prefix: string, params: string)
    requires |prefix| >= 2 && prefix[0] == Esc && prefix[1] == '['
    ensures IsControlSequence(prefix + params + "m")
  {
  }

  // -----------------------------------------------------------------------
  // Reading a colour code back.

  /** What an extended-colour SGR sequence selects. */
  datatype ColorCode =
    | TrueColor(background: bool, red: nat, green: nat, blue: nat)
    | Indexed(background: bool, index: nat)

  /** Decodes `ESC [ 38|48 ; 2 ; r ; g ; b m` and `ESC [ 38|48 ; 5 ; n m`. */
  function ParseColorCode(s: string): Option<ColorCode>
  {
    if IsControlSequence(s) then DecodeParameters(Split(s[2..|s| - 1], ';')) else None
  }

  /** Decodes the `;`-separated parameters of an extended-colour SGR sequence. */
  function DecodeParameters(fields: seq<string>): Option<ColorCode>
  {
    if |fields| < 3 || (fields[0] != "38" && fields[0] != "48") then None
    else
      var background := fields[0] == "48";
      if fields[1] == "2" && |fields| == 5 && IsDigits(fields[2]) && IsDigits(fields[3]) && IsDigits(fields[4]) then
        Some(TrueColor(background, ParseDecimal(fields[2]), ParseDecimal(fields[3]), ParseDecimal(fields[4])))
      else if fields[1] == "5" && |fields| == 3 && IsDigits(fields[2]) then
        Some(Indexed(background, ParseDecimal(fields[2])))
      else None
  }

  /**
   * Every code `Color` emits decodes to the role the `.background` flag
   * alone selects and, without `.mode256`, to the clamped channels
   * exactly; with it, to the palette index.
   */
  lemma ColorDecodes(flags: Flags, red: int, green: int, blue: int, fp: FloatOps)
    ensures ParseColorCode(Color(flags, red, green, blue, fp)) ==
      if Mode256 in flags then Some(Indexed(Background in flags, PaletteIndex(Clamp(red), Clamp(green), Clamp(blue), fp)))
      else Some(TrueColor(Background in flags, Clamp(red), Clamp(green), Clamp(blue)))
  {
    var r, g, b := Clamp(red), Clamp(green), Clamp(blue);
    if Mode256 !in flags {
      TrueColorDecodes(Background in flags, r, g, b);
    } else {
      IndexedDecodes(Background in flags, PaletteIndex(r, g, b, fp));
    }
  }

  /**
   * A role flag united with a colour mode: the code is a background code
   * when either holds `.background`, and the mode alone decides between
   * a palette index and the clamped channels.
   */
  lemma UnitedColorDecodes(role: Flag, colorMode: Flags, red: int, green: int, blue: int, fp: FloatOps)
    requires role == Foreground || role == Background
    ensures var background := role == Background || Background in colorMode;
      ParseColorCode(Color({role} + colorMode, red, green, blue, fp)) ==
        if Mode256 in colorMode then Some(Indexed(background, PaletteIndex(Clamp(red), Clamp(green), Clamp(blue), fp)))
        else Some(TrueColor(background, Clamp(red), Clamp(green), Clamp(blue)))
  {
    ColorDecodes({role} + colorMode, red, green, blue, fp);
  }

  function RoleParameter(background: bool): string
  {
    if background then "48" else "38"
  }

  lemma Parameters(params: string)
    ensures var s := [Esc, '['] + params + "m";
      IsControlSequence(s) && s[2..|s| - 1] == params
  {
  }

  lemma TrueColorPrefix(background: bool, channels: string)
    ensures (if background then [Esc] + "[48;2;" else [Esc] + "[38;2;") + channels + "m" ==
      [Esc, '['] + (RoleParameter(background) + ";2;" + channels) + "m"
  {
  }

  lemma IndexedPrefix(background: bool, index: string)
    ensures (if background then [Esc] + "[48;5;" else [Esc] + "[38;5;") + index + "m" ==
      [Esc, '['] + (RoleParameter(background) + ";5;" + index) + "m"
  {
  }

  lemma JoinTwo(f0: string, f1: string)
    ensures Join([f0, f1], ';') == f0 + ";" + f1
  {
    assert [f0, f1][1..] == [f1];
  }

  lemma JoinThree(f0: string, f1: string, f2: string)
    ensures Join([f0, f1, f2], ';') == f0 + ";" + f1 + ";" + f2
  {
    assert [f0, f1, f2][1..] == [f1, f2];
    JoinTwo(f1, f2);
  }

  lemma JoinFour(f0: string, f1: string, f2: string, f3: string)
    ensures Join([f0, f1, f2, f3], ';') == f0 + ";" + f1 + ";" + f2 + ";" + f3
  {
    assert [f0, f1, f2, f3][1..] == [f1, f2, f3];
    JoinThree(f1, f2, f3);
  }

  lemma JoinFive(f0: string, f1: string, f2: string, f3: string, f4: string)
    ensures Join([f0, f1, f2, f3, f4], ';') == f0 + ";" + f1 + ";" + f2 + ";" + f3 + ";" + f4
  {
    assert [f0, f1, f2, f3, f4][1..] == [f1, f2, f3, f4];
    JoinFour(f1, f2, f3, f4);
  }

  /** A sequence whose parameters are joined fields decodes as those fields. */
  lemma DecodesJoined(params: string, fields: seq<string>)
    requires |fields| >= 1 && Join(fields, ';') == params
    requires forall i :: 0 <= i < |fields| ==> ';' !in fields[i]
    ensures ParseColorCode([Esc, '['] + params + "m") == DecodeParameters(fields)
  {
    Parameters(params);
    SplitJoin(fields, ';');
  }

  lemma TrueColorFields(background: bool, r: nat, g: nat, b: nat)
    ensures DecodeParameters([RoleParameter(background), "2", Decimal(r), Decimal(g), Decimal(b)]) ==
      Some(TrueColor(background, r, g, b))
  {
    ParseDecimalOfDecimal(r);
    ParseDecimalOfDecimal(g);
    ParseDecimalOfDecimal(b);
  }

  lemma IndexedFields(background: bool, n: nat)
    ensures DecodeParameters([RoleParameter(background), "5", Decimal(n)]) == Some(Indexed(background, n))
  {
    ParseDecimalOfDecimal(n);
  }

  lemma TrueColorJoin(role: string, dr: string, dg: string, db: string)
    ensures Join([role, "2", dr, dg, db], ';') == role + ";2;" + (dr + ";" + dg + ";" + db)
  {
    JoinFive(role, "2", dr, dg, db);
    assert role + ";" + "2" + ";" == role + ";2;";
  }

  lemma TrueColorDecodes(background: bool, r: nat, g: nat, b: nat)
    ensures var prefix := if background then [Esc] + "[48;2;" else [Esc] + "[38;2;";
      ParseColorCode(prefix + (Decimal(r) + ";" + Decimal(g) + ";" + Decimal(b)) + "m") ==
      Some(TrueColor(background, r, g, b))
  {
    var dr, dg, db := Decimal(r), Decimal(g), Decimal(b);
    var channels := dr + ";" + dg + ";" + db;
    var role := RoleParameter(background);
    TrueColorPrefix(background, channels);
    var fields := [role, "2", dr, dg, db];
    TrueColorJoin(role, dr, dg, db);
    DigitsAvoid(dr, ';');
    DigitsAvoid(dg, ';');
    DigitsAvoid(db, ';');
    DecodesJoined(role + ";2;" + channels, fields);
    TrueColorFields(background, r, g, b);
  }

  lemma IndexedDecodes(background: bool, n: nat)
    ensures var prefix := if background then [Esc] + "[48;5;" else [Esc] + "[38;5;";
      ParseColorCode(prefix + Decimal(n) + "m") == Some(Indexed(background, n))
  {
    var dn := Decimal(n);
    var role := RoleParameter(background);
    IndexedPrefix(background, dn);
    var fields := [role, "5", dn];
    JoinThree(role, "5", dn);
    DigitsAvoid(dn, ';');
    DecodesJoined(role + ";5;" + dn, fields);
    IndexedFields(background, n);
  }

  lemma DecimalExamples()
    ensures Decimal(255) == "255" && Decimal(100) == "100" && Decimal(50) == "50"
  {
    assert Decimal(255) == "255" by {
      assert Decimal(25) == "25" by { assert Decimal(2) == "2"; }
    }
    assert Decimal(100) == "100" by {
      assert Decimal(10) == "10" by { assert Decimal(1) == "1"; }
    }
    assert Decimal(50) == "50" by { assert Decimal(5) == "5"; }
  }

  /** The 24-bit foreground case the source's tests check. */
  lemma TrueColorExample(fp: FloatOps)
    ensures Color({Foreground, Mode24Bit}, 255, 100, 50, fp) == [Esc] + "[38;2;255;100;50m"
  {
    var flags := {Foreground, Mode24Bit};
    assert Mode256 !in flags && Background !in flags;
    assert Clamp(255) == 255 && Clamp(100) == 100 && Clamp(50) == 50;
    DecimalExamples();
    var channels := Decimal(255) + ";" + Decimal(100) + ";" + Decimal(50);
    assert channels == "255;100;50";
    assert Color(flags, 255, 100, 50, fp) == [Esc] + "[38;2;" + channels + "m";
  }

  /** The three parts of a concatenation are its slices. */
  lemma Framed(prefix: string, body: string, suffix: string)
    ensures var s := prefix + body + suffix;
      s[..|prefix|] == prefix && s[|prefix|..|s| - |suffix|] == body
  {
  }

  /** The text of a 256-colour code. */
  lemma IndexedCode(flags: Flags, red: int, green: int, blue: int, fp: FloatOps)
    requires Mode256 in flags
    ensures Color(flags, red, green, blue, fp) ==
      (if Background in flags then [Esc] + "[48;5;" else [Esc] + "[38;5;") +
      Decimal(PaletteIndex(Clamp(red), Clamp(green), Clamp(blue), fp)) + "m"
  {
  }

  /**
   * A 256-colour code is the role prefix, the decimal palette index and
   * the final `m`; for the source's test colour that is `ESC[38;5;` ... `m`.
   */
  lemma PaletteCodeShape(flags: Flags, red: int, green: int, blue: int, fp: FloatOps)
    requires Mode256 in flags
    ensures var s := Color(flags, red, green, blue, fp);
      |s| > 8 &&
      s[..7] == (if Background in flags then [Esc] + "[48;5;" else [Esc] + "[38;5;") &&
      IsDigits(s[7..|s| - 1]) &&
      16 <= ParseDecimal(s[7..|s| - 1]) <= 255
  {
    var s := Color(flags, red, green, blue, fp);
    var n := PaletteIndex(Clamp(red), Clamp(green), Clamp(blue), fp);
    var prefix := if Background in flags then [Esc] + "[48;5;" else [Esc] + "[38;5;";
    var d := Decimal(n);
    IndexedCode(flags, red, green, blue, fp);
    assert |prefix| == 7 && |d| > 0 && 16 <= n <= 255;
    Framed(prefix, d, "m");
    assert s[..7] == prefix && s[7..|s| - 1] == d;
    ParseDecimalOfDecimal(n);
  }

  /** A cube level is a nearest step to the channel value, the higher one on a tie. */
  lemma CubeLevelNearest(v: int)
    ensures forall j :: 0 <= j < 6 ==>
      Distance(ColorSteps[CubeLevel(v)], v) <= Distance(ColorSteps[j], v) &&
      (Distance(ColorSteps[j], v) == Distance(ColorSteps[CubeLevel(v)], v) ==> j <= CubeLevel(v))
  {
    StepsAscending();
    BestIndexNearest(v, ColorSteps);
  }

  /** A ramp level is a nearest ramp gray, the higher one on a tie. */
  lemma GrayLevelNearest(gray: int)
    ensures forall j :: 0 <= j < 24 ==>
      Distance(GrayscaleSteps[GrayLevel(gray)], gray) <= Distance(GrayscaleSteps[j], gray) &&
      (Distance(GrayscaleSteps[j], gray) == Distance(GrayscaleSteps[GrayLevel(gray)], gray) ==> j <= GrayLevel(gray))
  {
    StepsAscending();
    BestIndexNearest(gray, GrayscaleSteps);
  }

  /** 115 lies midway between the cube steps 95 and 135; the higher one is chosen. */
  lemma CubeTieGoesUp()
    ensures CubeLevel(115) == 2
  {
    assert FirstIndexAtLeast(ColorSteps, 115) == Some(2) by {
      assert ColorSteps[0] < 115 && ColorSteps[1] < 115 && ColorSteps[2] >= 115;
    }
  }
}
