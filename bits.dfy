/**
 * 32-bit block patterns (Swift `UInt32`), modelled as `bv32`.
 *
 * A pattern holds one bit per pixel of a 4x8 block; the pixel read first
 * sits in the most significant bit. `BitsOf` views a pattern as the
 * sequence of its 32 bits in that reading order, and the lemmas here
 * connect the machine operations the quantiser uses (shift-in, xor,
 * complement, `nonzeroBitCount`) to that view.
 */
module Bits {

  /** Bit position `i` as a shift amount of the same width. */
  function Shift(i: nat): (s: bv32)
    requires i <= 32
    ensures s as int == i
  {
    if i == 0 then 0 else Shift(i - 1) + 1
  }

  /** Whether bit `i` (0 = least significant) of `x` is set. */
  predicate Bit(x: bv32, i: nat)
    requires i < 32
  {
    BitAt(x, Shift(i))
  }

  /** Whether the bit a shift by `s` brings to the bottom is set. */
  predicate BitAt(x: bv32, s: bv32)
    requires s < 32
  {
    (x >> s) & 1 == 1
  }

  /** The 32 bits of `x`, most significant first. */
  function BitsOf(x: bv32): (r: seq<bool>)
    ensures |r| == 32
    ensures forall j :: 0 <= j < 32 ==> r[j] == Bit(x, 31 - j)
  {
    seq(32, j requires 0 <= j < 32 => Bit(x, 31 - j))
  }

  /** Number of `true` entries. */
  function Count(s: seq<bool>): (r: nat)
    ensures r <= |s|
  {
    if s == [] then 0 else Count(s[..|s| - 1]) + (if s[|s| - 1] then 1 else 0)
  }

  /** `UInt32.nonzeroBitCount`: the number of set bits. */
  function Popcount(x: bv32): (r: nat)
    ensures r <= 32
  {
    Count(BitsOf(x))
  }

  /**
   * The pattern obtained by starting from 0 and, for each flag in order,
   * shifting left by one and or-ing in the flag (`bits = bits << 1`,
   * `bits |= 1`).
   */
  function Pack(fs: seq<bool>): bv32
  {
    if fs == [] then 0 else PushBit(Pack(fs[..|fs| - 1]), fs[|fs| - 1])
  }

  /** One shift-in step: `b << 1`, with the new low bit set when `f` holds. */
  function PushBit(b: bv32, f: bool): bv32
  {
    (b << 1) | (if f then 1 else 0)
  }

  /** The two outcomes of a shift-in step, as the quantiser writes them. */
  lemma PushBitShape(b: bv32)
    ensures PushBit(b, false) == b << 1 && PushBit(b, true) == (b << 1) | 1
  {
  }

  // ---------------------------------------------------------------------
  // Single-bit facts, stated on shift amounts so that the solver can
  // bit-blast them.

  lemma ShiftInLow(b: bv32, c: bv32)
    requires c <= 1
    ensures BitAt((b << 1) | c, 0) == (c == 1)
  {
  }

  lemma ShiftInHigh(b: bv32, c: bv32, s: bv32)
    requires c <= 1 && 0 < s < 32
    ensures BitAt((b << 1) | c, s) == BitAt(b, s - 1)
  {
  }

  lemma NotAt(x: bv32, s: bv32)
    requires s < 32
    ensures BitAt(!x, s) == !BitAt(x, s)
  {
  }

  lemma XorAt(x: bv32, y: bv32, s: bv32)
    requires s < 32
    ensures BitAt(x ^ y, s) == (BitAt(x, s) != BitAt(y, s))
  {
  }

  lemma ClearStep(d: bv32, s: bv32)
    requires s < 32
    requires d >> (s + 1) == 0 && !BitAt(d, s)
    ensures d >> s == 0
  {
  }

  // ---------------------------------------------------------------------
  // The sequence view.

  /** Complementing a pattern flips every one of its bits. */
  lemma BitsOfNot(x: bv32)
    ensures forall j :: 0 <= j < 32 ==> BitsOf(!x)[j] == !BitsOf(x)[j]
  {
    forall j | 0 <= j < 32
      ensures BitsOf(!x)[j] == !BitsOf(x)[j]
    {
      NotAt(x, Shift(31 - j));
    }
  }

  /** Xor marks exactly the positions where two patterns disagree. */
  lemma BitsOfXor(x: bv32, y: bv32)
    ensures forall j :: 0 <= j < 32 ==> BitsOf(x ^ y)[j] == (BitsOf(x)[j] != BitsOf(y)[j])
  {
    forall j | 0 <= j < 32
      ensures BitsOf(x ^ y)[j] == (BitsOf(x)[j] != BitsOf(y)[j])
    {
      XorAt(x, y, Shift(31 - j));
    }
  }

  /** A pattern with no set bit at or above position `i` is zero after shifting by `i`. */
  lemma {:induction false} HighBitsClear(d: bv32, i: nat)
    requires i <= 32
    requires forall k :: i <= k < 32 ==> !Bit(d, k)
    ensures d >> Shift(i) == 0
    decreases 32 - i
  {
    if i < 32 {
      HighBitsClear(d, i + 1);
      var t := Shift(i);
      assert t < 32;
      assert Shift(i + 1) == t + 1;
      assert !BitAt(d, t) by { assert !Bit(d, i); }
      ClearStep(d, t);
    }
  }

  /** A pattern is determined by its bits. */
  lemma BitsOfInjective(x: bv32, y: bv32)
    requires BitsOf(x) == BitsOf(y)
    ensures x == y
  {
    var d := x ^ y;
    BitsOfXor(x, y);
    forall k | 0 <= k < 32
      ensures !Bit(d, k)
    {
      var j := 31 - k;
      assert BitsOf(x)[j] == BitsOf(y)[j];
      assert BitsOf(d)[j] == (BitsOf(x)[j] != BitsOf(y)[j]);
      assert BitsOf(d)[j] == Bit(d, k);
    }
    HighBitsClear(d, 0);
  }

  lemma {:induction false} CountNegated(s: seq<bool>, t: seq<bool>)
    requires |s| == |t|
    requires forall j :: 0 <= j < |s| ==> t[j] == !s[j]
    ensures Count(t) == |s| - Count(s)
  {
    if s != [] {
      CountNegated(s[..|s| - 1], t[..|t| - 1]);
    }
  }

  lemma {:induction false} CountZero(s: seq<bool>)
    ensures Count(s) == 0 <==> forall j :: 0 <= j < |s| ==> !s[j]
  {
    if s != [] {
      var front := s[..|s| - 1];
      CountZero(front);
      assert forall j :: 0 <= j < |s| - 1 ==> s[j] == front[j];
    }
  }

  /** The popcount of a complement is what the pattern leaves unset. */
  lemma PopcountNot(x: bv32)
    ensures Popcount(!x) == 32 - Popcount(x)
  {
    BitsOfNot(x);
    CountNegated(BitsOf(x), BitsOf(!x));
  }

  /**
   * Comparing against a complemented bitmap: the two distances sum to 32,
   * so the better of them is never more than 16.
   */
  lemma DistanceComplement(bitmap: bv32, bits: bv32)
    ensures Popcount(!bitmap ^ bits) + Popcount(bitmap ^ bits) == 32
  {
    assert !bitmap ^ bits == !(bitmap ^ bits);
    PopcountNot(bitmap ^ bits);
  }

  /** Only the zero pattern has no set bit. */
  lemma PopcountZero(x: bv32)
    ensures Popcount(x) == 0 <==> x == 0
  {
    CountZero(BitsOf(x));
    CountZero(BitsOf(0));
    if Popcount(x) == 0 {
      assert BitsOf(x) == BitsOf(0);
      BitsOfInjective(x, 0);
    }
  }

  /** The flag pushed lands in bit 0; every earlier bit moves up by one. */
  lemma PushBitAt(b: bv32, f: bool, i: nat)
    requires i < 32
    ensures Bit(PushBit(b, f), i) == if i == 0 then f else Bit(b, i - 1)
  {
    var c: bv32 := if f then 1 else 0;
    var t := Shift(i);
    if i == 0 {
      assert t == 0;
      ShiftInLow(b, c);
    } else {
      assert 0 < t < 32;
      assert Shift(i - 1) == t - 1;
      ShiftInHigh(b, c, t);
    }
  }

  /** One more flag: it becomes bit 0 of the pattern. */
  lemma PackLow(fs: seq<bool>)
    requires 0 < |fs|
    ensures Bit(Pack(fs), 0) == fs[|fs| - 1]
  {
    assert Pack(fs) == PushBit(Pack(fs[..|fs| - 1]), fs[|fs| - 1]);
    PushBitAt(Pack(fs[..|fs| - 1]), fs[|fs| - 1], 0);
  }

  /** One more flag: the earlier pattern moves up by one bit. */
  lemma PackHigh(fs: seq<bool>, i: nat)
    requires 0 < |fs| && 0 < i < 32
    ensures var front := fs[..|fs| - 1];
      Bit(Pack(fs), i) == Bit(Pack(front), i - 1) &&
      (i - 1 < |front| && front[|front| - 1 - (i - 1)]) == (i < |fs| && fs[|fs| - 1 - i])
  {
    assert Pack(fs) == PushBit(Pack(fs[..|fs| - 1]), fs[|fs| - 1]);
    PushBitAt(Pack(fs[..|fs| - 1]), fs[|fs| - 1], i);
  }

  /** Shifting flags in MSB-first puts flag `k` of 32 at bit `31 - k`. */
  lemma {:induction false} PackBit(fs: seq<bool>, i: nat)
    requires |fs| <= 32 && i < 32
    ensures Bit(Pack(fs), i) == (i < |fs| && fs[|fs| - 1 - i])
  {
    if fs != [] {
      if i == 0 {
        PackLow(fs);
      } else {
        PackHigh(fs, i);
        PackBit(fs[..|fs| - 1], i - 1);
      }
    }
  }

  /** Reading a packed 32-flag pattern back gives the flags in order. */
  lemma PackBits(fs: seq<bool>)
    requires |fs| == 32
    ensures BitsOf(Pack(fs)) == fs
  {
    forall j | 0 <= j < 32
      ensures BitsOf(Pack(fs))[j] == fs[j]
    {
      PackBit(fs, 31 - j);
    }
  }

  /** The popcount of a packed pattern is the number of flags that were set. */
  lemma PopcountPack(fs: seq<bool>)
    requires |fs| == 32
    ensures Popcount(Pack(fs)) == Count(fs)
  {
    PackBits(fs);
  }
}
