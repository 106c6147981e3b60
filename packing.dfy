/** Bit-level layout of one framebuffer word: ten 3-bit pixel slots in bits
    0-29 (slot s at bit offset 3*s), bits 30-31 unused padding.

    Words are naturals and the firmware's bitwise operators are defined on
    naturals three bits (one octal digit, one pixel slot) at a time, which
    is what bitwise AND, OR and XOR compute. Slot s of w is octal digit s
    of w. */
module Packing {

  /** A 3-bit palette entry: bit 0 red, bit 1 green, bit 2 blue. */
  type Color = c: nat | c < 8

  /** Number of pixel slots in one word. */
  const SlotsPerWord := 10

  /** The thirty usable bits of a word; the firmware XORs masks with it. */
  const Usable: nat := 0x3FFF_FFFF

  /** 2^30: a word with clear padding is below it. */
  const WordBound: nat := 0x4000_0000

  /** v fits in the signed 32-bit machine word that viper's `int` is:
      arithmetic on such values does not wrap. */
  predicate Int32(v: int) {
    -0x8000_0000 <= v < 0x8000_0000
  }

  function Pow8(n: nat): (r: nat)
    ensures r >= 1
  {
    if n == 0 then 1 else 8 * Pow8(n - 1)
  }

  // Bitwise operators on one 3-bit digit, bit by bit.

  function And3(x: Color, y: Color): (z: Color) {
    (if x % 2 == 1 && y % 2 == 1 then 1 else 0) +
    (if x / 2 % 2 == 1 && y / 2 % 2 == 1 then 2 else 0) +
    (if x / 4 == 1 && y / 4 == 1 then 4 else 0)
  }

  function Or3(x: Color, y: Color): (z: Color) {
    (if x % 2 == 1 || y % 2 == 1 then 1 else 0) +
    (if x / 2 % 2 == 1 || y / 2 % 2 == 1 then 2 else 0) +
    (if x / 4 == 1 || y / 4 == 1 then 4 else 0)
  }

  function Xor3(x: Color, y: Color): (z: Color) {
    (if x % 2 != y % 2 then 1 else 0) +
    (if x / 2 % 2 != y / 2 % 2 then 2 else 0) +
    (if x / 4 != y / 4 then 4 else 0)
  }

  // Bitwise operators on whole words, one octal digit at a time.

  /** `a & b` */
  function And(a: nat, b: nat): (w: nat)
    decreases a
  {
    if a == 0 || b == 0 then 0 else 8 * And(a / 8, b / 8) + And3(a % 8, b % 8)
  }

  /** `a | b` */
  function Or(a: nat, b: nat): (w: nat)
    decreases a + b
  {
    if a == 0 then b
    else if b == 0 then a
    else 8 * Or(a / 8, b / 8) + Or3(a % 8, b % 8)
  }

  /** `a ^ b` */
  function Xor(a: nat, b: nat): (w: nat)
    decreases a + b
  {
    if a == 0 then b
    else if b == 0 then a
    else 8 * Xor(a / 8, b / 8) + Xor3(a % 8, b % 8)
  }

  /** `a << p` */
  function Shl(a: nat, p: nat): (w: nat) {
    if p == 0 then a else 2 * Shl(a, p - 1)
  }

  /** The pixel held in slot s of word w: `(w >> 3*s) & 0b111`. */
  function Slot(w: nat, s: nat): (c: Color) {
    if s == 0 then w % 8 else Slot(w / 8, s - 1)
  }

  /** Bits 30 and 31 (and any above) are zero. */
  predicate PaddingClear(w: nat) {
    w < WordBound
  }

  /** The word update the firmware uses for partial writes: clear the bits
      that `off` marks (and the padding, through the XOR with 0x3FFFFFFF),
      then OR in `colm`: `(w & (off ^ 0x3FFFFFFF)) | colm`. */
  function Merge(w: nat, off: nat, colm: nat): (m: nat) {
    Or(And(w, Xor(off, Usable)), colm)
  }

  /** The digit operations on the values the masks use. */
  lemma DigitFacts(x: Color, y: Color)
    ensures And3(x, 0) == 0 && And3(0, y) == 0 && And3(x, 7) == x
    ensures And3(x, y) <= x && And3(x, y) <= y
    ensures Or3(x, 0) == x && Or3(0, y) == y
    ensures Xor3(x, 0) == x && Xor3(0, y) == y && Xor3(7, 7) == 0
  {
  }

  /** Splitting `8 * q + r` into its last digit and the rest. */
  lemma DivMod8(q: nat, r: nat)
    requires r < 8
    ensures (8 * q + r) / 8 == q && (8 * q + r) % 8 == r
  {
  }

  lemma {:induction false} SlotOfZero(s: nat)
    ensures Slot(0, s) == 0
  {
    if s > 0 {
      SlotOfZero(s - 1);
    }
  }

  /** Slot s of `a & b` is the AND of the slots. */
  lemma {:induction false} SlotAnd(a: nat, b: nat, s: nat)
    ensures Slot(And(a, b), s) == And3(Slot(a, s), Slot(b, s))
  {
    if a == 0 || b == 0 {
      SlotOfZero(s);
      DigitFacts(Slot(a, s), Slot(b, s));
    } else {
      DivMod8(And(a / 8, b / 8), And3(a % 8, b % 8));
      if s > 0 {
        SlotAnd(a / 8, b / 8, s - 1);
      }
    }
  }

  /** Slot s of `a | b` is the OR of the slots. */
  lemma {:induction false} SlotOr(a: nat, b: nat, s: nat)
    ensures Slot(Or(a, b), s) == Or3(Slot(a, s), Slot(b, s))
  {
    if a == 0 || b == 0 {
      SlotOfZero(s);
      DigitFacts(Slot(a, s), Slot(b, s));
    } else {
      DivMod8(Or(a / 8, b / 8), Or3(a % 8, b % 8));
      if s > 0 {
        SlotOr(a / 8, b / 8, s - 1);
      }
    }
  }

  /** Slot s of `a ^ b` is the XOR of the slots. */
  lemma {:induction false} SlotXor(a: nat, b: nat, s: nat)
    ensures Slot(Xor(a, b), s) == Xor3(Slot(a, s), Slot(b, s))
  {
    if a == 0 || b == 0 {
      SlotOfZero(s);
      DigitFacts(Slot(a, s), Slot(b, s));
    } else {
      DivMod8(Xor(a / 8, b / 8), Xor3(a % 8, b % 8));
      if s > 0 {
        SlotXor(a / 8, b / 8, s - 1);
      }
    }
  }

  lemma ShlThree(c: nat, p: nat)
    ensures Shl(c, p + 3) == 8 * Shl(c, p)
  {
    assert Shl(c, p + 3) == 2 * Shl(c, p + 2);
    assert Shl(c, p + 2) == 2 * Shl(c, p + 1);
  }

  /** `c << 3*s` holds c in slot s and nothing in any other slot. */
  lemma {:induction false} SlotShl(c: Color, s: nat, t: nat)
    ensures Slot(Shl(c, 3 * s), t) == if s == t then c else 0
  {
    if s == 0 {
      if t > 0 {
        SlotOfZero(t - 1);
      }
    } else {
      ShlThree(c, 3 * (s - 1));
      if t > 0 {
        SlotShl(c, s - 1, t - 1);
      }
    }
  }

  /** Digits at or above n of a number below 8^n are zero. */
  lemma {:induction false} SlotAbove(w: nat, n: nat, s: nat)
    requires w < Pow8(n) && n <= s
    ensures Slot(w, s) == 0
  {
    if n == 0 {
      SlotOfZero(s);
    } else {
      SlotAbove(w / 8, n - 1, s - 1);
    }
  }

  /** 8^n - 1 has n digits 7. */
  lemma {:induction false} SlotOnes(n: nat, s: nat)
    ensures Slot(Pow8(n) - 1, s) == if s < n then 7 else 0
  {
    if n == 0 {
      SlotOfZero(s);
    } else if s > 0 {
      SlotOnes(n - 1, s - 1);
    }
  }

  lemma WordBoundIsPow8()
    ensures Pow8(SlotsPerWord) == WordBound && Usable == WordBound - 1
  {
  }

  /** Every slot of 0x3FFFFFFF holds 0b111. */
  lemma SlotUsable(s: nat)
    requires s < SlotsPerWord
    ensures Slot(Usable, s) == 7
  {
    WordBoundIsPow8();
    SlotOnes(SlotsPerWord, s);
  }

  lemma {:induction false} Pow8Monotone(m: nat, n: nat)
    requires m <= n
    ensures Pow8(m) <= Pow8(n)
  {
    if m < n {
      Pow8Monotone(m, n - 1);
    }
  }

  lemma {:induction false} AndBelow(a: nat, b: nat)
    ensures And(a, b) <= a && And(a, b) <= b
  {
    if a != 0 && b != 0 {
      AndBelow(a / 8, b / 8);
      DigitFacts(a % 8, b % 8);
    }
  }

  lemma {:induction false} OrBound(a: nat, b: nat, n: nat)
    requires a < Pow8(n) && b < Pow8(n)
    ensures Or(a, b) < Pow8(n)
  {
    if a != 0 && b != 0 {
      OrBound(a / 8, b / 8, n - 1);
    }
  }

  lemma {:induction false} XorBound(a: nat, b: nat, n: nat)
    requires a < Pow8(n) && b < Pow8(n)
    ensures Xor(a, b) < Pow8(n)
  {
    if a != 0 && b != 0 {
      XorBound(a / 8, b / 8, n - 1);
    }
  }

  lemma {:induction false} ShlBound(c: Color, s: nat)
    ensures Shl(c, 3 * s) < Pow8(s + 1)
  {
    if s > 0 {
      ShlThree(c, 3 * (s - 1));
      ShlBound(c, s - 1);
    }
  }

  /** A slot-shifted colour has clear padding. */
  lemma ShlPadding(c: Color, s: nat)
    requires s < SlotsPerWord
    ensures PaddingClear(Shl(c, 3 * s))
  {
    ShlBound(c, s);
    Pow8Monotone(s + 1, SlotsPerWord);
    WordBoundIsPow8();
  }

  lemma OrPadding(a: nat, b: nat)
    requires PaddingClear(a) && PaddingClear(b)
    ensures PaddingClear(Or(a, b))
  {
    WordBoundIsPow8();
    OrBound(a, b, SlotsPerWord);
  }

  /** Slot s of a merged word, for the slots below the padding. */
  lemma MergeSlot(w: nat, off: nat, colm: nat, s: nat)
    requires s < SlotsPerWord
    ensures Slot(Merge(w, off, colm), s) ==
            Or3(And3(Slot(w, s), Xor3(Slot(off, s), 7)), Slot(colm, s))
  {
    SlotOr(And(w, Xor(off, Usable)), colm, s);
    SlotAnd(w, Xor(off, Usable), s);
    SlotXor(off, Usable, s);
    SlotUsable(s);
  }

  /** The merge clears the padding whenever the masks have it clear. */
  lemma MergePadding(w: nat, off: nat, colm: nat)
    requires PaddingClear(off) && PaddingClear(colm)
    ensures PaddingClear(Merge(w, off, colm))
  {
    WordBoundIsPow8();
    XorBound(off, Usable, SlotsPerWord);
    AndBelow(w, Xor(off, Usable));
    OrBound(And(w, Xor(off, Usable)), colm, SlotsPerWord);
  }

  lemma {:induction false} SlotsDetermine(a: nat, b: nat, n: nat)
    requires a < Pow8(n) && b < Pow8(n)
    requires forall t :: 0 <= t < n ==> Slot(a, t) == Slot(b, t)
    ensures a == b
  {
    if n > 0 {
      assert Slot(a, 0) == Slot(b, 0);
      forall t | 0 <= t < n - 1
        ensures Slot(a / 8, t) == Slot(b / 8, t)
      {
        assert Slot(a, t + 1) == Slot(b, t + 1);
      }
      SlotsDetermine(a / 8, b / 8, n - 1);
    }
  }

  /** A word with clear padding is determined by its ten slots. */
  lemma WordExtensionality(a: nat, b: nat)
    requires PaddingClear(a) && PaddingClear(b)
    requires forall t :: 0 <= t < SlotsPerWord ==> Slot(a, t) == Slot(b, t)
    ensures a == b
  {
    WordBoundIsPow8();
    SlotsDetermine(a, b, SlotsPerWord);
  }

  /** w holds c in the slots of [lo, hi), 0 in the other slots, and has
      clear padding: the masks the firmware builds. */
  ghost predicate Span(w: nat, lo: int, hi: int, c: Color) {
    PaddingClear(w) &&
    forall s :: 0 <= s < SlotsPerWord ==> Slot(w, s) == if lo <= s < hi then c else 0
  }

  /** The empty mask. */
  lemma SpanEmpty(lo: int, c: Color)
    ensures Span(0, lo, lo, c)
  {
    forall s | 0 <= s < SlotsPerWord
      ensures Slot(0, s) == 0
    {
      SlotOfZero(s);
    }
  }

  /** One pass of a mask loop: OR-ing `c << 3*i` into the mask for [lo, i)
      gives the mask for [lo, i + 1). */
  lemma SpanStep(w: nat, lo: int, i: nat, c: Color)
    requires lo <= i < SlotsPerWord
    requires Span(w, lo, i, c)
    ensures Span(Or(w, Shl(c, 3 * i)), lo, i + 1, c)
  {
    forall s | 0 <= s < SlotsPerWord
      ensures Slot(Or(w, Shl(c, 3 * i)), s) == if lo <= s < i + 1 then c else 0
    {
      SlotOr(w, Shl(c, 3 * i), s);
      SlotShl(c, i, s);
      DigitFacts(Slot(w, s), Slot(Shl(c, 3 * i), s));
    }
    ShlPadding(c, i);
    OrPadding(w, Shl(c, 3 * i));
  }

  /** `c << 3*s` is the one-slot mask for [s, s + 1). */
  lemma ShlSpan(c: Color, s: nat)
    requires s < SlotsPerWord
    ensures Span(Shl(c, 3 * s), s, s + 1, c)
  {
    forall t | 0 <= t < SlotsPerWord
      ensures Slot(Shl(c, 3 * s), t) == if s <= t < s + 1 then c else 0
    {
      SlotShl(c, s, t);
    }
    ShlPadding(c, s);
  }

  /** Merging a pair of span masks writes `col` into the slots of [lo, hi),
      keeps every other slot, and leaves the padding clear. */
  lemma MergeSpan(w: nat, off: nat, colm: nat, lo: int, hi: int, col: Color, s: nat)
    requires Span(off, lo, hi, 7) && Span(colm, lo, hi, col)
    requires s < SlotsPerWord
    ensures Slot(Merge(w, off, colm), s) == if lo <= s < hi then col else Slot(w, s)
    ensures PaddingClear(Merge(w, off, colm))
  {
    MergeSlot(w, off, colm, s);
    DigitFacts(Slot(w, s), col);
    MergePadding(w, off, colm);
  }

  /** The draw_pix update `(w & ((0b111 << 3*s) ^ 0x3FFFFFFF)) | (col << 3*s)`:
      slot s reads back `col`, every other slot keeps its pixel, and the
      padding ends up clear. */
  lemma PokeSlot(w: nat, s: nat, t: nat, col: Color)
    requires s < SlotsPerWord && t < SlotsPerWord
    ensures Slot(Merge(w, Shl(7, 3 * s), Shl(col, 3 * s)), t) == if s == t then col else Slot(w, t)
    ensures PaddingClear(Merge(w, Shl(7, 3 * s), Shl(col, 3 * s)))
  {
    ShlSpan(7, s);
    ShlSpan(col, s);
    MergeSpan(w, Shl(7, 3 * s), Shl(col, 3 * s), s, s + 1, col, t);
  }

  /** The replicated-colour word of fill_screen and of the middle words of
      draw_fastHline: `mask |= col << 3*i` for i in 0..9. */
  method Replicate(col: Color) returns (mask: nat)
    ensures Span(mask, 0, SlotsPerWord, col)
  {
    mask := 0;
    SpanEmpty(0, col);
    for i := 0 to SlotsPerWord
      invariant Span(mask, 0, i, col)
    {
      SpanStep(mask, 0, i, col);
      mask := Or(mask, Shl(col, 3 * i));
    }
  }

  /** The partial-word masks of draw_fastHline, before the XOR: for i in
      [lo, hi), `off |= 0b111 << 3*i` and `colm |= col << 3*i`. */
  method SpanMasks(lo: nat, hi: nat, col: Color) returns (off: nat, colm: nat)
    requires lo <= hi <= SlotsPerWord
    ensures Span(off, lo, hi, 7) && Span(colm, lo, hi, col)
  {
    off, colm := 0, 0;
    SpanEmpty(lo, 7);
    SpanEmpty(lo, col);
    for i := lo to hi
      invariant Span(off, lo, i, 7) && Span(colm, lo, i, col)
    {
      SpanStep(off, lo, i, 7);
      SpanStep(colm, lo, i, col);
      off := Or(off, Shl(7, 3 * i));
      colm := Or(colm, Shl(col, 3 * i));
    }
  }
}
