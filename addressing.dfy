/** Pixel addressing of the packed 640x480 framebuffer.

    Pixel (x, y) is bit number n = 1920*y + 3*x of the pixel stream. It is
    stored in word n/30 - 1 at bit offset n%30, except that the ten pixels
    with n/30 == 0 (x < 10 on row 0) go to the last word of the buffer.
    Division and remainder follow Python (floor) semantics, which is what
    Dafny's `/` and `%` compute for the positive divisor 30. */
module Addressing {
  import opened Packing

  const HRes: int := 640
  const VRes: int := 480
  const BitsPerPix: int := 3
  const UsableBits: int := 30

  /** Number of 32-bit words in the buffer: 640*480*3/30. */
  const Len: int := 30720

  /** Words per screen row, as draw_fastVline computes it: len // V_res. */
  const NWord: int := Len / VRes

  predicate OnScreen(x: int, y: int) {
    0 <= x < HRes && 0 <= y < VRes
  }

  /** n: the pixel's first bit in the stream. */
  function BitNumber(x: int, y: int): (n: int) {
    y * (HRes * BitsPerPix) + x * BitsPerPix
  }

  /** k: the word draw_pix writes. */
  function WordIndex(x: int, y: int): (k: int)
    ensures 0 <= k
  {
    var q := BitNumber(x, y) / UsableBits;
    if q > 0 then q - 1 else Len - 1
  }

  /** p: the bit offset of the pixel inside its word. */
  function BitOffset(x: int, y: int): (p: int)
    ensures 0 <= p < UsableBits && p % BitsPerPix == 0
  {
    TripleDivMod(HRes * y + x);
    BitNumber(x, y) % UsableBits
  }

  /** The write draw_pix makes lands inside the buffer. */
  predicate InBounds(x: int, y: int) {
    WordIndex(x, y) < Len
  }

  /** Linear index of the ten-pixel group that holds (x, y), before the
      one-word shift: 64 words per row. */
  function Group(x: int, y: int): (g: int) {
    NWord * y + x / SlotsPerWord
  }

  /** The screen pixel stored in slot s of word k: the inverse of the
      addressing. Word k holds group k + 1, and the last word group 0. */
  function PixelOfSlot(k: int, s: int): (q: (int, int))
    ensures 0 <= k < Len && 0 <= s < SlotsPerWord ==> OnScreen(q.0, q.1)
  {
    var g := if k == Len - 1 then 0 else k + 1;
    (SlotsPerWord * (g % NWord) + s, g / NWord)
  }

  /** The screen pixel that a draw_pix at (x, y) actually changes, for an
      (x, y) in bounds; (x, y) itself when it is on screen (see
      AliasOnScreen). */
  function Alias(x: int, y: int): (q: (int, int))
    ensures InBounds(x, y) ==> OnScreen(q.0, q.1)
  {
    PixelOfSlot(WordIndex(x, y), BitOffset(x, y) / BitsPerPix)
  }

  lemma DivMod10(q: int, r: int)
    requires 0 <= r < 10
    ensures (10 * q + r) / 10 == q && (10 * q + r) % 10 == r
  {
  }

  lemma DivMod30(q: int, r: int)
    requires 0 <= r < 30
    ensures (30 * q + r) / 30 == q && (30 * q + r) % 30 == r
  {
  }

  lemma DivMod64(q: int, r: int)
    requires 0 <= r < 64
    ensures (64 * q + r) / 64 == q && (64 * q + r) % 64 == r
  {
  }

  lemma TripleDivMod(m: int)
    ensures (3 * m) / 30 == m / 10 && (3 * m) % 30 == 3 * (m % 10)
  {
    DivMod30(m / 10, 3 * (m % 10));
  }

  /** The position of an on-screen pixel in raster order, split into its
      ten-pixel group and slot. */
  lemma RasterGroup(x: int, y: int)
    requires OnScreen(x, y)
    ensures (HRes * y + x) / 10 == Group(x, y) && (HRes * y + x) % 10 == x % 10
  {
    DivMod10(NWord * y + x / 10, x % 10);
  }

  /** The buffer length is the number of pixels times three bits over the
      thirty usable bits of a word, and splits into 64 words per row of
      ten-pixel groups. */
  lemma BufferLength()
    ensures Len == HRes * VRes * BitsPerPix / UsableBits
    ensures NWord == 64 && NWord * VRes == Len && NWord * SlotsPerWord == HRes
    ensures HRes * BitsPerPix == NWord * UsableBits
  {
  }

  /** On screen, the source's index and offset are the group minus one
      (wrapping to the last word for group 0) and three times the slot. */
  lemma AddressOnScreen(x: int, y: int)
    requires OnScreen(x, y)
    ensures BitNumber(x, y) / UsableBits == Group(x, y)
    ensures 0 <= Group(x, y) < Len && Group(x, y) / NWord == y
    ensures BitOffset(x, y) == BitsPerPix * (x % SlotsPerWord)
    ensures WordIndex(x, y) == if Group(x, y) > 0 then Group(x, y) - 1 else Len - 1
    ensures 0 <= WordIndex(x, y) < Len
    ensures WordIndex(x, y) == Len - 1 <==> y == 0 && x < SlotsPerWord
  {
    TripleDivMod(HRes * y + x);
    RasterGroup(x, y);
    DivMod64(y, x / 10);
  }


  /** For an on-screen pixel the bit number draw_pix computes fits in a
      32-bit word, so the firmware's wrapping arithmetic and the model
      agree. */
  lemma OnScreenNoWrap(x: int, y: int)
    requires OnScreen(x, y)
    ensures Int32(BitNumber(x, y)) && 0 <= BitNumber(x, y) < HRes * VRes * BitsPerPix
  {
  }

  /** Every on-screen pixel is in bounds. */
  lemma OnScreenInBounds(x: int, y: int)
    requires OnScreen(x, y)
    ensures InBounds(x, y)
  {
    AddressOnScreen(x, y);
  }

  /** draw_pix stays inside the buffer exactly when n/30 <= len; n/30 <= 0
      (which includes every pixel left of or above the origin) goes to the
      last word. */
  lemma InBoundsIff(x: int, y: int)
    ensures InBounds(x, y) <==> BitNumber(x, y) / UsableBits <= Len
    ensures BitNumber(x, y) / UsableBits <= 0 ==> WordIndex(x, y) == Len - 1
  {
  }

  /** Reading back the slot of an on-screen pixel gives the pixel. */
  lemma AliasOnScreen(x: int, y: int)
    requires OnScreen(x, y)
    ensures InBounds(x, y) && Alias(x, y) == (x, y)
  {
    AddressOnScreen(x, y);
    var g := Group(x, y);
    assert g % NWord == x / 10 && g / NWord == y;
  }

  /** Every slot of every word is the home of some on-screen pixel: the
      addressing is onto. */
  lemma SlotHome(k: int, s: int)
    requires 0 <= k < Len && 0 <= s < SlotsPerWord
    ensures WordIndex(PixelOfSlot(k, s).0, PixelOfSlot(k, s).1) == k
    ensures BitOffset(PixelOfSlot(k, s).0, PixelOfSlot(k, s).1) == BitsPerPix * s
  {
    var q := PixelOfSlot(k, s);
    var g := if k == Len - 1 then 0 else k + 1;
    AddressOnScreen(q.0, q.1);
    assert q.0 / 10 == g % NWord && q.0 % 10 == s;
    assert Group(q.0, q.1) == g;
  }

  /** Two on-screen pixels never share a word slot: the addressing is
      one-to-one. */
  lemma AddressInjective(x1: int, y1: int, x2: int, y2: int)
    requires OnScreen(x1, y1) && OnScreen(x2, y2)
    requires WordIndex(x1, y1) == WordIndex(x2, y2)
    requires BitOffset(x1, y1) == BitOffset(x2, y2)
    ensures x1 == x2 && y1 == y2
  {
    AliasOnScreen(x1, y1);
    AliasOnScreen(x2, y2);
  }

  /** Same word means same row and same ten-pixel group: no word holds
      pixels of two rows. */
  lemma SameWord(x1: int, y1: int, x2: int, y2: int)
    requires OnScreen(x1, y1) && OnScreen(x2, y2)
    ensures WordIndex(x1, y1) == WordIndex(x2, y2) <==>
            y1 == y2 && x1 / SlotsPerWord == x2 / SlotsPerWord
  {
    AddressOnScreen(x1, y1);
    AddressOnScreen(x2, y2);
  }

  /** A draw_pix one pixel left of column 0 lands on the last pixel of the
      previous row; on row 0 it lands in the last word, on slot 9 of row 0. */
  lemma AliasLeftOfScreen(y: int)
    requires 0 <= y < VRes
    ensures InBounds(-1, y)
    ensures Alias(-1, y) == if y == 0 then (SlotsPerWord - 1, 0) else (HRes - 1, y - 1)
  {
    assert BitNumber(-1, y) == 30 * (NWord * y - 1) + 27;
    DivMod30(NWord * y - 1, 27);
    assert BitOffset(-1, y) == 27;
    if y > 0 {
      assert WordIndex(-1, y) == NWord * y - 2;
      DivMod64(y - 1, 63);
    }
  }
}
