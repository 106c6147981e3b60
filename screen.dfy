/** The picture a word buffer shows, and what it means for a drawing call to
    repaint a region of it.

    Every drawing primitive is specified by the set of screen pixels it sets
    to its colour; all other pixels keep their colour. Together with
    BufferExtensionality this pins down the whole new buffer. */
module Screen {
  import opened Packing
  import opened Addressing

  /** A buffer of the right length whose words all have clear padding. */
  ghost predicate WellFormed(words: seq<nat>) {
    |words| == Len && forall k :: 0 <= k < Len ==> PaddingClear(words[k])
  }

  /** The colour of pixel (x, y): `(Data[k] >> p) & 0b111`. Every
      on-screen pixel is in bounds (OnScreenInBounds), so the guard only
      spares callers that proof. */
  function PixelAt(words: seq<nat>, x: int, y: int): (c: Color)
    requires |words| == Len && OnScreen(x, y)
  {
    if InBounds(x, y) then Slot(words[WordIndex(x, y)], BitOffset(x, y) / BitsPerPix) else 0
  }

  /** `after` shows `col` on every pixel of `region` and what `before`
      showed on every other pixel. */
  ghost predicate Repaints(before: seq<nat>, after: seq<nat>, region: iset<(int, int)>, col: Color) {
    |before| == Len && |after| == Len &&
    forall x, y {:trigger PixelAt(after, x, y)} {:trigger PixelAt(before, x, y)} | OnScreen(x, y) ::
      PixelAt(after, x, y) == if (x, y) in region then col else PixelAt(before, x, y)
  }

  /** The pixels of slots [lo, hi) of word k. */
  ghost function WordRegion(k: int, lo: int, hi: int): iset<(int, int)> {
    iset q: (int, int) | OnScreen(q.0, q.1) && WordIndex(q.0, q.1) == k &&
                         lo <= BitOffset(q.0, q.1) / BitsPerPix < hi
  }

  /** Replacing word k by one that holds `col` in slots [lo, hi) and the old
      pixels elsewhere repaints exactly those slots' pixels. */
  lemma WriteWord(before: seq<nat>, k: int, w: nat, lo: int, hi: int, col: Color)
    requires |before| == Len && 0 <= k < Len
    requires forall s :: 0 <= s < SlotsPerWord ==>
               Slot(w, s) == if lo <= s < hi then col else Slot(before[k], s)
    ensures Repaints(before, before[k := w], WordRegion(k, lo, hi), col)
  {
    forall x, y | OnScreen(x, y)
      ensures PixelAt(before[k := w], x, y) ==
              if (x, y) in WordRegion(k, lo, hi) then col else PixelAt(before, x, y)
    {
      AddressOnScreen(x, y);
    }
  }

  /** The pixels of every slot of the words k with lo <= k < hi. */
  ghost function WordsRegion(lo: int, hi: int): iset<(int, int)> {
    iset q: (int, int) | OnScreen(q.0, q.1) && lo <= WordIndex(q.0, q.1) < hi
  }

  /** Merging a pair of span masks for [lo, hi) into word k (the partial
      word writes of draw_fastHline) repaints those slots' pixels. */
  lemma WriteSpan(before: seq<nat>, k: int, off: nat, colm: nat, lo: int, hi: int, col: Color)
    requires WellFormed(before) && 0 <= k < Len
    requires Span(off, lo, hi, 7) && Span(colm, lo, hi, col)
    ensures var after := before[k := Merge(before[k], off, colm)];
            WellFormed(after) && Repaints(before, after, WordRegion(k, lo, hi), col)
  {
    var w := Merge(before[k], off, colm);
    forall s | 0 <= s < SlotsPerWord
      ensures Slot(w, s) == if lo <= s < hi then col else Slot(before[k], s)
    {
      MergeSpan(before[k], off, colm, lo, hi, col, s);
    }
    MergeSpan(before[k], off, colm, lo, hi, col, 0);
    WriteWord(before, k, w, lo, hi, col);
  }

  /** Storing a word that holds `col` in all ten slots repaints the whole
      word. */
  lemma FillWord(before: seq<nat>, k: int, mask: nat, col: Color)
    requires WellFormed(before) && 0 <= k < Len && Span(mask, 0, SlotsPerWord, col)
    ensures WellFormed(before[k := mask])
    ensures Repaints(before, before[k := mask], WordRegion(k, 0, SlotsPerWord), col)
  {
    WriteWord(before, k, mask, 0, SlotsPerWord, col);
  }

  /** Word i together with the words [lo, i) are the words [lo, i + 1). */
  lemma WordsStep(lo: int, i: int, x: int, y: int)
    requires lo <= i && OnScreen(x, y)
    ensures (x, y) in WordsRegion(lo, i) + WordRegion(i, 0, SlotsPerWord) <==>
            (x, y) in WordsRegion(lo, i + 1)
  {
  }

  /** The draw_pix word update repaints the one pixel the call addresses. */
  lemma Poke(before: seq<nat>, x: int, y: int, col: Color)
    requires WellFormed(before) && InBounds(x, y)
    ensures var k, p := WordIndex(x, y), BitOffset(x, y);
            var after := before[k := Merge(before[k], Shl(7, p), Shl(col, p))];
            WellFormed(after) && Repaints(before, after, iset{Alias(x, y)}, col)
  {
    var k, p := WordIndex(x, y), BitOffset(x, y);
    var s := p / BitsPerPix;
    var w := Merge(before[k], Shl(7, p), Shl(col, p));
    assert p == 3 * s;
    forall t | 0 <= t < SlotsPerWord
      ensures Slot(w, t) == if s <= t < s + 1 then col else Slot(before[k], t)
    {
      PokeSlot(before[k], s, t, col);
    }
    PokeSlot(before[k], s, 0, col);
    WriteWord(before, k, w, s, s + 1, col);
    forall a, b | OnScreen(a, b)
      ensures (a, b) in WordRegion(k, s, s + 1) <==> (a, b) in iset{Alias(x, y)}
    {
      SlotHome(k, s);
      var q := PixelOfSlot(k, s);
      if WordIndex(a, b) == k && BitOffset(a, b) / BitsPerPix == s {
        AddressInjective(a, b, q.0, q.1);
      }
    }
    SameRegion(before, before[k := w], WordRegion(k, s, s + 1), iset{Alias(x, y)}, col);
  }

  /** Repainting R1 and then R2 in the same colour repaints their union. */
  lemma RepaintsThen(a: seq<nat>, b: seq<nat>, c: seq<nat>,
                     r1: iset<(int, int)>, r2: iset<(int, int)>, col: Color)
    requires Repaints(a, b, r1, col) && Repaints(b, c, r2, col)
    ensures Repaints(a, c, r1 + r2, col)
  {
  }

  /** Only the on-screen part of a region matters. */
  lemma SameRegion(a: seq<nat>, b: seq<nat>, r1: iset<(int, int)>, r2: iset<(int, int)>, col: Color)
    requires Repaints(a, b, r1, col)
    requires forall x, y | OnScreen(x, y) :: (x, y) in r1 <==> (x, y) in r2
    ensures Repaints(a, b, r2, col)
  {
  }

  /** A buffer with clear padding is determined by the picture it shows. */
  lemma BufferExtensionality(a: seq<nat>, b: seq<nat>)
    requires WellFormed(a) && WellFormed(b)
    requires forall x, y | OnScreen(x, y) :: PixelAt(a, x, y) == PixelAt(b, x, y)
    ensures a == b
  {
    forall k | 0 <= k < Len
      ensures a[k] == b[k]
    {
      forall s | 0 <= s < SlotsPerWord
        ensures Slot(a[k], s) == Slot(b[k], s)
      {
        SlotHome(k, s);
        var q := PixelOfSlot(k, s);
        assert PixelAt(a, q.0, q.1) == PixelAt(b, q.0, q.1);
      }
      WordExtensionality(a[k], b[k]);
    }
  }

  /** A repaint specification leaves no freedom: two well-formed buffers that
      repaint the same region of the same buffer in the same colour are
      equal. */
  lemma RepaintsDeterminate(before: seq<nat>, a1: seq<nat>, a2: seq<nat>,
                            region: iset<(int, int)>, col: Color)
    requires WellFormed(a1) && WellFormed(a2)
    requires Repaints(before, a1, region, col) && Repaints(before, a2, region, col)
    ensures a1 == a2
  {
    BufferExtensionality(a1, a2);
  }
}
