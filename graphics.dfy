/** The drawing routines of the firmware, as methods of the framebuffer that
    holds the packed pixel words.

    Each routine is specified by the screen region it repaints in its colour
    (Screen.Repaints), with every other pixel unchanged; the regions are the
    functions of module Shapes, and Screen.RepaintsDeterminate shows that
    such a specification fixes the whole new buffer. */
module Graphics {
  import opened Packing
  import opened Addressing
  import opened Screen
  import opened Lines
  import opened Midpoint
  import opened Shapes

  /** H_buffer_line: the 30720 words the DMA engine streams to the pixel
      state machine, ten 3-bit pixels per word. */
  class Framebuffer {
    var data: array<nat>

    ghost predicate Valid()
      reads this, data
    {
      data.Length == Len && WellFormed(data[..])
    }

    /** The buffer starts with every word zero: a black screen. */
    constructor ()
      ensures Valid() && fresh(data)
      ensures forall x, y | OnScreen(x, y) :: PixelAt(data[..], x, y) == 0
    {
      data := new nat[Len](_ => 0);
      new;
      forall x, y | OnScreen(x, y)
        ensures PixelAt(data[..], x, y) == 0
      {
        AddressOnScreen(x, y);
        SlotOfZero(BitOffset(x, y) / BitsPerPix);
      }
    }

    /** draw_pix: clears the pixel's three bits and ORs in the colour. On
        screen the pixel changed is (x, y) itself (AliasOnScreen); off screen
        it is whichever pixel shares the address. */
    method DrawPix(x: int, y: int, col: Color)
      requires Valid() && InBounds(x, y)
      modifies data
      ensures Valid()
      ensures Repaints(old(data[..]), data[..], iset{Alias(x, y)}, col)
    {
      var n := BitNumber(x, y);
      var k := if n / UsableBits > 0 then n / UsableBits - 1 else Len - 1;
      var p := n % UsableBits;
      var mask := Xor(Shl(7, p), Usable);
      Poke(data[..], x, y, col);
      data[k] := Or(And(data[k], mask), Shl(col, p));
    }

    /** fill_screen: stores the replicated colour word in every word. */
    method FillScreen(col: Color)
      requires Valid()
      modifies data
      ensures Valid()
      ensures forall x, y | OnScreen(x, y) :: PixelAt(data[..], x, y) == col
    {
      var mask := Replicate(col);
      var i := 0;
      while i < data.Length
        invariant 0 <= i <= data.Length == Len
        invariant forall j | 0 <= j < i :: data[j] == mask
      {
        data[i] := mask;
        i := i + 1;
      }
      forall x, y | OnScreen(x, y)
        ensures PixelAt(data[..], x, y) == col
      {
        AddressOnScreen(x, y);
      }
    }

    /** draw_fastHline: clamps its arguments to the screen and orders the
        ends; a line inside one word is drawn pixel by pixel, a longer one
        by a partial write of its first and last words and whole-word
        writes in between. The right end point is not drawn. */
    method DrawFastHline(x1: int, x2: int, y: int, col: Color)
      requires Valid()
      modifies data
      ensures Valid()
      ensures Repaints(old(data[..]), data[..], HlineRegion(x1, x2, y), col)
    {
      var a := ClampArg(x1, HRes - 1);
      var b := ClampArg(x2, HRes - 1);
      var row := ClampArg(y, VRes - 1);
      if b < a {
        a, b := b, a;
      }
      assert (a, b) == Ordered(x1, x2, HRes - 1) && row == Clamp(y, VRes - 1);
      var n1 := BitNumber(a, row);
      var n2 := BitNumber(b, row);
      var k1 := if n1 / UsableBits > 0 then n1 / UsableBits - 1 else Len - 1;
      var k2 := if n2 / UsableBits > 0 then n2 / UsableBits - 1 else Len - 1;
      assert k1 == WordIndex(a, row) && k2 == WordIndex(b, row);
      OnScreenInBounds(a, row);
      OnScreenInBounds(b, row);
      if k2 == k1 {
        DrawPixels(a, b, row, col);
        LinesClamped(x1, x2, y);
        return;
      }
      var p1 := n1 % UsableBits;
      var p2 := n2 % UsableBits;
      assert p1 == BitOffset(a, row) && p2 == BitOffset(b, row);
      var off1, colm1 := SpanMasks(p1 / BitsPerPix, SlotsPerWord, col);
      var mask1off := Xor(off1, Usable);
      var off2, colm2 := SpanMasks(0, p2 / BitsPerPix, col);
      var mask2off := Xor(off2, Usable);
      ghost var s0 := data[..];
      ghost var ends := WordRegion(k1, p1 / BitsPerPix, SlotsPerWord) + WordRegion(k2, 0, p2 / BitsPerPix);
      WriteSpan(s0, k1, off1, colm1, p1 / BitsPerPix, SlotsPerWord, col);
      data[k1] := Or(And(data[k1], mask1off), colm1);
      assert data[..] == s0[k1 := Merge(s0[k1], off1, colm1)];
      ghost var s1 := data[..];
      WriteSpan(s1, k2, off2, colm2, 0, p2 / BitsPerPix, col);
      data[k2] := Or(And(data[k2], mask2off), colm2);
      assert data[..] == s1[k2 := Merge(s1[k2], off2, colm2)];
      var mask := Replicate(col);
      var i := k1 + 1;
      if i > Len - 1 {
        i := 0;
      }
      MiddleRun(a, b, row);
      ghost var start := i;
      RepaintsThen(s0, s1, data[..], WordRegion(k1, p1 / BitsPerPix, SlotsPerWord),
                   WordRegion(k2, 0, p2 / BitsPerPix), col);
      ghost var s2 := data[..];
      FillWords(i, k2, mask, col);
      RepaintsThen(s0, s2, data[..], ends, WordsRegion(start, k2), col);
      HlineDone(s0, data[..], a, b, row, x1, x2, y, col);
    }

    /** The loop draw_fastHline uses for a line inside one word: draw_pix
        at every x from a up to but excluding b. */
    method DrawPixels(a: int, b: int, row: int, col: Color)
      requires Valid() && 0 <= a <= b < HRes && 0 <= row < VRes
      modifies data
      ensures Valid()
      ensures Repaints(old(data[..]), data[..], HlineRegion(a, b, row), col)
    {
      assert HlineRegion(a, a, row) == iset{};
      for i := a to b
        invariant Valid()
        invariant Repaints(old(data[..]), data[..], HlineRegion(a, i, row), col)
      {
        ghost var before := data[..];
        OnScreenInBounds(i, row);
        DrawPix(i, row, col);
        PixelStep(old(data[..]), before, data[..], a, i, row, col);
      }
    }

    /** The middle loop of draw_fastHline: stores the replicated colour word
        in words lo up to but excluding hi. */
    method FillWords(lo: int, hi: int, mask: nat, col: Color)
      requires Valid() && 0 <= lo <= hi <= Len && Span(mask, 0, SlotsPerWord, col)
      modifies data
      ensures Valid()
      ensures Repaints(old(data[..]), data[..], WordsRegion(lo, hi), col)
    {
      var i := lo;
      assert WordsRegion(lo, lo) == iset{};
      while i < hi
        invariant lo <= i <= hi && Valid()
        invariant Repaints(old(data[..]), data[..], WordsRegion(lo, i), col)
      {
        ghost var before := data[..];
        WordStep(old(data[..]), before, lo, i, mask, col);
        data[i] := mask;
        assert data[..] == before[i := mask];
        i := i + 1;
      }
    }

    /** draw_fastVline, with the word index of row y1 + i reduced modulo the
        buffer length (see Lines.VlineOverrun for the index as written):
        clamps and orders its arguments, then writes the pixel's slot in one
        word per row, NWord words apart. The lower end point is not drawn. */
    method DrawFastVline(x: int, y1: int, y2: int, col: Color)
      requires Valid()
      modifies data
      ensures Valid()
      ensures Repaints(old(data[..]), data[..], VlineRegion(x, y1, y2), col)
    {
      var cx := ClampArg(x, HRes - 1);
      var a := ClampArg(y1, VRes - 1);
      var b := ClampArg(y2, VRes - 1);
      if b < a {
        a, b := b, a;
      }
      assert (a, b) == Ordered(y1, y2, VRes - 1) && cx == Clamp(x, HRes - 1);
      DrawColumn(cx, a, b, col);
      LinesClamped(y1, y2, x);
    }

    /** The loop of draw_fastVline once its arguments are clamped and
        ordered: the pixel's slot in one word per row from a up to but
        excluding b, NWord words apart. */
    method DrawColumn(cx: int, a: int, b: int, col: Color)
      requires Valid() && 0 <= cx < HRes && 0 <= a <= b < VRes
      modifies data
      ensures Valid()
      ensures Repaints(old(data[..]), data[..], VlineRegion(cx, a, b), col)
    {
      var n1 := BitNumber(cx, a);
      var k1 := if n1 / UsableBits > 0 then n1 / UsableBits - 1 else Len - 1;
      var p1 := n1 % UsableBits;
      var nword := data.Length / VRes;
      var mask := Xor(Shl(7, p1), Usable);
      BufferLength();
      assert k1 == WordIndex(cx, a) && p1 == BitOffset(cx, a) && nword == NWord;
      for i := 0 to b - a
        invariant Valid()
        invariant Repaints(old(data[..]), data[..], VlineRegion(cx, a, a + i), col)
      {
        VlineStride(cx, a, i);
        var idx := (k1 + i * nword) % Len;
        assert idx == WordIndex(cx, a + i);
        ghost var before := data[..];
        OnScreenInBounds(cx, a + i);
        PokeWord(cx, a + i, idx, p1, mask, col);
        RowStep(old(data[..]), before, data[..], cx, a, i, col);
      }
    }

    /** The word update of draw_pix and of a row of draw_fastVline, with the
        word index k and bit offset p of (x, y) already computed. */
    method PokeWord(x: int, y: int, k: int, p: nat, mask: nat, col: Color)
      requires Valid() && InBounds(x, y) && k == WordIndex(x, y) && p == BitOffset(x, y)
      requires mask == Xor(Shl(7, p), Usable)
      modifies data
      ensures Valid()
      ensures Repaints(old(data[..]), data[..], iset{Alias(x, y)}, col)
    {
      Poke(data[..], x, y, col);
      data[k] := Or(And(data[k], mask), Shl(col, p));
    }

    /** fill_rect: one horizontal line per row index from min(y1, y2) up to
        but excluding max(y1, y2). */
    method FillRect(x1: int, y1: int, x2: int, y2: int, col: Color)
      requires Valid()
      modifies data
      ensures Valid()
      ensures Repaints(old(data[..]), data[..], FillRegion(x1, y1, x2, y2), col)
    {
      var lo := if y1 < y2 then y1 else y2;
      var hi := if y1 < y2 then y2 else y1;
      var j := lo;
      while j < hi
        invariant lo <= j <= hi && Valid()
        invariant Repaints(old(data[..]), data[..], RowsRegion(x1, x2, lo, j), col)
      {
        ghost var before := data[..];
        DrawFastHline(x1, x2, j, col);
        RepaintsThen(old(data[..]), before, data[..], RowsRegion(x1, x2, lo, j), HlineRegion(x1, x2, j), col);
        forall qx, qy | OnScreen(qx, qy)
          ensures (qx, qy) in RowsRegion(x1, x2, lo, j) + HlineRegion(x1, x2, j) <==>
                  (qx, qy) in RowsRegion(x1, x2, lo, j + 1)
        {
          RowsStep(x1, x2, lo, j, qx, qy);
        }
        SameRegion(old(data[..]), data[..], RowsRegion(x1, x2, lo, j) + HlineRegion(x1, x2, j),
                   RowsRegion(x1, x2, lo, j + 1), col);
        j := j + 1;
      }
    }

    /** draw_rect: the two horizontal sides, then the two vertical ones. */
    method DrawRect(x1: int, y1: int, x2: int, y2: int, col: Color)
      requires Valid()
      modifies data
      ensures Valid()
      ensures Repaints(old(data[..]), data[..], RectRegion(x1, y1, x2, y2), col)
    {
      ghost var s0 := data[..];
      DrawFastHline(x1, x2, y1, col);
      ghost var s1 := data[..];
      DrawFastHline(x1, x2, y2, col);
      ghost var s2 := data[..];
      RepaintsThen(s0, s1, s2, HlineRegion(x1, x2, y1), HlineRegion(x1, x2, y2), col);
      DrawFastVline(x1, y1, y2, col);
      ghost var s3 := data[..];
      RepaintsThen(s0, s2, s3, HlineRegion(x1, x2, y1) + HlineRegion(x1, x2, y2), VlineRegion(x1, y1, y2), col);
      DrawFastVline(x2, y1, y2, col);
      RepaintsThen(s0, s3, data[..], HlineRegion(x1, x2, y1) + HlineRegion(x1, x2, y2) + VlineRegion(x1, y1, y2),
                   VlineRegion(x2, y1, y2), col);
    }

    /** The four draw_pix calls of one pass of draw_circle, at the mirror
        images of the pen offsets (xp, yp): column x - xp, then column
        x + xp. */
    method PlotPass(x: int, y: int, xp: int, yp: int, col: Color)
      requires Valid()
      requires InBounds(x - xp, y + yp) && InBounds(x - xp, y - yp)
      requires InBounds(x + xp, y + yp) && InBounds(x + xp, y - yp)
      modifies data
      ensures Valid()
      ensures Repaints(old(data[..]), data[..], PairsRegion(x, y, xp, yp), col)
    {
      ghost var s0 := data[..];
      PlotPair(x - xp, y, yp, col);
      ghost var s1 := data[..];
      PlotPair(x + xp, y, yp, col);
      RepaintsThen(s0, s1, data[..], PairRegion(x - xp, y, yp), PairRegion(x + xp, y, yp), col);
    }

    /** Two draw_pix calls of a pass: rows y + yp and y - yp of column px. */
    method PlotPair(px: int, y: int, yp: int, col: Color)
      requires Valid() && InBounds(px, y + yp) && InBounds(px, y - yp)
      modifies data
      ensures Valid()
      ensures Repaints(old(data[..]), data[..], PairRegion(px, y, yp), col)
    {
      ghost var s0 := data[..];
      DrawPix(px, y + yp, col);
      ghost var s1 := data[..];
      DrawPix(px, y - yp, col);
      RepaintsThen(s0, s1, data[..], iset{Alias(px, y + yp)}, iset{Alias(px, y - yp)}, col);
      assert iset{Alias(px, y + yp)} + iset{Alias(px, y - yp)} == PairRegion(px, y, yp);
    }

    /** The two draw_fastHline calls of one pass of fill_disk: rows y + yp
        and y - yp, from column x - xp to column x + xp. */
    method DrawSpans(x: int, y: int, xp: int, yp: int, col: Color)
      requires Valid()
      modifies data
      ensures Valid()
      ensures Repaints(old(data[..]), data[..], SpansRegion(x, y, xp, yp), col)
    {
      ghost var s0 := data[..];
      DrawFastHline(x - xp, x + xp, y + yp, col);
      ghost var s1 := data[..];
      DrawFastHline(x - xp, x + xp, y - yp, col);
      RepaintsThen(s0, s1, data[..], HlineRegion(x - xp, x + xp, y + yp), HlineRegion(x - xp, x + xp, y - yp), col);
    }

    /** draw_circle: does nothing for a centre off the screen; otherwise
        plots the four mirror images of every pen of the midpoint loop. The
        caller must keep every plotted point inside the buffer
        (Shapes.FitsInBounds gives that for a circle on the screen). */
    method DrawCircle(x: int, y: int, r: int, col: Color)
      requires Valid() && (OnScreen(x, y) ==> CircleInBounds(x, y, r))
      modifies data
      ensures Valid()
      ensures !OnScreen(x, y) ==> data[..] == old(data[..])
      ensures OnScreen(x, y) ==> Repaints(old(data[..]), data[..], CircleOf(x, y, Pens(r)), col)
    {
      if x < 0 || y < 0 || x >= HRes || y >= VRes {
        return;
      }
      var xp, yp, err := 0 - r, 0, 2 - 2 * r;
      ghost var pens := Pens(r);
      ghost var i := 0;
      while true
        invariant 0 <= i < |pens| && pens[i] == Pen(xp, yp, err)
        invariant Valid() && Repaints(old(data[..]), data[..], CircleOf(x, y, pens[..i]), col)
        decreases |pens| - i
      {
        ghost var s0 := data[..];
        PassBounds(x, y, xp, yp, pens[i]);
        PlotPass(x, y, xp, yp, col);
        PassStep(old(data[..]), s0, data[..], x, y, xp, yp, pens, i, col);
        xp, yp, err := StepPen(xp, yp, err);
        NextPen(r, i, Pen(xp, yp, err));
        if xp > 0 {
          break;
        }
        i := i + 1;
      }
    }
    /** fill_disk: does nothing for a centre off the screen; otherwise
        draws the two horizontal spans of every pen of the midpoint loop,
        from column x - xp to column x + xp at rows y + yp and y - yp. The
        spans are clamped by draw_fastHline, so the disk needs no room. */
    method FillDisk(x: int, y: int, r: int, col: Color)
      requires Valid()
      modifies data
      ensures Valid()
      ensures !OnScreen(x, y) ==> data[..] == old(data[..])
      ensures OnScreen(x, y) ==> Repaints(old(data[..]), data[..], DiskOf(x, y, Pens(r)), col)
    {
      if x < 0 || y < 0 || x >= HRes || y >= VRes {
        return;
      }
      var xp, yp, err := 0 - r, 0, 2 - 2 * r;
      ghost var pens := Pens(r);
      ghost var i := 0;
      while true
        invariant 0 <= i < |pens| && pens[i] == Pen(xp, yp, err)
        invariant Valid() && Repaints(old(data[..]), data[..], DiskOf(x, y, pens[..i]), col)
        decreases |pens| - i
      {
        ghost var s0 := data[..];
        DrawSpans(x, y, xp, yp, col);
        DiskStep(old(data[..]), s0, data[..], x, y, xp, yp, pens, i, col);
        xp, yp, err := StepPen(xp, yp, err);
        NextPen(r, i, Pen(xp, yp, err));
        if xp > 0 {
          break;
        }
        i := i + 1;
      }
    }
  }

  /** The updates at the end of a pass of the midpoint loop shared by
      draw_circle and fill_disk: the y update, which may force the x update
      by zeroing e2, then the x update. */
  method StepPen(xp: int, yp: int, err: int) returns (xp': int, yp': int, err': int)
    ensures Pen(xp', yp', err') == Step(Pen(xp, yp, err))
  {
    xp', yp', err' := xp, yp, err;
    var e2 := err';
    if e2 <= yp' {
      yp' := yp' + 1;
      err' := err' + yp' * 2 + 1;
      if 0 - xp' == yp' && e2 <= xp' {
        e2 := 0;
      }
    }
    if e2 > xp' {
      xp' := xp' + 1;
      err' := err' + xp' * 2 + 1;
    }
  }

  /** The loop's control, for the pen q the pass after pen i computes: the
      loop goes on with q as the next pen, or stops after the last pen. */
  lemma NextPen(r: int, i: int, q: Pen)
    requires 0 <= i < |Pens(r)| && q == Step(Pens(r)[i])
    ensures q.xp <= 0 ==> i + 1 < |Pens(r)| && Pens(r)[i + 1] == q
    ensures q.xp > 0 ==> Pens(r)[..i + 1] == Pens(r)
  {
    PensNext(r, i);
  }

  /** The line routines' clamping of one argument: `if v < 0: v = 0`, then
      `if v > top: v = top`. */
  method ClampArg(v: int, top: int) returns (c: int)
    requires top >= 0
    ensures c == Clamp(v, top)
  {
    c := v;
    if c < 0 {
      c := 0;
    }
    if c > top {
      c := top;
    }
  }

  /** One more pixel of a line inside one word. */
  lemma PixelStep(s0: seq<nat>, s1: seq<nat>, s2: seq<nat>, a: int, i: int, row: int, col: Color)
    requires 0 <= a <= i < HRes - 1 && 0 <= row < VRes
    requires Repaints(s0, s1, HlineRegion(a, i, row), col)
    requires Repaints(s1, s2, iset{Alias(i, row)}, col)
    ensures Repaints(s0, s2, HlineRegion(a, i + 1, row), col)
  {
    AliasOnScreen(i, row);
    assert iset{Alias(i, row)} == iset{(i, row)};
    RepaintsThen(s0, s1, s2, HlineRegion(a, i, row), iset{(i, row)}, col);
    forall qx, qy | OnScreen(qx, qy)
      ensures (qx, qy) in HlineRegion(a, i, row) + iset{(i, row)} <==> (qx, qy) in HlineRegion(a, i + 1, row)
    {
      HlineGrow(a, i, row, qx, qy);
    }
    SameRegion(s0, s2, HlineRegion(a, i, row) + iset{(i, row)}, HlineRegion(a, i + 1, row), col);
  }

  /** One more whole word of a run of words. */
  lemma WordStep(s0: seq<nat>, before: seq<nat>, lo: int, i: int, mask: nat, col: Color)
    requires WellFormed(before) && lo <= i && 0 <= i < Len && Span(mask, 0, SlotsPerWord, col)
    requires Repaints(s0, before, WordsRegion(lo, i), col)
    ensures WellFormed(before[i := mask])
    ensures Repaints(s0, before[i := mask], WordsRegion(lo, i + 1), col)
  {
    FillWord(before, i, mask, col);
    RepaintsThen(s0, before, before[i := mask], WordsRegion(lo, i), WordRegion(i, 0, SlotsPerWord), col);
    forall qx, qy | OnScreen(qx, qy)
      ensures (qx, qy) in WordsRegion(lo, i) + WordRegion(i, 0, SlotsPerWord) <==> (qx, qy) in WordsRegion(lo, i + 1)
    {
      WordsStep(lo, i, qx, qy);
    }
    SameRegion(s0, before[i := mask], WordsRegion(lo, i) + WordRegion(i, 0, SlotsPerWord), WordsRegion(lo, i + 1), col);
  }

  /** The pieces of a multi-word line make up the clamped line. */
  lemma HlineDone(s0: seq<nat>, s: seq<nat>, a: int, b: int, row: int, x1: int, x2: int, y: int, col: Color)
    requires (a, b) == Ordered(x1, x2, HRes - 1) && row == Clamp(y, VRes - 1)
    requires WordIndex(a, row) != WordIndex(b, row)
    requires var k1, k2 := WordIndex(a, row), WordIndex(b, row);
             Repaints(s0, s, WordRegion(k1, BitOffset(a, row) / BitsPerPix, SlotsPerWord) +
                             WordRegion(k2, 0, BitOffset(b, row) / BitsPerPix) +
                             WordsRegion(NextWord(k1), k2), col)
    ensures Repaints(s0, s, HlineRegion(x1, x2, y), col)
  {
    var k1, k2 := WordIndex(a, row), WordIndex(b, row);
    var pieces := WordRegion(k1, BitOffset(a, row) / BitsPerPix, SlotsPerWord) +
                  WordRegion(k2, 0, BitOffset(b, row) / BitsPerPix) +
                  WordsRegion(NextWord(k1), k2);
    forall qx, qy | OnScreen(qx, qy)
      ensures (qx, qy) in pieces <==> (qx, qy) in HlineRegion(x1, x2, y)
    {
      HlineCover(a, b, row, qx, qy);
    }
    SameRegion(s0, s, pieces, HlineRegion(x1, x2, y), col);
  }

  /** One more row of a vertical line. */
  lemma RowStep(s0: seq<nat>, s1: seq<nat>, s2: seq<nat>, cx: int, a: int, i: int, col: Color)
    requires OnScreen(cx, a) && a + i < VRes - 1 && i >= 0
    requires Repaints(s0, s1, VlineRegion(cx, a, a + i), col)
    requires Repaints(s1, s2, iset{Alias(cx, a + i)}, col)
    ensures Repaints(s0, s2, VlineRegion(cx, a, a + i + 1), col)
  {
    AliasOnScreen(cx, a + i);
    assert iset{Alias(cx, a + i)} == iset{(cx, a + i)};
    RepaintsThen(s0, s1, s2, VlineRegion(cx, a, a + i), iset{(cx, a + i)}, col);
    forall qx, qy | OnScreen(qx, qy)
      ensures (qx, qy) in VlineRegion(cx, a, a + i) + iset{(cx, a + i)} <==> (qx, qy) in VlineRegion(cx, a, a + i + 1)
    {
      VlineGrow(cx, a, a + i, qx, qy);
    }
    SameRegion(s0, s2, VlineRegion(cx, a, a + i) + iset{(cx, a + i)}, VlineRegion(cx, a, a + i + 1), col);
  }

  /** One more pass of draw_circle. */
  lemma PassStep(s0: seq<nat>, s1: seq<nat>, s2: seq<nat>, x: int, y: int, xp: int, yp: int,
                 pens: seq<Pen>, i: int, col: Color)
    requires 0 <= i < |pens| && pens[i].xp == xp && pens[i].yp == yp
    requires Repaints(s0, s1, CircleOf(x, y, pens[..i]), col)
    requires Repaints(s1, s2, PairsRegion(x, y, xp, yp), col)
    ensures Repaints(s0, s2, CircleOf(x, y, pens[..i + 1]), col)
  {
    assert pens[..i + 1][..i] == pens[..i];
    RepaintsThen(s0, s1, s2, CircleOf(x, y, pens[..i]), PassRegion(x, y, pens[i]), col);
  }

  /** One more pass of fill_disk. */
  lemma DiskStep(s0: seq<nat>, s1: seq<nat>, s2: seq<nat>, x: int, y: int, xp: int, yp: int,
                 pens: seq<Pen>, i: int, col: Color)
    requires 0 <= i < |pens| && pens[i].xp == xp && pens[i].yp == yp
    requires Repaints(s0, s1, DiskOf(x, y, pens[..i]), col)
    requires Repaints(s1, s2, SpansRegion(x, y, xp, yp), col)
    ensures Repaints(s0, s2, DiskOf(x, y, pens[..i + 1]), col)
  {
    assert pens[..i + 1][..i] == pens[..i];
    RepaintsThen(s0, s1, s2, DiskOf(x, y, pens[..i]), SpanRegion(x, y, pens[i]), col);
  }

  /** The four draw_pix calls of a pass of a pen whose marks are in bounds
      are in bounds. */
  lemma PassBounds(x: int, y: int, xp: int, yp: int, p: Pen)
    requires MarksInBounds(x, y, p) && p.xp == xp && p.yp == yp
    ensures InBounds(x - xp, y + yp) && InBounds(x - xp, y - yp)
    ensures InBounds(x + xp, y + yp) && InBounds(x + xp, y - yp)
  {
  }
}
