/** Which words and slots the two line routines write, in terms of the
    pixels those slots show.

    draw_fastHline writes the tail slots of the first word of the line, the
    head slots of its last word and every slot of the words between them;
    draw_fastVline writes one slot per row, stepping the word index by the
    row stride NWord. */
module Lines {
  import opened Packing
  import opened Addressing
  import opened Screen

  /** The first word of a multi-word line holds the line's pixels from x1
      to the end of x1's ten-pixel group. */
  lemma FirstWordCover(x1: int, y: int, a: int, b: int)
    requires OnScreen(x1, y) && OnScreen(a, b)
    ensures (a, b) in WordRegion(WordIndex(x1, y), BitOffset(x1, y) / BitsPerPix, SlotsPerWord) <==>
            b == y && a / SlotsPerWord == x1 / SlotsPerWord && x1 <= a
  {
    AddressOnScreen(x1, y);
    AddressOnScreen(a, b);
    SameWord(x1, y, a, b);
  }

  /** The last word of a multi-word line holds the line's pixels from the
      start of x2's group up to but excluding x2. */
  lemma LastWordCover(x2: int, y: int, a: int, b: int)
    requires OnScreen(x2, y) && OnScreen(a, b)
    ensures (a, b) in WordRegion(WordIndex(x2, y), 0, BitOffset(x2, y) / BitsPerPix) <==>
            b == y && a / SlotsPerWord == x2 / SlotsPerWord && a < x2
  {
    AddressOnScreen(x2, y);
    AddressOnScreen(a, b);
    SameWord(x2, y, a, b);
  }

  /** The word after the first one, wrapped to 0 past the end of the buffer
      as draw_fastHline does. */
  function NextWord(k: int): (i: int)
    ensures 0 <= k < Len ==> 0 <= i < Len
  {
    if k + 1 > Len - 1 then 0 else k + 1
  }

  /** The words strictly between the first and last words of a line on row
      y hold exactly the pixels of the groups strictly between theirs. */
  lemma MiddleWordsCover(x1: int, x2: int, y: int, a: int, b: int)
    requires OnScreen(x1, y) && OnScreen(x2, y) && OnScreen(a, b)
    requires x1 / SlotsPerWord < x2 / SlotsPerWord
    ensures (a, b) in WordsRegion(NextWord(WordIndex(x1, y)), WordIndex(x2, y)) <==>
            b == y && x1 / SlotsPerWord < a / SlotsPerWord < x2 / SlotsPerWord
  {
    AddressOnScreen(x1, y);
    AddressOnScreen(x2, y);
    AddressOnScreen(a, b);
  }

  /** The three pieces draw_fastHline writes for a line spanning more than
      one word make up the pixels [x1, x2) of row y. */
  lemma HlineCover(x1: int, x2: int, y: int, a: int, b: int)
    requires OnScreen(x1, y) && OnScreen(x2, y) && OnScreen(a, b) && x1 <= x2
    requires WordIndex(x1, y) != WordIndex(x2, y)
    ensures var k1, k2 := WordIndex(x1, y), WordIndex(x2, y);
            (a, b) in WordRegion(k1, BitOffset(x1, y) / BitsPerPix, SlotsPerWord) +
                      WordRegion(k2, 0, BitOffset(x2, y) / BitsPerPix) +
                      WordsRegion(NextWord(k1), k2)
            <==> b == y && x1 <= a < x2
  {
    SameWord(x1, y, x2, y);
    assert x1 / SlotsPerWord < x2 / SlotsPerWord;
    FirstWordCover(x1, y, a, b);
    LastWordCover(x2, y, a, b);
    MiddleWordsCover(x1, x2, y, a, b);
  }

  /** For a line spanning more than one word the middle run of words starts
      no later than the last word: the first word comes before the last or
      is the buffer's final word (which wraps to word 0). */
  lemma MiddleRun(x1: int, x2: int, y: int)
    requires OnScreen(x1, y) && OnScreen(x2, y) && x1 <= x2
    requires WordIndex(x1, y) != WordIndex(x2, y)
    ensures NextWord(WordIndex(x1, y)) <= WordIndex(x2, y) < Len
  {
    AddressOnScreen(x1, y);
    AddressOnScreen(x2, y);
  }

  /** Stepping NWord words from the word of (x, y), modulo the buffer
      length, reaches the word of (x, y + i) at the same bit offset. */
  lemma VlineStride(x: int, y: int, i: int)
    requires OnScreen(x, y) && OnScreen(x, y + i) && i >= 0
    ensures (WordIndex(x, y) + i * NWord) % Len == WordIndex(x, y + i)
    ensures BitOffset(x, y + i) == BitOffset(x, y)
  {
    AddressOnScreen(x, y);
    AddressOnScreen(x, y + i);
    BufferLength();
    assert i * NWord == 64 * i;
    var k := WordIndex(x, y) + i * NWord;
    if y == 0 && x < SlotsPerWord && i > 0 {
      assert k == Len + (i * NWord - 1);
      WrapOnce(i * NWord - 1);
    } else {
      assert 0 <= k < Len;
      WrapOnce(k - Len);
    }
  }

  lemma WrapOnce(r: int)
    requires -Len <= r < Len
    ensures (Len + r) % Len == if r < 0 then Len + r else r
  {
  }

  /** The word index draw_fastVline computes for row y1 + i, as written:
      `k1 + i*nword`, with no reduction modulo the buffer length. */
  function VlineIndexAsWritten(x: int, y1: int, i: int): (k: int) {
    WordIndex(x, y1) + i * NWord
  }

  /** As written, a vertical line starting on one of the first ten pixels of
      row 0 writes past the end of the buffer from its second row on: for
      draw_fastVline(0, 0, 2, col) the second write goes to word 30783 of a
      30720-word buffer. */
  lemma VlineOverrun(x: int, i: int)
    requires 0 <= x < SlotsPerWord && 1 <= i < VRes
    ensures VlineIndexAsWritten(x, 0, i) >= Len
  {
    AddressOnScreen(x, 0);
  }

  lemma VlineOverrunExample()
    ensures VlineIndexAsWritten(0, 0, 1) == 30783 && 30783 >= Len
  {
    AddressOnScreen(0, 0);
  }

  /** Everywhere else the index as written is the word of (x, y1 + i): the
      code is right except for lines that start in the wrapped group. */
  lemma VlineAsWrittenElsewhere(x: int, y1: int, i: int)
    requires OnScreen(x, y1) && OnScreen(x, y1 + i) && i >= 0
    ensures VlineIndexAsWritten(x, y1, i) < Len <==> !(y1 == 0 && x < SlotsPerWord) || i == 0
    ensures VlineIndexAsWritten(x, y1, i) < Len ==> VlineIndexAsWritten(x, y1, i) == WordIndex(x, y1 + i)
  {
    AddressOnScreen(x, y1);
    AddressOnScreen(x, y1 + i);
    BufferLength();
    assert i * NWord == 64 * i;
    if y1 == 0 && x < SlotsPerWord {
      assert WordIndex(x, y1) == Len - 1;
    } else {
      assert WordIndex(x, y1) == NWord * y1 + x / SlotsPerWord - 1;
      assert WordIndex(x, y1 + i) == NWord * (y1 + i) + x / SlotsPerWord - 1;
    }
  }
}
