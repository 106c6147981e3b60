/** The screen regions the drawing primitives repaint, as functions of their
    arguments, and what can be said about those regions. */
module Shapes {
  import Packing
  import opened Addressing
  import opened Midpoint

  /** The firmware's argument clamping: `if v < 0: v = 0` then
      `if v > top: v = top`. */
  function Clamp(v: int, top: int): (c: int)
    requires top >= 0
    ensures 0 <= c <= top
    ensures 0 <= v <= top ==> c == v
    ensures v < 0 ==> c == 0
    ensures v > top ==> c == top
  {
    if v < 0 then 0 else if v > top then top else v
  }

  /** Both ends clamped to [0, top] and put in increasing order: the
      half-open span [lo, hi) a line fills. */
  function Ordered(v1: int, v2: int, top: int): (span: (int, int))
    requires top >= 0
    ensures 0 <= span.0 <= span.1 <= top
    ensures {span.0, span.1} == {Clamp(v1, top), Clamp(v2, top)}
  {
    var a, b := Clamp(v1, top), Clamp(v2, top);
    if b < a then (b, a) else (a, b)
  }

  /** Pixels draw_fastHline(x1, x2, y, col) sets. */
  ghost function HlineRegion(x1: int, x2: int, y: int): iset<(int, int)> {
    var span := Ordered(x1, x2, HRes - 1);
    iset q: (int, int) | q.1 == Clamp(y, VRes - 1) && span.0 <= q.0 < span.1
  }

  /** Pixels draw_fastVline(x, y1, y2, col) sets (with the word index taken
      modulo the buffer length, see the Vline finding). */
  ghost function VlineRegion(x: int, y1: int, y2: int): iset<(int, int)> {
    var span := Ordered(y1, y2, VRes - 1);
    iset q: (int, int) | q.0 == Clamp(x, HRes - 1) && span.0 <= q.1 < span.1
  }

  /** Pixels fill_rect sets: draw_fastHline(x1, x2, j, col) for every j from
      min(y1, y2) up to but excluding max(y1, y2); the row is clamped by
      draw_fastHline, so rows above or below the screen fold onto its edge
      rows. */
  ghost function FillRegion(x1: int, y1: int, x2: int, y2: int): iset<(int, int)> {
    RowsRegion(x1, x2, if y1 < y2 then y1 else y2, if y1 < y2 then y2 else y1)
  }

  /** draw_fastHline(x1, x2, j, col) for m <= j < n. */
  ghost function RowsRegion(x1: int, x2: int, m: int, n: int): iset<(int, int)> {
    var span := Ordered(x1, x2, HRes - 1);
    iset q: (int, int) | m < n && Clamp(m, VRes - 1) <= q.1 <= Clamp(n - 1, VRes - 1) &&
                         span.0 <= q.0 < span.1
  }

  /** Pixels draw_rect sets: two horizontal and two vertical lines. */
  ghost function RectRegion(x1: int, y1: int, x2: int, y2: int): iset<(int, int)> {
    HlineRegion(x1, x2, y1) + HlineRegion(x1, x2, y2) +
    VlineRegion(x1, y1, y2) + VlineRegion(x2, y1, y2)
  }

  /** The four draw_pix calls of one pass of draw_circle, in order. */
  function Marks(x: int, y: int, p: Pen): (m: seq<(int, int)>) {
    [(x - p.xp, y + p.yp), (x - p.xp, y - p.yp), (x + p.xp, y + p.yp), (x + p.xp, y - p.yp)]
  }

  /** The four draw_pix calls of a pass write inside the buffer. */
  predicate MarksInBounds(x: int, y: int, p: Pen) {
    var m := Marks(x, y, p);
    InBounds(m[0].0, m[0].1) && InBounds(m[1].0, m[1].1) &&
    InBounds(m[2].0, m[2].1) && InBounds(m[3].0, m[3].1)
  }

  predicate AllMarksInBounds(x: int, y: int, pens: seq<Pen>) {
    forall i | 0 <= i < |pens| :: MarksInBounds(x, y, pens[i])
  }

  /** Every draw_pix that draw_circle(x, y, r, col) makes writes inside the
      buffer: what the firmware needs of its caller, since neither function
      clamps. */
  predicate CircleInBounds(x: int, y: int, r: int) {
    AllMarksInBounds(x, y, Pens(r))
  }

  /** Pixels one pass of draw_circle sets: the pixels its four marks
      address (meaningful when the marks are in bounds, see
      MarksInBounds). */
  ghost function PassRegion(x: int, y: int, p: Pen): iset<(int, int)> {
    PairsRegion(x, y, p.xp, p.yp)
  }

  /** The two pairs of a pass with pen offsets (xp, yp): columns x - xp and
      x + xp. */
  ghost function PairsRegion(x: int, y: int, xp: int, yp: int): iset<(int, int)> {
    PairRegion(x - xp, y, yp) + PairRegion(x + xp, y, yp)
  }

  /** Pixels two draw_pix calls of a pass set: rows y + yp and y - yp of
      column px. */
  ghost function PairRegion(px: int, y: int, yp: int): iset<(int, int)> {
    iset{Alias(px, y + yp), Alias(px, y - yp)}
  }

  /** Pixels draw_circle sets in the passes for the pens `pens`; the whole
      circle is CircleOf(x, y, Pens(r)). */
  ghost function CircleOf(x: int, y: int, pens: seq<Pen>): iset<(int, int)>
    decreases |pens|
  {
    if |pens| == 0 then iset{}
    else CircleOf(x, y, pens[..|pens| - 1]) + PassRegion(x, y, pens[|pens| - 1])
  }

  /** The marks of the passes for `pens`, as plotted: what draw_circle sets
      when no mark is aliased. */
  ghost function MarksOf(x: int, y: int, pens: seq<Pen>): iset<(int, int)>
    decreases |pens|
  {
    if |pens| == 0 then iset{}
    else
      var m := Marks(x, y, pens[|pens| - 1]);
      MarksOf(x, y, pens[..|pens| - 1]) + iset{m[0], m[1], m[2], m[3]}
  }

  /** Pixels one pass of fill_disk sets: two horizontal spans. */
  ghost function SpanRegion(x: int, y: int, p: Pen): iset<(int, int)> {
    SpansRegion(x, y, p.xp, p.yp)
  }

  /** The two spans of a pass with pen offsets (xp, yp). */
  ghost function SpansRegion(x: int, y: int, xp: int, yp: int): iset<(int, int)> {
    HlineRegion(x - xp, x + xp, y + yp) + HlineRegion(x - xp, x + xp, y - yp)
  }

  /** Pixels fill_disk sets in the passes for `pens`; the whole disk is
      DiskOf(x, y, Pens(r)). */
  ghost function DiskOf(x: int, y: int, pens: seq<Pen>): iset<(int, int)>
    decreases |pens|
  {
    if |pens| == 0 then iset{}
    else DiskOf(x, y, pens[..|pens| - 1]) + SpanRegion(x, y, pens[|pens| - 1])
  }

  /** The circle or disk fits on the screen. */
  predicate Fits(x: int, y: int, r: int) {
    r >= 0 && OnScreen(x - r, y - r) && OnScreen(x + r, y + r)
  }

  // Lines

  /** The end points of a line may be given in either order. */
  lemma LineSymmetric(x1: int, x2: int, y: int)
    ensures Ordered(x1, x2, HRes - 1) == Ordered(x2, x1, HRes - 1)
    ensures HlineRegion(x1, x2, y) == HlineRegion(x2, x1, y)
    ensures VlineRegion(y, x1, x2) == VlineRegion(y, x2, x1)
  {
    assert Ordered(x1, x2, VRes - 1) == Ordered(x2, x1, VRes - 1);
  }

  /** Clamping and ordering the arguments first does not change the
      line. */
  lemma LinesClamped(x1: int, x2: int, y: int)
    ensures var span, row := Ordered(x1, x2, HRes - 1), Clamp(y, VRes - 1);
            HlineRegion(span.0, span.1, row) == HlineRegion(x1, x2, y)
    ensures var span, col := Ordered(x1, x2, VRes - 1), Clamp(y, HRes - 1);
            VlineRegion(col, span.0, span.1) == VlineRegion(y, x1, x2)
  {
  }

  /** For on-screen arguments a horizontal line covers exactly [x1, x2) of
      row y: the right end point is not drawn. */
  lemma HlineExact(x1: int, x2: int, y: int, a: int, b: int)
    requires 0 <= x1 <= x2 < HRes && 0 <= y < VRes
    ensures (a, b) in HlineRegion(x1, x2, y) <==> b == y && x1 <= a < x2
  {
  }

  /** Extending an on-screen horizontal line by one pixel to the right. */
  lemma HlineGrow(a: int, i: int, row: int, qx: int, qy: int)
    requires 0 <= a <= i < HRes - 1 && 0 <= row < VRes
    ensures (qx, qy) in HlineRegion(a, i + 1, row) <==> (qx, qy) in HlineRegion(a, i, row) || (qx, qy) == (i, row)
  {
    HlineExact(a, i, row, qx, qy);
    HlineExact(a, i + 1, row, qx, qy);
  }

  /** Extending an on-screen vertical line by one pixel downwards. */
  lemma VlineGrow(x: int, a: int, i: int, qx: int, qy: int)
    requires 0 <= x < HRes && 0 <= a <= i < VRes - 1
    ensures (qx, qy) in VlineRegion(x, a, i + 1) <==> (qx, qy) in VlineRegion(x, a, i) || (qx, qy) == (x, i)
  {
  }

  /** No horizontal line, and so no filled rectangle or disk row, ever sets
      the last column. */
  lemma HlineMissesLastColumn(x1: int, x2: int, y: int, b: int)
    ensures (HRes - 1, b) !in HlineRegion(x1, x2, y)
  {
  }

  // Rectangles

  /** fill_rect gives the same picture with y1 and y2, or x1 and x2,
      exchanged. */
  lemma FillSymmetric(x1: int, y1: int, x2: int, y2: int)
    ensures FillRegion(x1, y1, x2, y2) == FillRegion(x1, y2, x2, y1)
    ensures FillRegion(x1, y1, x2, y2) == FillRegion(x2, y1, x1, y2)
  {
    LineSymmetric(x1, x2, y1);
  }

  /** The closed form of fill_rect's region agrees with its definition as
      one horizontal line per row index j in [m, n). */
  lemma RowsAreLines(x1: int, x2: int, m: int, n: int, a: int, b: int)
    ensures (a, b) in RowsRegion(x1, x2, m, n) <==>
            exists j :: m <= j < n && (a, b) in HlineRegion(x1, x2, j)
  {
    if (a, b) in RowsRegion(x1, x2, m, n) {
      var j := if b == Clamp(m, VRes - 1) then m else if b == Clamp(n - 1, VRes - 1) then n - 1 else b;
      assert (a, b) in HlineRegion(x1, x2, j);
    }
  }

  /** Adding row n to the rows [m, n) of fill_rect. */
  lemma RowsStep(x1: int, x2: int, m: int, n: int, a: int, b: int)
    requires m <= n
    ensures (a, b) in RowsRegion(x1, x2, m, n + 1) <==>
            (a, b) in RowsRegion(x1, x2, m, n) || (a, b) in HlineRegion(x1, x2, n)
  {
  }

  /** A rectangle wholly above the screen still shows as its clamped line on
      row 0. */
  lemma FillAboveScreen(x1: int, y1: int, x2: int, y2: int, a: int)
    requires y1 < y2 <= 0 && 0 <= x1 <= a < x2 < HRes
    ensures (a, 0) in FillRegion(x1, y1, x2, y2)
  {
  }

  /** draw_rect's outline misses its corner (x2, y2): both line kinds are
      half-open. */
  lemma RectMissesCorner(x1: int, y1: int, x2: int, y2: int)
    requires 0 <= x1 < x2 < HRes && 0 <= y1 < y2 < VRes
    ensures (x2, y2) !in RectRegion(x1, y1, x2, y2)
    ensures (x1, y1) in RectRegion(x1, y1, x2, y2)
    ensures (x2, y1) in RectRegion(x1, y1, x2, y2)
    ensures (x1, y2) in RectRegion(x1, y1, x2, y2)
  {
  }

  // Circles

  /** Every pen's offsets are bounded by r. */
  predicate PensBounded(r: int, pens: seq<Pen>) {
    forall i | 0 <= i < |pens| :: -r <= pens[i].xp <= r && 0 <= pens[i].yp <= r
  }

  lemma AllPensBounded(r: int)
    requires r >= 0
    ensures PensBounded(r, Pens(r))
  {
    forall i | 0 <= i < |Pens(r)|
      ensures -r <= Pens(r)[i].xp <= r && 0 <= Pens(r)[i].yp <= r
    {
      PenBounds(r, i);
    }
  }

  /** Every pen is near the circle. */
  lemma AllPensNear(r: int)
    requires r >= 1
    ensures forall i | 0 <= i < |Pens(r)| :: Near(r, Pens(r)[i])
  {
    forall i | 0 <= i < |Pens(r)|
      ensures Near(r, Pens(r)[i])
    {
      PensNear(r, i);
    }
  }

  /** A pen bounded by r plots its marks within the circle's bounding box,
      so on screen when the circle fits. */
  lemma MarksOnScreen(x: int, y: int, r: int, p: Pen)
    requires Fits(x, y, r) && -r <= p.xp <= r && 0 <= p.yp <= r
    ensures var m := Marks(x, y, p);
            OnScreen(m[0].0, m[0].1) && OnScreen(m[1].0, m[1].1) &&
            OnScreen(m[2].0, m[2].1) && OnScreen(m[3].0, m[3].1)
  {
  }

  /** A pass whose marks are all on screen sets exactly those marks. */
  lemma PassOnScreen(x: int, y: int, p: Pen)
    requires var m := Marks(x, y, p);
             OnScreen(m[0].0, m[0].1) && OnScreen(m[1].0, m[1].1) &&
             OnScreen(m[2].0, m[2].1) && OnScreen(m[3].0, m[3].1)
    ensures MarksInBounds(x, y, p)
    ensures var m := Marks(x, y, p);
            PassRegion(x, y, p) == iset{m[0], m[1], m[2], m[3]}
  {
    var m := Marks(x, y, p);
    AliasOnScreen(m[0].0, m[0].1);
    AliasOnScreen(m[1].0, m[1].1);
    AliasOnScreen(m[2].0, m[2].1);
    AliasOnScreen(m[3].0, m[3].1);
    assert PairRegion(x - p.xp, y, p.yp) == iset{m[0], m[1]};
    assert PairRegion(x + p.xp, y, p.yp) == iset{m[2], m[3]};
  }

  /** Bounded pens plot only on-screen points when the circle fits. */
  lemma BoundedInBounds(x: int, y: int, r: int, pens: seq<Pen>)
    requires Fits(x, y, r) && PensBounded(r, pens)
    ensures AllMarksInBounds(x, y, pens)
  {
    forall i | 0 <= i < |pens|
      ensures MarksInBounds(x, y, pens[i])
    {
      MarksOnScreen(x, y, r, pens[i]);
      PassOnScreen(x, y, pens[i]);
    }
  }

  /** With every mark on screen, draw_circle sets exactly the marks it
      plots. */
  lemma {:induction false} CircleOfFits(x: int, y: int, r: int, pens: seq<Pen>)
    requires Fits(x, y, r) && PensBounded(r, pens)
    ensures AllMarksInBounds(x, y, pens)
    ensures CircleOf(x, y, pens) == MarksOf(x, y, pens)
    decreases |pens|
  {
    BoundedInBounds(x, y, r, pens);
    if |pens| > 0 {
      var p := pens[|pens| - 1];
      var front := pens[..|pens| - 1];
      assert PensBounded(r, front) by {
        assert forall i | 0 <= i < |front| :: front[i] == pens[i];
      }
      CircleOfFits(x, y, r, front);
      MarksOnScreen(x, y, r, p);
      PassOnScreen(x, y, p);
    }
  }

  /** A fitting circle needs nothing more of the caller, and no mark is
      aliased. */
  lemma FitsInBounds(x: int, y: int, r: int)
    requires Fits(x, y, r)
    ensures CircleInBounds(x, y, r)
    ensures CircleOf(x, y, Pens(r)) == MarksOf(x, y, Pens(r))
  {
    AllPensBounded(r);
    CircleOfFits(x, y, r, Pens(r));
  }

  /** Only the centre is checked: a circle centred on the last pixel with
      radius 11 makes a draw_pix past the end of the buffer. */
  lemma CentreCheckNotEnough()
    ensures OnScreen(HRes - 1, VRes - 1) && !CircleInBounds(HRes - 1, VRes - 1, 11)
  {
    assert Pens(11)[0] == Start(11);
    assert Marks(HRes - 1, VRes - 1, Pens(11)[0])[0] == (HRes - 1 + 11, VRes - 1);
  }

  /** The marks of pens[i] are among the marks plotted for `pens`. */
  lemma {:induction false} MarksKept(x: int, y: int, pens: seq<Pen>, i: int, j: int)
    requires 0 <= i < |pens| && 0 <= j < 4
    ensures Marks(x, y, pens[i])[j] in MarksOf(x, y, pens)
    decreases |pens|
  {
    var front := pens[..|pens| - 1];
    if i < |front| {
      MarksKept(x, y, front, i, j);
      assert front[i] == pens[i];
    }
  }

  /** d = v or d = -v implies d^2 = v^2. */
  lemma SquareAbs(d: int, v: int)
    requires d == v || d == -v
    ensures d * d == v * v
  {
    if d == -v {
      assert d * d == (-v) * (-v);
    }
  }

  /** A mark of a near pen is near the circle. */
  lemma PenMarkNear(r: int, p: Pen, d: int, e: int)
    requires Near(r, p) && (d == p.xp || d == -p.xp) && (e == p.yp || e == -p.yp)
    ensures -r < d * d + e * e - r * r < r
  {
    SquareAbs(d, p.xp);
    SquareAbs(e, p.yp);
  }

  /** Every mark of near pens lies within half a pixel of the circle. */
  lemma {:induction false} MarksNear(x: int, y: int, r: int, pens: seq<Pen>, a: int, b: int)
    requires forall i | 0 <= i < |pens| :: Near(r, pens[i])
    requires (a, b) in MarksOf(x, y, pens)
    ensures -r < (a - x) * (a - x) + (b - y) * (b - y) - r * r < r
    decreases |pens|
  {
    var p := pens[|pens| - 1];
    var front := pens[..|pens| - 1];
    if (a, b) in MarksOf(x, y, front) {
      assert forall i | 0 <= i < |front| :: front[i] == pens[i];
      MarksNear(x, y, r, front, a, b);
    } else {
      assert a - x == p.xp || a - x == -p.xp;
      assert b - y == p.yp || b - y == -p.yp;
      PenMarkNear(r, p, a - x, b - y);
    }
  }

  /** Every pixel a fitting circle sets lies within half a pixel of the
      true circle: |dx^2 + dy^2 - r^2| < r. */
  lemma CircleNear(x: int, y: int, r: int, a: int, b: int)
    requires Fits(x, y, r) && r >= 1 && (a, b) in CircleOf(x, y, Pens(r))
    ensures -r < (a - x) * (a - x) + (b - y) * (b - y) - r * r < r
  {
    FitsInBounds(x, y, r);
    AllPensNear(r);
    MarksNear(x, y, r, Pens(r), a, b);
  }

  /** The first pen (-r, 0) plots (x -/+ r, y) and a last pen (0, r)
      plots (x, y -/+ r). */
  lemma MarksExtremes(x: int, y: int, r: int, pens: seq<Pen>)
    requires |pens| >= 1 && pens[0].xp == -r && pens[0].yp == 0
    requires pens[|pens| - 1].xp == 0 && pens[|pens| - 1].yp == r
    ensures (x - r, y) in MarksOf(x, y, pens) && (x + r, y) in MarksOf(x, y, pens)
    ensures (x, y - r) in MarksOf(x, y, pens) && (x, y + r) in MarksOf(x, y, pens)
  {
    MarksKept(x, y, pens, 0, 0);
    MarksKept(x, y, pens, 0, 2);
    MarksKept(x, y, pens, |pens| - 1, 0);
    MarksKept(x, y, pens, |pens| - 1, 1);
  }

  /** The four extreme points of a fitting circle are set: the first pass
      plots (x -/+ r, y) and the last (x, y -/+ r). */
  lemma CircleExtremes(x: int, y: int, r: int)
    requires Fits(x, y, r)
    ensures CircleInBounds(x, y, r)
    ensures (x - r, y) in CircleOf(x, y, Pens(r)) && (x + r, y) in CircleOf(x, y, Pens(r))
    ensures (x, y - r) in CircleOf(x, y, Pens(r)) && (x, y + r) in CircleOf(x, y, Pens(r))
  {
    PensEnd(r);
    MarksExtremes(x, y, r, Pens(r));
    FitsInBounds(x, y, r);
  }

  // Disks

  /** With offsets bounded by r and the disk's column x + r on screen, no
      span reaches column x + r: the right edge of the disk is never filled
      (spans run from x - |x_pos| up to but excluding x + |x_pos|). */
  lemma {:induction false} DiskOfSkipsColumn(x: int, y: int, r: int, pens: seq<Pen>, b: int)
    requires PensBounded(r, pens) && 0 <= x + r < HRes
    ensures (x + r, b) !in DiskOf(x, y, pens)
    decreases |pens|
  {
    if |pens| > 0 {
      var front := pens[..|pens| - 1];
      assert forall i | 0 <= i < |front| :: front[i] == pens[i];
      DiskOfSkipsColumn(x, y, r, front, b);
    }
  }

  lemma DiskSkipsColumn(x: int, y: int, r: int, b: int)
    requires r >= 0 && 0 <= x + r < HRes
    ensures (x + r, b) !in DiskOf(x, y, Pens(r))
  {
    AllPensBounded(r);
    DiskOfSkipsColumn(x, y, r, Pens(r), b);
  }

  /** When the disk fits, a pass fills rows y -/+ y_pos from x - |x_pos| up
      to but excluding x + |x_pos|. */
  lemma SpanOnScreen(x: int, y: int, r: int, p: Pen, a: int, b: int)
    requires Fits(x, y, r) && -r <= p.xp <= r && 0 <= p.yp <= r
    ensures (a, b) in SpanRegion(x, y, p) <==>
            (b == y + p.yp || b == y - p.yp) && x - Abs(p.xp) <= a < x + Abs(p.xp)
  {
  }

  /** A pixel of the spans of a near pen lies inside radius r + 1/2. */
  lemma SpanInside(x: int, y: int, r: int, p: Pen, a: int, b: int)
    requires Fits(x, y, r) && Near(r, p) && 0 <= p.yp <= r
    requires (a, b) in SpanRegion(x, y, p)
    ensures (a - x) * (a - x) + (b - y) * (b - y) < r * r + r
  {
    SpanOnScreen(x, y, r, p, a, b);
    assert b - y == p.yp || b - y == -p.yp;
    assert p.xp <= a - x < -p.xp;
    SquareAbs(b - y, p.yp);
    SquareWithin(a - x, -p.xp);
    SquareAbs(-p.xp, p.xp);
  }

  lemma {:induction false} DiskOfInside(x: int, y: int, r: int, pens: seq<Pen>, a: int, b: int)
    requires Fits(x, y, r) && PensBounded(r, pens)
    requires forall i | 0 <= i < |pens| :: Near(r, pens[i])
    requires (a, b) in DiskOf(x, y, pens)
    ensures (a - x) * (a - x) + (b - y) * (b - y) < r * r + r
    decreases |pens|
  {
    var front := pens[..|pens| - 1];
    if (a, b) in DiskOf(x, y, front) {
      assert forall i | 0 <= i < |front| :: front[i] == pens[i];
      DiskOfInside(x, y, r, front, a, b);
    } else {
      SpanInside(x, y, r, pens[|pens| - 1], a, b);
    }
  }

  /** Every pixel of a fitting disk lies inside radius r + 1/2:
      dx^2 + dy^2 < r^2 + r. */
  lemma DiskInside(x: int, y: int, r: int, a: int, b: int)
    requires Fits(x, y, r) && r >= 1 && (a, b) in DiskOf(x, y, Pens(r))
    ensures (a - x) * (a - x) + (b - y) * (b - y) < r * r + r
  {
    AllPensBounded(r);
    AllPensNear(r);
    DiskOfInside(x, y, r, Pens(r), a, b);
  }

  /** The spans of pens[i] are part of the disk drawn for `pens`. */
  lemma {:induction false} SpanKept(x: int, y: int, pens: seq<Pen>, i: int, a: int, b: int)
    requires 0 <= i < |pens| && (a, b) in SpanRegion(x, y, pens[i])
    ensures (a, b) in DiskOf(x, y, pens)
    decreases |pens|
  {
    var front := pens[..|pens| - 1];
    if i < |front| {
      assert front[i] == pens[i];
      SpanKept(x, y, front, i, a, b);
    }
  }

  /** The centre row of a fitting disk is filled from x - r up to but
      excluding x + r. */
  lemma DiskCentreRow(x: int, y: int, r: int, a: int)
    requires Fits(x, y, r) && x - r <= a < x + r
    ensures (a, y) in DiskOf(x, y, Pens(r))
  {
    var p := Pens(r)[0];
    assert p == Start(r);
    SpanOnScreen(x, y, r, p, a, y);
    SpanKept(x, y, Pens(r), 0, a, y);
  }

  /** For r >= 0 y_pos never skips a value from one pen to the next. */
  lemma PenRise(r: int, j: int)
    requires r >= 0 && 0 < j < |Pens(r)|
    ensures Pens(r)[j - 1].yp <= Pens(r)[j].yp <= Pens(r)[j - 1].yp + 1
  {
    PensStep(r, j - 1);
    if j - 1 > 0 {
      PensStep(r, j - 2);
    }
    StepMoves(Pens(r)[j - 1]);
  }

  /** Some pen at or before pens[j] has y_pos == d, for every d up to
      pens[j]'s y_pos: y_pos starts at 0 and never skips a value. */
  lemma {:induction false} RowPenBelow(r: int, d: int, j: int) returns (i: int)
    requires r >= 0 && 0 <= j < |Pens(r)| && 0 <= d <= Pens(r)[j].yp
    ensures 0 <= i <= j && Pens(r)[i].yp == d
    decreases j
  {
    if Pens(r)[j].yp == d {
      i := j;
    } else {
      assert j > 0 by {
        assert Pens(r)[0] == Start(r);
      }
      PenRise(r, j);
      i := RowPenBelow(r, d, j - 1);
    }
  }

  /** Every row offset 0..r of the quarter arc has a pen on it. */
  lemma RowPen(r: int, d: int) returns (i: int)
    requires 0 <= d <= r
    ensures 0 <= i < |Pens(r)| && Pens(r)[i].yp == d
  {
    PensEnd(r);
    i := RowPenBelow(r, d, |Pens(r)| - 1);
  }

  /** A fitting disk is solid: every pixel (a, b) with
      (|a - x| + 1)^2 + (b - y)^2 <= r^2 - r is filled, so the only pixels
      it may leave out lie within a pixel of its rim. */
  lemma DiskFilled(x: int, y: int, r: int, a: int, b: int)
    requires Fits(x, y, r) && r >= 1
    requires (Abs(a - x) + 1) * (Abs(a - x) + 1) + (b - y) * (b - y) <= r * r - r
    ensures (a, b) in DiskOf(x, y, Pens(r))
  {
    var d, e := Abs(b - y), Abs(a - x);
    SquareAbs(b - y, d);
    SquareStep(e);
    if d > r {
      SquareBelow(r, d);
      assert false;
    }
    var i := RowPen(r, d);
    var p := Pens(r)[i];
    PensNear(r, i);
    PenBounds(r, i);
    if Abs(p.xp) <= e {
      SquareWithin(p.xp, e);
      assert false;
    }
    SpanOnScreen(x, y, r, p, a, b);
    SpanKept(x, y, Pens(r), i, a, b);
  }

  /** The bit numbers of the four draw_pix calls of a pass fit in 32 bits. */
  predicate MarksInt32(x: int, y: int, p: Pen) {
    var m := Marks(x, y, p);
    Packing.Int32(BitNumber(m[0].0, m[0].1)) && Packing.Int32(BitNumber(m[1].0, m[1].1)) &&
    Packing.Int32(BitNumber(m[2].0, m[2].1)) && Packing.Int32(BitNumber(m[3].0, m[3].1))
  }

  /** The requirement that every draw_pix of draw_circle be in bounds already
      limits the radius to [-307209, 480]: a larger radius sends the last
      pen's mark (x, y + r), or for a negative radius the mark (x - r, y),
      past the end of the buffer. */
  lemma CircleRadius(x: int, y: int, r: int)
    requires OnScreen(x, y) && CircleInBounds(x, y, r)
    ensures -307209 <= r <= 480
  {
    if r >= 0 {
      PensEnd(r);
      assert MarksInBounds(x, y, Pens(r)[|Pens(r)| - 1]);
      InBoundsIff(x, y + r);
    } else {
      PensNonPositive(r);
      assert MarksInBounds(x, y, Pens(r)[0]);
      InBoundsIff(x - r, y);
    }
  }

  /** A pen bounded by such a radius has draw_pix bit numbers inside 32
      bits. */
  lemma PenMarksInt32(x: int, y: int, r: int, p: Pen)
    requires OnScreen(x, y) && -307209 <= r <= 480
    requires -Abs(r) <= p.xp <= Abs(r) && 0 <= p.yp <= Abs(r)
    ensures MarksInt32(x, y, p)
  {
  }

  /** On every input draw_circle admits, the pen arithmetic and every
      draw_pix bit number fit in 32 bits, so viper's wrapping arithmetic
      and the model agree. */
  lemma CircleInBoundsNoWrap(x: int, y: int, r: int)
    requires OnScreen(x, y) && CircleInBounds(x, y, r)
    ensures forall i | 0 <= i < |Pens(r)| ::
              PenInt32(Pens(r)[i]) && PenInt32(Step(Pens(r)[i])) && MarksInt32(x, y, Pens(r)[i])
  {
    CircleRadius(x, y, r);
    forall i | 0 <= i < |Pens(r)|
      ensures PenInt32(Pens(r)[i]) && PenInt32(Step(Pens(r)[i])) && MarksInt32(x, y, Pens(r)[i])
    {
      PensInt32(r, i);
      PenBounds(r, i);
      PenMarksInt32(x, y, r, Pens(r)[i]);
    }
  }
}
