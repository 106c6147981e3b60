/** The integer midpoint (Bresenham) loop shared by draw_circle and
    fill_disk, as a pure function of the radius.

    The loop walks one quarter of the circle, from (-r, 0) to (0, r), in
    pen offsets (x_pos, y_pos); every pass plots at the current pen and then
    applies the two conditional updates of Step. The loop stops as soon as
    x_pos becomes positive. */
module Midpoint {
  import Packing

  /** Loop state: the offsets x_pos, y_pos and the error term err. */
  datatype Pen = Pen(xp: int, yp: int, err: int)

  function Abs(r: int): (m: int) {
    if r < 0 then -r else r
  }

  /** `x_pos = 0 - r; y_pos = 0; err = 2 - 2*r` */
  function Start(r: int): (p: Pen) {
    Pen(-r, 0, 2 - 2 * r)
  }

  /** One pass after plotting: the y update (which may force the x update
      by zeroing e2) followed by the x update. */
  function Step(p: Pen): (q: Pen) {
    var e2 := p.err;
    var yp := if e2 <= p.yp then p.yp + 1 else p.yp;
    var err := if e2 <= p.yp then p.err + yp * 2 + 1 else p.err;
    var e2' := if e2 <= p.yp && -p.xp == yp && e2 <= p.xp then 0 else e2;
    if e2' > p.xp then Pen(p.xp + 1, yp, err + (p.xp + 1) * 2 + 1) else Pen(p.xp, yp, err)
  }

  /** The error term is (x_pos+1)^2 + (y_pos+1)^2 - r^2. */
  predicate Tracks(r: int, p: Pen) {
    p.err == (p.xp + 1) * (p.xp + 1) + (p.yp + 1) * (p.yp + 1) - r * r
  }

  /** What the loop keeps: the error term, and y_pos between 0 and |r|. */
  predicate Inv(r: int, p: Pen) {
    Tracks(r, p) && 0 <= p.yp <= Abs(r)
  }

  lemma SquareStep(a: int)
    ensures (a + 1) * (a + 1) == a * a + 2 * a + 1
  {
  }

  /** Each pass moves the pen one step right, up, or diagonally: the path of
      plotted points is 8-connected and the loop makes progress. */
  lemma StepMoves(p: Pen)
    requires p.xp <= 0 <= p.yp
    ensures Step(p).xp == p.xp || Step(p).xp == p.xp + 1
    ensures Step(p).yp == p.yp || Step(p).yp == p.yp + 1
    ensures Step(p).xp + Step(p).yp > p.xp + p.yp
  {
  }

  /** Step keeps the loop invariant; y_pos cannot pass |r| because at
      y_pos = |r| the error term already exceeds y_pos. */
  lemma StepKeeps(r: int, p: Pen)
    requires Inv(r, p) && p.xp <= 0
    ensures Inv(r, Step(p))
  {
    SquareStep(p.xp + 1);
    SquareStep(p.yp + 1);
    if p.err <= p.yp {
      if p.yp >= Abs(r) {
        assert r * r == Abs(r) * Abs(r);
        assert (p.xp + 1) * (p.xp + 1) >= 0;
        SquareStep(p.yp);
        assert false;
      }
    }
  }

  /** The pens one run of the loop plots, starting from p. */
  function PensFrom(r: int, p: Pen): (s: seq<Pen>)
    requires Inv(r, p)
    ensures |s| >= 1 && s[0] == p
    ensures Step(s[|s| - 1]).xp > 0
    decreases 1 - p.xp + Abs(r) - p.yp
  {
    if Step(p).xp > 0 then [p]
    else
      StepMoves(p);
      StepKeeps(r, p);
      [p] + PensFrom(r, Step(p))
  }

  /** The loop invariant holds on entry. */
  lemma StartInv(r: int)
    ensures Inv(r, Start(r))
  {
    assert (-r + 1) * (-r + 1) == r * r - 2 * r + 1;
  }

  /** The pens draw_circle and fill_disk plot for radius r. */
  function Pens(r: int): (s: seq<Pen>)
    ensures |s| >= 1 && s[0] == Start(r)
  {
    StartInv(r);
    PensFrom(r, Start(r))
  }

  /** Consecutive pens are one Step apart, and the loop stops exactly after
      the last one. */
  lemma {:induction false} PensFromStep(r: int, p: Pen, i: int)
    requires Inv(r, p) && 0 <= i < |PensFrom(r, p)|
    ensures Inv(r, PensFrom(r, p)[i])
    ensures i + 1 < |PensFrom(r, p)| ==> PensFrom(r, p)[i + 1] == Step(PensFrom(r, p)[i])
    ensures Step(PensFrom(r, p)[i]).xp > 0 <==> i + 1 == |PensFrom(r, p)|
    decreases i
  {
    if Step(p).xp <= 0 {
      StepMoves(p);
      StepKeeps(r, p);
      if i > 0 {
        PensFromStep(r, Step(p), i - 1);
      }
    }
  }

  lemma PensStep(r: int, i: int)
    requires 0 <= i < |Pens(r)|
    ensures Inv(r, Pens(r)[i])
    ensures i + 1 < |Pens(r)| ==> Pens(r)[i + 1] == Step(Pens(r)[i])
    ensures Step(Pens(r)[i]).xp > 0 <==> i + 1 == |Pens(r)|
  {
    StartInv(r);
    PensFromStep(r, Start(r), i);
  }

  /** The loop's control: the next pen is one Step on, and the loop stops
      exactly after the last pen. */
  lemma PensNext(r: int, i: int)
    requires 0 <= i < |Pens(r)|
    ensures i + 1 < |Pens(r)| ==> Pens(r)[i + 1] == Step(Pens(r)[i])
    ensures Step(Pens(r)[i]).xp > 0 <==> i + 1 == |Pens(r)|
  {
    PensStep(r, i);
  }

  /** The pen is on the upper-left quarter and within half a pixel of the
      circle of radius r: |x_pos^2 + y_pos^2 - r^2| < r. */
  predicate Near(r: int, p: Pen) {
    -r <= p.xp <= 0 && -r < p.xp * p.xp + p.yp * p.yp - r * r < r
  }

  /** Squares grow with the base: 0 <= a < b implies a^2 <= b^2 - 2b + 1. */
  lemma SquareBelow(a: int, b: int)
    requires 0 <= a < b
    ensures a * a <= b * b - 2 * b + 1
  {
    assert (b - 1 - a) * (b - 1 + a) >= 0;
  }

  lemma StepNear(r: int, p: Pen)
    requires r >= 1 && Inv(r, p) && Near(r, p) && Step(p).xp <= 0
    ensures Near(r, Step(p))
  {
    var q := Step(p);
    var d := p.xp * p.xp + p.yp * p.yp - r * r;
    SquareStep(p.xp);
    SquareStep(p.yp);
    assert p.err == d + 2 * p.xp + 2 * p.yp + 2;
    assert (p.xp + 1) * (p.xp + 1) >= 0;
    if p.err <= p.yp {
      if (-p.xp == p.yp + 1 && p.err <= p.xp) || p.err > p.xp {
        assert q.xp == p.xp + 1 && q.yp == p.yp + 1;
        assert q.xp * q.xp + q.yp * q.yp - r * r == p.err;
      } else {
        assert q.xp == p.xp && q.yp == p.yp + 1;
        assert q.xp * q.xp + q.yp * q.yp - r * r == d + 2 * p.yp + 1;
      }
    } else {
      assert q.xp == p.xp + 1 && q.yp == p.yp;
      assert q.xp * q.xp + q.yp * q.yp - r * r == d + 2 * p.xp + 1;
      if p.yp == r {
        assert p.yp * p.yp == r * r;
      }
    }
  }

  lemma {:induction false} PensFromNear(r: int, p: Pen, i: int)
    requires r >= 1 && Inv(r, p) && Near(r, p) && 0 <= i < |PensFrom(r, p)|
    ensures Near(r, PensFrom(r, p)[i])
    decreases i
  {
    if i > 0 {
      StepMoves(p);
      StepKeeps(r, p);
      StepNear(r, p);
      PensFromNear(r, Step(p), i - 1);
    }
  }

  /** For r >= 1 every plotted pen lies within half a pixel of the circle. */
  lemma PensNear(r: int, i: int)
    requires r >= 1 && 0 <= i < |Pens(r)|
    ensures Near(r, Pens(r)[i])
  {
    StartInv(r);
    assert (-r) * (-r) == r * r;
    PensFromNear(r, Start(r), i);
  }

  /** A radius of zero or less plots the single pen (-r, 0). */
  lemma PensNonPositive(r: int)
    requires r <= 0
    ensures Pens(r) == [Start(r)]
  {
    PensStep(r, 0);
  }

  /** A near pen after which the loop stops is the top of the circle. */
  lemma LastNear(r: int, p: Pen)
    requires r >= 1 && Inv(r, p) && Near(r, p) && Step(p).xp > 0
    ensures p.xp == 0 && p.yp == r
  {
    StepMoves(p);
    assert p.xp == 0 && p.xp * p.xp == 0;
    if p.yp < r {
      SquareBelow(p.yp, r);
    }
  }

  /** For r >= 0 the last pen is (0, r): the quarter arc runs from (-r, 0)
      to (0, r). */
  lemma PensEnd(r: int)
    requires r >= 0
    ensures Pens(r)[|Pens(r)| - 1].xp == 0 && Pens(r)[|Pens(r)| - 1].yp == r
  {
    var n := |Pens(r)| - 1;
    if r == 0 {
      PensNonPositive(r);
    } else {
      PensStep(r, n);
      PensNear(r, n);
      LastNear(r, Pens(r)[n]);
    }
  }

  /** Every pen offset is bounded by the radius. */
  lemma PenBounds(r: int, i: int)
    requires 0 <= i < |Pens(r)|
    ensures -Abs(r) <= Pens(r)[i].xp <= Abs(r) && 0 <= Pens(r)[i].yp <= Abs(r)
  {
    PensStep(r, i);
    if r >= 1 {
      PensNear(r, i);
    } else {
      PensNonPositive(r);
    }
  }

  /** |d| <= m implies d^2 <= m^2. */
  lemma SquareWithin(d: int, m: int)
    requires -m <= d <= m
    ensures d * d <= m * m
  {
    assert (m - d) * (m + d) >= 0;
  }

  /** A pen whose three fields fit in 32-bit machine words. */
  predicate PenInt32(p: Pen) {
    Packing.Int32(p.xp) && Packing.Int32(p.yp) && Packing.Int32(p.err)
  }

  /** A pen that tracks the error term of radius r, with offsets bounded by
      30001, has every field inside 32 bits. */
  lemma TrackedInt32(r: int, p: Pen)
    requires Abs(r) <= 30000 && Tracks(r, p)
    requires -30001 <= p.xp + 1 <= 30001 && 0 <= p.yp <= 30000
    ensures PenInt32(p)
  {
    SquareWithin(p.xp + 1, 30001);
    SquareWithin(p.yp + 1, 30001);
    SquareWithin(r, 30000);
  }

  /** For -2^28 <= r <= 30000 every pen of the loop, and the state its last
      pass computes, fits in 32-bit words: the viper loop does not wrap and
      the model describes it exactly. (A negative radius makes one pass.) */
  lemma PensInt32(r: int, i: int)
    requires -0x1000_0000 <= r <= 30000 && 0 <= i < |Pens(r)|
    ensures PenInt32(Pens(r)[i]) && PenInt32(Step(Pens(r)[i]))
  {
    var p := Pens(r)[i];
    if r < 0 {
      PensNonPositive(r);
      assert p == Pen(-r, 0, 2 - 2 * r);
      assert Step(p) == Pen(1 - r, 0, 5 - 4 * r);
    } else {
      PensStep(r, i);
      PenBounds(r, i);
      if i > 0 {
        PensStep(r, i - 1);
      }
      TrackedInt32(r, p);
      StepKeeps(r, p);
      StepMoves(p);
      TrackedInt32(r, Step(p));
    }
  }
}
