/** The three PIO programs that generate the 640x480 video timing, run by a
    small interpreter of the instructions they use.

    One call of Step executes one instruction: it takes 1 + delay clocks,
    applies the optional side-set, and moves to the next instruction, or
    back to the wrap target (instruction 0 here) after the last one. A
    `wait irq` is one line tick: the interpreter does not model the other
    state machine that raises the flag. The counters record what one pass
    of a program's wrap loop does: clocks elapsed, clocks with the set pins
    low, line ticks waited, ticks with the side-set pin low, interrupts
    raised and bits shifted out to the colour pins. */
module Pio {
  import opened Packing
  import opened Addressing

  /** A scratch register decremented at zero wraps to 0xFFFFFFFF. */
  const Max32: nat := 0xFFFF_FFFF

  /** Clocks per line and lines per frame of the 640x480 at 60 Hz mode of
      the VESA Display Monitor Timing standard, and its sync widths. */
  const HTotal: nat := 800
  const HSyncWidth: nat := 96
  const VTotal: nat := 525
  const VSyncWidth: nat := 2

  datatype Reg = X | Y

  datatype Op =
    | MovOsr(dst: Reg)              // mov(dst, osr)
    | MovXY                         // mov(x, y)
    | JmpDec(r: Reg, target: nat)   // jmp(x_dec | y_dec, target)
    | SetPins(v: nat)               // set(pins, v)
    | SetReg(r: Reg, v: nat)        // set(x | y, v)
    | WaitIrq(flag: nat)            // wait(1, irq, flag)
    | Irq(flag: nat)                // irq(flag)
    | OutPins(bits: nat)            // out(pins, bits)
    | Nop                           // nop()

  /** The side-set of an instruction: `.side(level)`, or none, in which case
      the side-set pin keeps its level. */
  datatype Side = Keep | Drive(level: nat)

  datatype Instr = Instr(op: Op, delay: nat, side: Side)

  datatype Machine = Machine(pc: int, x: int, y: int, osr: int, pins: int, sidePin: int,
                             clocks: int, lowClocks: int, ticks: int, lowTicks: int,
                             irq0: int, irq1: int, shifted: int)

  /** `jmp x--` / `jmp y--`: the register is decremented whether or not the
      jump is taken, modulo 2^32. */
  function Dec(v: int): (r: int)
    ensures v == 0 ==> r == Max32
    ensures v > 0 ==> r + 1 == v
    ensures 0 <= v <= Max32 ==> 0 <= r <= Max32 && (r + 1) % (Max32 + 1) == v
  {
    if v == 0 then Max32 else v - 1
  }

  function Get(s: Machine, r: Reg): (v: int) {
    if r == X then s.x else s.y
  }

  function Put(s: Machine, r: Reg, v: int): (t: Machine) {
    if r == X then s.(x := v) else s.(y := v)
  }

  function SideAfter(sd: Side, level: int): (l: int) {
    match sd
    case Keep => level
    case Drive(l) => l
  }

  /** Executes the instruction at pc; a machine whose pc is past the end of
      the program stays where it is. */
  function Step(prog: seq<Instr>, s: Machine): (t: Machine)
  {
    if s.pc < 0 || s.pc >= |prog| then s
    else
      var ins := prog[s.pc];
      var next := if s.pc + 1 == |prog| then 0 else s.pc + 1;
      var side := SideAfter(ins.side, s.sidePin);
      var u := match ins.op
        case MovOsr(r) => Put(s, r, s.osr).(pc := next)
        case MovXY => s.(x := s.y, pc := next)
        case JmpDec(r, target) =>
          var v := Get(s, r);
          Put(s, r, Dec(v)).(pc := if v != 0 then target else next)
        case SetPins(v) => s.(pins := v, pc := next)
        case SetReg(r, v) => Put(s, r, v).(pc := next)
        case WaitIrq(_) =>
          s.(ticks := s.ticks + 1, lowTicks := s.lowTicks + (if side == 0 then 1 else 0), pc := next)
        case Irq(f) =>
          s.(irq0 := s.irq0 + (if f == 0 then 1 else 0), irq1 := s.irq1 + (if f == 1 then 1 else 0), pc := next)
        case OutPins(n) => s.(shifted := s.shifted + n, pc := next)
        case Nop => s.(pc := next);
      var cycles := 1 + ins.delay;
      u.(sidePin := side, clocks := s.clocks + cycles,
         lowClocks := s.lowClocks + (if u.pins == 0 then cycles else 0))
  }

  /** Every instruction takes one clock plus its delay and leaves the side-set
      pin as its side-set says; outside the program nothing changes. */
  lemma StepShape(prog: seq<Instr>, s: Machine)
    ensures 0 <= s.pc < |prog| ==> Step(prog, s).clocks == s.clocks + 1 + prog[s.pc].delay
    ensures 0 <= s.pc < |prog| ==> Step(prog, s).sidePin == SideAfter(prog[s.pc].side, s.sidePin)
    ensures !(0 <= s.pc < |prog|) ==> Step(prog, s) == s
  { }

  /** The machine after n instructions. */
  function Run(prog: seq<Instr>, s: Machine, n: nat): (t: Machine)
    decreases n
  {
    if n == 0 then s else Run(prog, Step(prog, s), n - 1)
  }

  /** Running a + b instructions is running a, then b. */
  lemma {:induction false} RunAdd(prog: seq<Instr>, s: Machine, a: nat, b: nat)
    ensures Run(prog, s, a + b) == Run(prog, Run(prog, s, a), b)
    decreases a
  {
    if a > 0 {
      RunAdd(prog, Step(prog, s), a - 1, b);
    }
  }

  /** Every jump of the program lands inside it. */
  predicate Closed(prog: seq<Instr>) {
    forall i | 0 <= i < |prog| :: prog[i].op.JmpDec? ==> prog[i].op.target < |prog|
  }

  /** What n instructions of any closed program can do to the counters. */
  ghost predicate Monotone(s: Machine, t: Machine, n: nat) {
    t.clocks >= s.clocks + n &&
    s.lowClocks <= t.lowClocks && t.lowClocks - s.lowClocks <= t.clocks - s.clocks &&
    s.ticks <= t.ticks <= s.ticks + n &&
    s.lowTicks <= t.lowTicks && t.lowTicks - s.lowTicks <= t.ticks - s.ticks &&
    s.irq0 <= t.irq0 && s.irq1 <= t.irq1 && s.shifted <= t.shifted
  }

  /** One instruction keeps pc inside a closed program, takes at least one
      clock and waits at most one line. */
  lemma StepMonotone(prog: seq<Instr>, s: Machine)
    requires Closed(prog) && 0 <= s.pc < |prog|
    ensures 0 <= Step(prog, s).pc < |prog| && Monotone(s, Step(prog, s), 1)
  {
  }

  /** A closed program run from an instruction inside it stays inside it;
      every instruction takes at least one clock and waits at most one line,
      the clocks (and lines) counted low never exceed those elapsed, and no
      interrupt or shifted bit is ever taken back. */
  lemma {:induction false} RunMonotone(prog: seq<Instr>, s: Machine, n: nat)
    requires Closed(prog) && 0 <= s.pc < |prog|
    ensures 0 <= Run(prog, s, n).pc < |prog| && Monotone(s, Run(prog, s, n), n)
    decreases n
  {
    if n > 0 {
      StepMonotone(prog, s);
      RunMonotone(prog, Step(prog, s), n - 1);
    }
  }

  // paral_Hsync

  /** paral_Hsync (main_code.py:54-69): a countdown loaded from the OSR with
      the pins high, three 32-clock instructions that drive them low, two
      that drive them high again (32 and 14 clocks), and an irq 0 per line. */
  const Hsync: seq<Instr> := [
    Instr(MovOsr(X), 0, Keep),
    Instr(JmpDec(X, 1), 0, Keep),
    Instr(SetPins(0), 31, Keep),
    Instr(SetPins(0), 31, Keep),
    Instr(SetPins(0), 31, Keep),
    Instr(SetPins(1), 31, Keep),
    Instr(SetPins(1), 13, Keep),
    Instr(Irq(0), 0, Keep)
  ]

  /** The active-plus-front-porch countdown: n + 1 one-clock jumps with the
      sync pin high. */
  lemma {:induction false} HsyncCountdown(s: Machine, n: nat)
    requires s.pc == 1 && s.x == n && s.pins == 1
    ensures Run(Hsync, s, n + 1) == s.(pc := 2, x := Max32, clocks := s.clocks + n + 1)
    decreases n
  {
    var t := Step(Hsync, s);
    if n > 0 {
      assert t == s.(x := n - 1, clocks := s.clocks + 1);
      HsyncCountdown(t, n - 1);
    }
  }

  /** One pass of paral_Hsync with count c in the OSR takes c + 145 clocks,
      holds the sync pin low for 96 of them, raises irq 0 once and ends back
      at the wrap target with the pin high. */
  lemma HsyncLine(s: Machine, c: nat)
    requires s.pc == 0 && s.osr == c && s.pins == 1
    ensures var e := Run(Hsync, s, c + 8);
            e.pc == 0 && e.pins == 1 && e.osr == c &&
            e.clocks == s.clocks + c + 145 &&
            e.lowClocks == s.lowClocks + HSyncWidth &&
            e.irq0 == s.irq0 + 1 && e.irq1 == s.irq1 && e.ticks == s.ticks
  {
    var s1 := Step(Hsync, s);
    assert s1 == s.(pc := 1, x := c, clocks := s.clocks + 1);
    HsyncCountdown(s1, c);
    var s2 := Run(Hsync, s1, c + 1);
    RunAdd(Hsync, s, 1, c + 1);
    RunAdd(Hsync, s, c + 2, 6);
    assert Run(Hsync, s2, 6) == Run(Hsync, s, c + 8);
  }

  /** startsync loads 655: a line is the standard 800 clocks with a 96-clock
      sync pulse. */
  lemma HsyncTiming(s: Machine)
    requires s.pc == 0 && s.osr == 655 && s.pins == 1
    ensures var e := Run(Hsync, s, 663);
            e.clocks - s.clocks == HTotal && e.lowClocks - s.lowClocks == HSyncWidth &&
            e.irq0 - s.irq0 == 1
  {
    HsyncLine(s, 655);
  }

  // paral_Vsync

  /** paral_Vsync (main_code.py:75-98), after its one-time pull: a loop that
      counts visible lines from the OSR and raises irq 1 on each, a front
      porch counted in Y, two line waits with the side-set pin low, a back
      porch counted in Y with the pin high again, and a trailing line wait.
      Every line is one wait for irq 0. */
  const Vsync: seq<Instr> := [
    Instr(MovOsr(X), 0, Keep),
    Instr(WaitIrq(0), 0, Keep),
    Instr(Irq(1), 0, Keep),
    Instr(JmpDec(X, 1), 0, Keep),
    Instr(SetReg(Y, 9), 0, Keep),
    Instr(WaitIrq(0), 0, Keep),
    Instr(JmpDec(Y, 5), 0, Keep),
    Instr(WaitIrq(0), 0, Drive(0)),
    Instr(WaitIrq(0), 0, Keep),
    Instr(SetReg(Y, 31), 0, Keep),
    Instr(WaitIrq(0), 0, Drive(1)),
    Instr(JmpDec(Y, 10), 0, Keep),
    Instr(WaitIrq(0), 0, Keep)
  ]

  lemma VsyncCode()
    ensures |Vsync| == 13
    ensures Vsync[0] == Instr(MovOsr(X), 0, Keep)
    ensures Vsync[1] == Instr(WaitIrq(0), 0, Keep)
    ensures Vsync[2] == Instr(Irq(1), 0, Keep)
    ensures Vsync[3] == Instr(JmpDec(X, 1), 0, Keep)
    ensures Vsync[4] == Instr(SetReg(Y, 9), 0, Keep)
    ensures Vsync[5] == Instr(WaitIrq(0), 0, Keep)
    ensures Vsync[6] == Instr(JmpDec(Y, 5), 0, Keep)
    ensures Vsync[7] == Instr(WaitIrq(0), 0, Drive(0))
    ensures Vsync[8] == Instr(WaitIrq(0), 0, Keep)
    ensures Vsync[9] == Instr(SetReg(Y, 31), 0, Keep)
    ensures Vsync[10] == Instr(WaitIrq(0), 0, Drive(1))
    ensures Vsync[11] == Instr(JmpDec(Y, 10), 0, Keep)
    ensures Vsync[12] == Instr(WaitIrq(0), 0, Keep)
  {
  }

  /** The active loop: n + 1 lines, each raising irq 1, with the side-set
      pin high. */
  lemma {:induction false} VsyncActive(s: Machine, n: nat)
    requires s.pc == 1 && s.x == n && s.pins == 1 && s.sidePin == 1
    ensures Run(Vsync, s, 3 * (n + 1)) ==
            s.(pc := 4, x := Max32, clocks := s.clocks + 3 * (n + 1),
               ticks := s.ticks + n + 1, irq1 := s.irq1 + n + 1)
    decreases n
  {
    VsyncCode();
    var t := Run(Vsync, s, 3);
    assert t == s.(pc := if n != 0 then 1 else 4, x := Dec(n), clocks := s.clocks + 3,
                   ticks := s.ticks + 1, irq1 := s.irq1 + 1);
    RunAdd(Vsync, s, 3, 3 * n);
    if n > 0 {
      VsyncActive(t, n - 1);
    }
  }

  /** A porch loop `label L: wait(1, irq, 0) [side]; jmp(y_dec, L)` from
      y == n: n + 1 lines, with the side-set pin at the level the wait
      drives. */
  lemma {:induction false} PorchLoop(prog: seq<Instr>, l: nat, s: Machine, n: nat)
    requires l + 2 < |prog| && prog[l].op.WaitIrq? && prog[l].delay == 0
    requires prog[l + 1] == Instr(JmpDec(Y, l), 0, Keep)
    requires s.pc == l && s.y == n && s.pins != 0
    ensures var side := SideAfter(prog[l].side, s.sidePin);
            Run(prog, s, 2 * (n + 1)) ==
            s.(pc := l + 2, y := Max32, sidePin := side, clocks := s.clocks + 2 * (n + 1),
               ticks := s.ticks + n + 1, lowTicks := s.lowTicks + (if side == 0 then n + 1 else 0))
    decreases n
  {
    var side := SideAfter(prog[l].side, s.sidePin);
    var t := Run(prog, s, 2);
    assert t == s.(pc := if n != 0 then l else l + 2, y := Dec(n), sidePin := side,
                   clocks := s.clocks + 2, ticks := s.ticks + 1,
                   lowTicks := s.lowTicks + (if side == 0 then 1 else 0));
    RunAdd(prog, s, 2, 2 * n);
    if n > 0 {
      assert SideAfter(prog[l].side, t.sidePin) == side;
      PorchLoop(prog, l, t, n - 1);
    }
  }

  /** From the wrap target to the sync pulse: the active lines and the
      front porch of 10 lines, with the side-set pin high. */
  lemma VsyncVisible(s: Machine, c: nat)
    requires s.pc == 0 && s.osr == c && s.pins == 1 && s.sidePin == 1
    ensures Run(Vsync, s, 3 * c + 25) ==
            s.(pc := 7, x := Max32, y := Max32, clocks := s.clocks + 3 * c + 25,
               ticks := s.ticks + c + 11, irq1 := s.irq1 + c + 1)
  {
    var s1 := Step(Vsync, s);
    assert s1 == s.(pc := 1, x := c, clocks := s.clocks + 1);
    assert Run(Vsync, s, 1) == s1;
    VsyncActive(s1, c);
    var s2 := Run(Vsync, s1, 3 * (c + 1));
    RunAdd(Vsync, s, 1, 3 * (c + 1));
    VsyncFront(s2);
    RunAdd(Vsync, s, 1 + 3 * (c + 1), 21);
  }

  /** The front porch: set(y, 9), then 10 lines. */
  lemma VsyncFront(s: Machine)
    requires s.pc == 4 && s.pins == 1 && s.sidePin == 1
    ensures Run(Vsync, s, 21) ==
            s.(pc := 7, y := Max32, clocks := s.clocks + 21, ticks := s.ticks + 10)
  {
    VsyncCode();
    var s1 := Step(Vsync, s);
    assert s1 == s.(pc := 5, y := 9, clocks := s.clocks + 1);
    assert Run(Vsync, s, 1) == s1;
    PorchLoop(Vsync, 5, s1, 9);
    RunAdd(Vsync, s, 1, 20);
  }

  /** From the sync pulse back to the wrap target: 2 lines with the
      side-set pin low, then the back porch of 32 lines and one more. */
  lemma VsyncBlank(s: Machine)
    requires s.pc == 7 && s.pins == 1
    ensures Run(Vsync, s, 68) ==
            s.(pc := 0, y := Max32, sidePin := 1, clocks := s.clocks + 68,
               ticks := s.ticks + 35, lowTicks := s.lowTicks + 2)
  {
    VsyncCode();
    var s1 := Run(Vsync, s, 3);
    assert s1 == s.(pc := 10, y := 31, sidePin := 0, clocks := s.clocks + 3,
                    ticks := s.ticks + 2, lowTicks := s.lowTicks + 2);
    PorchLoop(Vsync, 10, s1, 31);
    RunAdd(Vsync, s, 3, 64);
    var s2 := Run(Vsync, s, 67);
    RunAdd(Vsync, s, 67, 1);
    assert Run(Vsync, s2, 1) == Step(Vsync, s2);
  }

  /** One pass of paral_Vsync with count c in the OSR waits c + 46 lines:
      c + 1 active lines each raising irq 1, a front porch of 10, a sync
      pulse of 2 lines with the side-set pin low, and a back porch of 33;
      it ends back at the wrap target with the pin high. */
  lemma VsyncFrame(s: Machine, c: nat)
    requires s.pc == 0 && s.osr == c && s.pins == 1 && s.sidePin == 1
    ensures var e := Run(Vsync, s, 3 * c + 93);
            e.pc == 0 && e.sidePin == 1 && e.osr == c && e.pins == s.pins &&
            e.ticks == s.ticks + c + 46 && e.lowTicks == s.lowTicks + VSyncWidth &&
            e.irq1 == s.irq1 + c + 1 && e.irq0 == s.irq0
  {
    VsyncVisible(s, c);
    VsyncBlank(Run(Vsync, s, 3 * c + 25));
    RunAdd(Vsync, s, 3 * c + 25, 68);
  }

  /** startsync loads V_res - 1 = 479: a frame is the standard 525 lines, 480
      of them visible (irq 1 raised), with a 2-line sync pulse. */
  lemma VsyncTiming(s: Machine)
    requires s.pc == 0 && s.osr == VRes - 1 && s.pins == 1 && s.sidePin == 1
    ensures var e := Run(Vsync, s, 1530);
            e.ticks - s.ticks == VTotal && e.lowTicks - s.lowTicks == VSyncWidth &&
            e.irq1 - s.irq1 == VRes
  {
    VsyncFrame(s, 479);
  }

  // paral_RGB

  /** paral_RGB (main_code.py:104-115), after loading the pixel count into Y:
      per line it reloads X, blanks the pins through side-set, waits for
      irq 1 and then shifts out three bits per pixel every three clocks until
      the count runs out. */
  const Rgb: seq<Instr> := [
    Instr(MovXY, 0, Drive(0)),
    Instr(WaitIrq(1), 0, Keep),
    Instr(OutPins(3), 0, Keep),
    Instr(Nop, 0, Keep),
    Instr(JmpDec(X, 2), 0, Keep)
  ]

  /** The pixel loop: n + 1 pixels of three bits, three clocks each; the
      last jump falls through to the wrap. */
  lemma {:induction false} RgbPixels(s: Machine, n: nat)
    requires s.pc == 2 && s.x == n && s.pins != 0
    ensures Run(Rgb, s, 3 * (n + 1)) ==
            s.(pc := 0, x := Max32, clocks := s.clocks + 3 * (n + 1), shifted := s.shifted + 3 * (n + 1))
    decreases n
  {
    var t := Run(Rgb, s, 3);
    assert t == s.(pc := if n != 0 then 2 else 0, x := Dec(n), clocks := s.clocks + 3,
                   shifted := s.shifted + 3);
    RunAdd(Rgb, s, 3, 3 * n);
    if n > 0 {
      RgbPixels(t, n - 1);
    }
  }

  /** One pass of paral_RGB with count c in y waits for one visible line
      and shifts out c + 1 pixels of three bits, resetting the side-set pins
      to 0 first. */
  lemma RgbLine(s: Machine, c: nat)
    requires s.pc == 0 && s.y == c && s.pins != 0
    ensures var e := Run(Rgb, s, 3 * c + 5);
            e.pc == 0 && e.y == c && e.sidePin == 0 &&
            e.shifted == s.shifted + BitsPerPix * (c + 1) && e.ticks == s.ticks + 1
  {
    var s2 := Run(Rgb, s, 2);
    assert s2 == s.(pc := 2, x := c, sidePin := 0, clocks := s.clocks + 2, ticks := s.ticks + 1,
                    lowTicks := s.lowTicks + 1);
    RgbPixels(s2, c);
    RunAdd(Rgb, s, 2, 3 * (c + 1));
  }

  /** startsync loads H_res - 1 = 639: a line is 640 pixels, which with
      autopull at 30 bits is exactly the 64 words of one buffer row. */
  lemma RgbTiming(s: Machine)
    requires s.pc == 0 && s.y == HRes - 1 && s.pins != 0
    ensures var e := Run(Rgb, s, 1922);
            e.shifted - s.shifted == HRes * BitsPerPix == NWord * UsableBits
  {
    RgbLine(s, 639);
    BufferLength();
  }

  /** The three programs jump only inside themselves, so RunMonotone applies
      to each. */
  lemma ProgramsClosed()
    ensures Closed(Hsync) && Closed(Vsync) && Closed(Rgb)
  {
  }
}
