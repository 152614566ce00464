/** jtframe_frac_cen with W = 2: an accumulator that turns the clock into an enable of
    n pulses every m clocks, a second enable at half that rate, and one that is shifted
    by half a period. All registers are 11 bits or less and wrap explicitly. */
module FracCen {
  import opened Words

  /** cen0, cen1 and cenb0 are the output bits cen[0], cen[1] and cenb[0]. */
  datatype Regs = Regs(cencnt: u11, half: bool, edgecnt: nat, cen0: bool, cen1: bool, cenb0: bool)

  const RESET := Regs(0, false, 0, false, false, false)

  /** One clock. The restart assignment to cencnt is always overridden by the later
      one; all that remains of it is that the shifted enable stays low. */
  function Step(r: Regs, cenIn: bool, n: u10, m: u10): Regs {
    if !cenIn then r.(cen0 := false, cen1 := false, cenb0 := false)
    else
      var next := (r.cencnt + n) % 0x800;
      var over := next >= m;
      var halfway := r.cencnt < m + n && next >= m / 2 && !r.half;
      Regs(
        if over then (next - m) % 0x800 else next,
        !over && (r.half || halfway),
        if over then (r.edgecnt + 1) % 4 else r.edgecnt,
        over,
        over && r.edgecnt % 2 == 0,
        halfway)
  }

  class ClockEnable {
    var cencnt: u11
    var half: bool
    var edgecnt: nat
    var cen0: bool
    var cen1: bool
    var cenb0: bool

    ghost function State(): Regs
      reads this
    {
      Regs(cencnt, half, edgecnt, cen0, cen1, cenb0)
    }

    constructor ()
      ensures State() == RESET
    {
      cencnt, half, edgecnt := 0, false, 0;
      cen0, cen1, cenb0 := false, false, false;
    }

    /** One clock: the right-hand sides are sampled before any update. */
    method Clock(cenIn: bool, n: u10, m: u10)
      modifies this
      ensures State() == Step(old(State()), cenIn, n, m)
    {
      var absmax := m + n;
      var next: u11 := (cencnt + n) % 0x800;
      var next2: u11 := (next - m) % 0x800;
      var over := next >= m;
      var halfway := next >= m / 2 && !half;
      var toggle0 := edgecnt % 2 == 0;
      var wrong := cencnt >= absmax;
      cen0, cen1, cenb0 := false, false, false;
      if cenIn {
        if wrong {
          cencnt := 0;
        } else if halfway {
          half := true;
          cenb0 := true;
        }
        if over {
          cencnt := next2;
          half := false;
          edgecnt := (edgecnt + 1) % 4;
          cen0, cen1 := true, toggle0;
        } else {
          cencnt := next;
        }
      }
    }
  }

  // ------------------------------------------------------------- runs

  function After(r: Regs, n: u10, m: u10, k: nat): Regs {
    if k == 0 then r else Step(After(r, n, m, k - 1), true, n, m)
  }

  /** How often an output was high in the first k clocks. */
  function Pulses(r: Regs, n: u10, m: u10, k: nat): nat {
    if k == 0 then 0 else Pulses(r, n, m, k - 1) + if After(r, n, m, k).cen0 then 1 else 0
  }

  function HalfRatePulses(r: Regs, n: u10, m: u10, k: nat): nat {
    if k == 0 then 0 else HalfRatePulses(r, n, m, k - 1) + if After(r, n, m, k).cen1 then 1 else 0
  }

  function ShiftedPulses(r: Regs, n: u10, m: u10, k: nat): nat {
    if k == 0 then 0 else ShiftedPulses(r, n, m, k - 1) + if After(r, n, m, k).cenb0 then 1 else 0
  }

  lemma StepInRange(r: Regs, n: u10, m: u10)
    requires 0 < n <= m && r.cencnt < m
    ensures var s := Step(r, true, n, m);
      && s.cencnt < m
      && (if s.cen0 then m + s.cencnt == r.cencnt + n else s.cencnt == r.cencnt + n)
      && (s.cen0 ==> !s.half && (r.half || s.cenb0))
      && (if s.cenb0 then 1 else 0) + (if r.half then 1 else 0) == (if s.half then 1 else 0) + (if s.cen0 then 1 else 0)
  {
  }

  /** The accumulator stays below m and no fraction of a pulse is ever lost. */
  lemma {:induction false} Conservation(r: Regs, n: u10, m: u10, k: nat)
    requires 0 < n <= m && r.cencnt < m
    ensures After(r, n, m, k).cencnt < m
    ensures m * Pulses(r, n, m, k) + After(r, n, m, k).cencnt == r.cencnt + k * n
  {
    hide Step;
    if k > 0 {
      Conservation(r, n, m, k - 1);
      StepInRange(After(r, n, m, k - 1), n, m);
      MulSucc(Pulses(r, n, m, k - 1), m);
      MulSucc(k - 1, n);
    }
  }

  /** After any number of clocks the pulses are the floor of the exact rate. */
  lemma PulseRate(r: Regs, n: u10, m: u10, k: nat)
    requires 0 < n <= m && r.cencnt < m
    ensures Pulses(r, n, m, k) == (r.cencnt + k * n) / m
  {
    hide Step, After, Pulses;
    Conservation(r, n, m, k);
    var p, c := Pulses(r, n, m, k), After(r, n, m, k).cencnt;
    DivMod(r.cencnt + k * n, p, c, m);
  }

  lemma EdgeStep(r: Regs, n: u10, m: u10)
    requires r.edgecnt < 4
    ensures var s := Step(r, true, n, m);
      && s.edgecnt < 4
      && if s.cen0 then s.edgecnt % 2 == 1 - r.edgecnt % 2 && s.cen1 == (r.edgecnt % 2 == 0)
         else s.edgecnt == r.edgecnt && !s.cen1
  {
  }

  /** cen[1] fires on every second pulse of cen[0]: two pulses for each of its own, with
      the parity of the edge counter as the remainder. */
  lemma {:induction false} HalfRate(r: Regs, n: u10, m: u10, k: nat)
    requires r.edgecnt < 4
    ensures After(r, n, m, k).edgecnt < 4
    ensures 2 * HalfRatePulses(r, n, m, k) + r.edgecnt % 2 == Pulses(r, n, m, k) + After(r, n, m, k).edgecnt % 2
  {
    hide Step;
    if k > 0 {
      HalfRate(r, n, m, k - 1);
      EdgeStep(After(r, n, m, k - 1), n, m);
    }
  }

  /** The shifted pulses keep step with the pulses: they are ahead by one exactly while
      the half flag is set. */
  lemma {:induction false} ShiftedInStep(r: Regs, n: u10, m: u10, k: nat)
    requires 0 < n <= m && r.cencnt < m
    ensures ShiftedPulses(r, n, m, k) + (if r.half then 1 else 0)
         == Pulses(r, n, m, k) + (if After(r, n, m, k).half then 1 else 0)
  {
    if k > 0 {
      hide Step;
      ShiftedInStep(r, n, m, k - 1);
      Conservation(r, n, m, k - 1);
      StepInRange(After(r, n, m, k - 1), n, m);
    }
  }

  /** So each period of cen[0], from one pulse to the next, contains exactly one cenb[0]. */
  lemma OneShiftedPerPeriod(r: Regs, n: u10, m: u10, a: nat, b: nat)
    requires 0 < n <= m && r.cencnt < m && 0 < a < b
    requires After(r, n, m, a).cen0 && After(r, n, m, b).cen0 && Pulses(r, n, m, b) == Pulses(r, n, m, a) + 1
    ensures ShiftedPulses(r, n, m, b) == ShiftedPulses(r, n, m, a) + 1
  {
    ShiftedInStep(r, n, m, a);
    ShiftedInStep(r, n, m, b);
    Conservation(r, n, m, a - 1);
    Conservation(r, n, m, b - 1);
    StepInRange(After(r, n, m, a - 1), n, m);
    StepInRange(After(r, n, m, b - 1), n, m);
  }

  /** Up to a rate of one half the shifted pulse falls in the middle of the period: half is set
      exactly while the accumulator is in its upper half, cenb[0] fires when it gets there. */
  lemma MiddleStep(r: Regs, n: u10, m: u10)
    requires 0 < n && 2 * n <= m && r.cencnt < m && (r.half <==> r.cencnt >= m / 2)
    ensures var s := Step(r, true, n, m);
      && (s.half <==> s.cencnt >= m / 2)
      && (s.cenb0 <==> r.cencnt < m / 2 <= r.cencnt + n)
  {
  }

  lemma {:induction false} MiddleRun(r: Regs, n: u10, m: u10, k: nat)
    requires 0 < n && 2 * n <= m && r.cencnt < m && (r.half <==> r.cencnt >= m / 2)
    ensures After(r, n, m, k).half <==> After(r, n, m, k).cencnt >= m / 2
  {
    hide Step;
    if k > 0 {
      MiddleRun(r, n, m, k - 1);
      Conservation(r, n, m, k - 1);
      MiddleStep(After(r, n, m, k - 1), n, m);
    }
  }

  /** So the shifted pulses since reset are the pulses of a rate that is half a period ahead. */
  lemma ShiftedRate(n: u10, m: u10, k: nat)
    requires 0 < n && 2 * n <= m
    ensures ShiftedPulses(RESET, n, m, k) == (k * n + m - m / 2) / m
  {
    hide Step, After, Pulses, ShiftedPulses;
    Conservation(RESET, n, m, k);
    MiddleRun(RESET, n, m, k);
    ShiftedInStep(RESET, n, m, k);
    var p, c, h := Pulses(RESET, n, m, k), After(RESET, n, m, k).cencnt, m / 2;
    if c >= h {
      MulSucc(p, m);
      DivMod(k * n + m - h, p + 1, c - h, m);
    } else {
      DivMod(k * n + m - h, p, c + m - h, m);
    }
  }

  // ------------------------------------------------------------- a gated clock

  function Gated(r: Regs, n: u10, m: u10, cens: seq<bool>): Regs {
    if cens == [] then r else Step(Gated(r, n, m, cens[..|cens| - 1]), cens[|cens| - 1], n, m)
  }

  function Enabled(cens: seq<bool>): nat {
    if cens == [] then 0 else Enabled(cens[..|cens| - 1]) + if cens[|cens| - 1] then 1 else 0
  }

  /** Clocks without cen_in are pauses: the counters are those of the enabled clocks alone, and
      the outputs are low. */
  lemma {:induction false} GatedPauses(r: Regs, n: u10, m: u10, cens: seq<bool>)
    ensures var g, a := Gated(r, n, m, cens), After(r, n, m, Enabled(cens));
      && (g.cencnt, g.half, g.edgecnt) == (a.cencnt, a.half, a.edgecnt)
      && (cens != [] ==> if cens[|cens| - 1] then g == a else !g.cen0 && !g.cen1 && !g.cenb0)
  {
    if cens != [] {
      hide Step;
      var before := cens[..|cens| - 1];
      GatedPauses(r, n, m, before);
      GatedStep(Gated(r, n, m, before), After(r, n, m, Enabled(before)), n, m);
    }
  }

  lemma GatedStep(g: Regs, a: Regs, n: u10, m: u10)
    requires (g.cencnt, g.half, g.edgecnt) == (a.cencnt, a.half, a.edgecnt)
    ensures Step(g, true, n, m) == Step(a, true, n, m)
    ensures Step(g, false, n, m) == Regs(a.cencnt, a.half, a.edgecnt, false, false, false)
  {
  }

  // ------------------------------------------------------------- any register contents

  /** An accumulator left at or above m by an earlier setting works its way down. */
  lemma {:induction false} Recovers(r: Regs, n: u10, m: u10) returns (k: nat)
    requires 0 < n <= m && (n < m || r.cencnt < m || r.cencnt + n >= 0x800)
    ensures k <= r.cencnt && After(r, n, m, k).cencnt < m
    decreases r.cencnt
  {
    if r.cencnt < m {
      k := 0;
    } else {
      var s := Step(r, true, n, m);
      var j := Recovers(s, n, m);
      AfterShift(r, n, m, j);
      k := j + 1;
    }
  }

  lemma {:induction false} AfterShift(r: Regs, n: u10, m: u10, k: nat)
    ensures After(Step(r, true, n, m), n, m, k) == After(r, n, m, k + 1)
  {
    if k > 0 {
      AfterShift(r, n, m, k - 1);
    }
  }

  lemma {:induction false} Stuck(r: Regs, m: u10, k: nat)
    requires 0 < m <= r.cencnt && r.cencnt + m < 0x800
    ensures After(r, m, m, k).cencnt == r.cencnt
  {
    if k > 0 {
      Stuck(r, m, k - 1);
      var s := After(r, m, m, k - 1);
      assert (s.cencnt + m) % 0x800 == s.cencnt + m;
    }
  }

  /** From any contents the accumulator comes into range, if and only if the rate is
      below one, or it is in range, or the next sum overflows its eleven bits. */
  lemma RecoversExactly(r: Regs, n: u10, m: u10)
    requires 0 < n <= m
    ensures (exists k :: After(r, n, m, k).cencnt < m) <==> n < m || r.cencnt < m || r.cencnt + n >= 0x800
  {
    if n < m || r.cencnt < m || r.cencnt + n >= 0x800 {
      var k := Recovers(r, n, m);
    } else {
      forall k: nat ensures After(r, n, m, k).cencnt >= m {
        Stuck(r, m, k);
      }
    }
  }

  /** The firmware's setting, one pulse in four: in range, the accumulator counts 0, 1,
      2, 3 and the enable is high exactly in the clock after 3. */
  lemma OneInFour(r: Regs)
    requires r.cencnt < 4
    ensures var s := Step(r, true, 1, 4);
      s.cencnt == (if r.cencnt == 3 then 0 else r.cencnt + 1) && s.cen0 == (r.cencnt == 3)
  {
  }
}
