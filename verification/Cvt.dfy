/** The timing calculator of hdmi.c: determine_vsync and calculate_cvt, over real numbers. */
module Cvt {
  import opened Words

  // ------------------------------------------------------------- vertical sync

  const VSYNC := [4, 5, 6, 7, 7]

  /** The rounded width that an aspect ratio gives for h lines. */
  function WidthFor(h: nat, ar: nat): nat
    requires ar < 5
  {
    match ar
    case 0 => h * 4 / 12 * 4
    case 1 => h * 16 / 36 * 4
    case 2 => h * 16 / 40 * 4
    case 3 => h * 5 / 16 * 4
    case _ => h * 15 / 36 * 4
  }

  /** Its meaning: the width in the proportions 4:3, 16:9, 16:10, 5:4 or 15:9, rounded down to
      a multiple of four. */
  lemma WidthProportions(h: nat)
    ensures RoundedTo(4 * h, 3, WidthFor(h, 0)) && RoundedTo(16 * h, 9, WidthFor(h, 1))
    ensures RoundedTo(16 * h, 10, WidthFor(h, 2)) && RoundedTo(5 * h, 4, WidthFor(h, 3))
    ensures RoundedTo(15 * h, 9, WidthFor(h, 4))
  {
    hide RoundedTo;
    Rounding(h * 4, 12, 3, WidthFor(h, 0) / 4);
    Rounding(h * 16, 36, 9, WidthFor(h, 1) / 4);
    Rounding(h * 16, 40, 10, WidthFor(h, 2) / 4);
    Rounding(h * 5, 16, 4, WidthFor(h, 3) / 4);
    Rounding(h * 15, 36, 9, WidthFor(h, 4) / 4);
  }

  /** w is a / d, rounded down to a multiple of four. */
  predicate RoundedTo(a: nat, d: nat, w: nat) { w % 4 == 0 && d * w <= a < d * (w + 4) }

  lemma Rounding(a: nat, d4: nat, d: nat, q: nat)
    requires d4 == 4 * d > 0 && q == a / d4
    ensures RoundedTo(a, d, 4 * q)
  {
    var p, r := d * q, a % d4;
    assert a == d4 * q + r && d4 * q == 4 * p by { Quadruple(d, q); }
    DivMod(4 * q, q, 0, 4);
    assert d * (4 * q) == 4 * p && d * (4 * q + 4) == 4 * p + 4 * d by { Quadruple(d, q); }
  }

  lemma Quadruple(d: nat, q: nat)
    ensures 4 * d * q == 4 * (d * q) == d * (4 * q) && d * (4 * q + 4) == d * (4 * q) + 4 * d
  {
  }

  /** The sync width of the first aspect ratio that fits, in the order of the table; ten
      lines if none does. */
  method DetermineVsync(w: nat, h: nat) returns (vsync: nat)
    ensures (exists ar | 0 <= ar < 5 ::
               WidthFor(h, ar) == w && vsync == VSYNC[ar] && forall e | 0 <= e < ar :: WidthFor(h, e) != w)
         || (vsync == 10 && forall e | 0 <= e < 5 :: WidthFor(h, e) != w)
    ensures vsync == VsyncFor(w, h)
  {
    var ar := 0;
    while ar < 5
      invariant 0 <= ar <= 5 && forall e | 0 <= e < ar :: WidthFor(h, e) != w
    {
      var wCalc := WidthFor(h, ar);
      if wCalc == w {
        return VSYNC[ar];
      }
      ar := ar + 1;
    }
    return 10;
  }

  function VsyncFor(w: nat, h: nat): (v: nat)
    ensures 4 <= v <= 10
  {
    if WidthFor(h, 0) == w then 4 else if WidthFor(h, 1) == w then 5 else if WidthFor(h, 2) == w then 6
    else if WidthFor(h, 3) == w || WidthFor(h, 4) == w then 7 else 10
  }

  /** Every size in the exact proportions 4:3, 16:9, 16:10, 5:4 and 15:9, on a grid that the
      rounding keeps, has its sync width: 4, 5, 6, 7 and 7 lines. */
  lemma AspectRatios(k: nat)
    requires k >= 3
    ensures VsyncFor(4 * k, 3 * k) == 4
    ensures VsyncFor(16 * k, 9 * k) == 5
    ensures VsyncFor(16 * k, 10 * k) == 6
    ensures VsyncFor(20 * k, 16 * k) == 7
    ensures VsyncFor(60 * k, 36 * k) == 7
  {
    hide WidthFor;
    Standard(k);
    Wide(k);
    Computer(k);
    Square(k);
    Cinema(k);
  }

  /** A rounded width is the one given exactly when the division comes out as its quarter. */
  lemma QuarterOf(a: nat, d: nat, q: nat)
    requires d > 0
    ensures a / d * 4 == 4 * q <==> d * q <= a < d * (q + 1)
  {
    var r := a % d;
    assert a == a / d * d + r;
    if d * q <= a < d * (q + 1) {
      DivMod(a, q, a - d * q, d);
    }
    if a / d == q {
      assert a == d * q + r && d * (q + 1) == d * q + d;
    }
  }

  lemma Standard(k: nat)
    ensures WidthFor(3 * k, 0) == 4 * k
  {
    QuarterOf(3 * k * 4, 12, k);
  }

  lemma Wide(k: nat)
    requires k > 0
    ensures WidthFor(9 * k, 1) == 16 * k && WidthFor(9 * k, 0) != 16 * k
  {
    QuarterOf(9 * k * 16, 36, 4 * k);
    QuarterOf(9 * k * 4, 12, 4 * k);
  }

  lemma Computer(k: nat)
    requires k >= 3
    ensures WidthFor(10 * k, 2) == 16 * k && WidthFor(10 * k, 0) != 16 * k && WidthFor(10 * k, 1) != 16 * k
  {
    QuarterOf(10 * k * 16, 40, 4 * k);
    QuarterOf(10 * k * 4, 12, 4 * k);
    QuarterOf(10 * k * 16, 36, 4 * k);
  }

  lemma Square(k: nat)
    requires k >= 3
    ensures WidthFor(16 * k, 3) == 20 * k && WidthFor(16 * k, 0) != 20 * k && WidthFor(16 * k, 1) != 20 * k
    ensures WidthFor(16 * k, 2) != 20 * k
  {
    QuarterOf(16 * k * 5, 16, 5 * k);
    QuarterOf(16 * k * 4, 12, 5 * k);
    QuarterOf(16 * k * 16, 36, 5 * k);
    QuarterOf(16 * k * 16, 40, 5 * k);
  }

  lemma Cinema(k: nat)
    requires k > 0
    ensures WidthFor(36 * k, 4) == 60 * k && WidthFor(36 * k, 0) != 60 * k && WidthFor(36 * k, 1) != 60 * k
    ensures WidthFor(36 * k, 2) != 60 * k && WidthFor(36 * k, 3) != 60 * k
  {
    QuarterOf(36 * k * 15, 36, 15 * k);
    QuarterOf(36 * k * 4, 12, 15 * k);
    QuarterOf(36 * k * 16, 36, 15 * k);
    QuarterOf(36 * k * 16, 40, 15 * k);
    QuarterOf(36 * k * 5, 16, 15 * k);
  }

  // ------------------------------------------------------------- line period

  /** The estimate of the line period, in microseconds, with normal and with reduced blanking.
      It is positive exactly for rates whose frames last longer than the fixed blanking time. */
  function Period(lines: nat, rate: real): (p: real)
    requires rate > 0.0
    ensures p > 0.0 <==> 550.0 * rate < 1000000.0
  {
    FrameTime(rate, 1.0, 550.0 / 1000000.0);
    SignOfQuotient(1.0 / rate - 550.0 / 1000000.0, (lines + 3) as real);
    (1.0 / rate - 550.0 / 1000000.0) / (lines + 3) as real * 1000000.0
  }

  function ReducedPeriod(lines: nat, rate: real): (p: real)
    requires rate > 0.0 && lines > 0
    ensures p > 0.0 <==> 460.0 * rate < 1000000.0
  {
    FrameTime(rate, 1000000.0, 460.0);
    SignOfQuotient(1000000.0 / rate - 460.0, lines as real);
    (1000000.0 / rate - 460.0) / lines as real
  }

  lemma FrameTime(rate: real, unit: real, fixed: real)
    requires rate > 0.0
    ensures unit / rate - fixed > 0.0 <==> fixed * rate < unit
  {
    var t := unit / rate;
    assert t * rate == unit;
    RealOrder(fixed, t, rate);
  }

  lemma SignOfQuotient(x: real, d: real)
    requires d > 0.0
    ensures x / d > 0.0 <==> x > 0.0
  {
    var q := x / d;
    assert q * d == x;
    RealOrder(0.0, q, d);
  }

  /** The line counts and rates for which the source's estimate is a positive number. */
  predicate Sensible(lines: nat, rate: real, reduced: bool) {
    && rate > 0.0
    && if reduced then lines > 0 && 460.0 * rate < 1000000.0 else 550.0 * rate < 1000000.0
  }

  // ------------------------------------------------------------- the calculation

  datatype Timing = Timing(hact: int, hfp: int, hs: int, hbp: int, vact: int, vfp: int, vs: int, vbp: int, mhz: real)

  /** The blanking that makes `duty` percent of the whole line. */
  function Stretch(w: real, duty: real): real
    requires duty < 100.0
  {
    w * duty / (100.0 - duty)
  }

  /** Horizontal blanking for a rounded width, by duty cycle. */
  function Blank(w: nat, duty: real): int
    requires duty < 100.0
  {
    if duty < 20.0 then w / 4 / 8 * 8 else (Stretch(w as real, duty) / 8.0).Floor * 8
  }

  /** The horizontal sync pulse. */
  function SyncWidth(total: int): int { (0.08 * total as real / 4.0).Floor * 4 }

  function Duty(period: real): real { 30.0 - 300.0 * period / 1000.0 }

  function LinesFor(time: real, period: real): int
    requires period > 0.0
  {
    (time / period).Floor + 1
  }

  function Rounded(width: nat): nat { width / 4 * 4 }

  /** calculate_cvt, before the fields are stored in 16 bits. */
  function Calculate(width: nat, lines: nat, rate: real, reduced: bool): Timing
    requires Sensible(lines, rate, reduced)
  {
    var w := Rounded(width);
    var vs := VsyncFor(w, lines);
    if reduced then
      var vbi := Max(LinesFor(460.0, ReducedPeriod(lines, rate)), 3 + vs + 6);
      Timing(w, 160 - 32 - 80, 32, 80, lines, 2, vs, vbi - 3 - vs + 1,
             rate * ((vbi + lines) * (160 + w)) as real / 1000000.0)
    else
      var period := Period(lines, rate);
      var syncBp := Max(LinesFor(550.0, period), vs + 6);
      var blank := Blank(w, Duty(period));
      var hs := SyncWidth(w + blank);
      Timing(w, blank - hs - blank / 2, hs, blank / 2, lines, 2, vs, syncBp - vs + 1, (w + blank) as real / period)
  }

  // ------------------------------------------------------------- what it guarantees

  function Duration(lines: int, period: real): real { lines as real * period }

  /** So many lines last longer than the time they are for. */
  lemma LinesSuffice(time: real, period: real, n: int)
    requires period > 0.0 && time > 0.0 && n >= LinesFor(time, period)
    ensures Duration(n, period) > time
  {
    var q := time / period;
    assert q * period == time;
    RealOrder(q, n as real, period);
  }

  /** Blanking is a whole number of double cells and at least a quarter of the width, less
      the rounding. */
  lemma BlankBound(w: nat, duty: real)
    requires w % 4 == 0 && duty < 30.0
    ensures Blank(w, duty) % 8 == 0 && Blank(w, duty) >= 0 && 4 * Blank(w, duty) + 28 >= w
  {
    var q := w / 4;
    assert w == 4 * q;
    if duty < 20.0 {
      var b := q / 8;
      assert Blank(w, duty) == 8 * b;
    } else {
      BlankWide(w, q, duty);
    }
  }

  lemma BlankWide(w: nat, q: nat, duty: real)
    requires w == 4 * q && 20.0 <= duty < 30.0
    ensures Blank(w, duty) % 8 == 0 && Blank(w, duty) >= 0 && Blank(w, duty) + 7 >= q
  {
    hide Stretch;
    QuarterBound(w as real, duty);
    FloorBound(Stretch(w as real, duty), q);
  }

  lemma FloorBound(x: real, q: nat)
    requires x >= q as real
    ensures (x / 8.0).Floor >= 0 && 8 * (x / 8.0).Floor + 7 >= q
  {
    var b := (x / 8.0).Floor;
    assert (8 * b + 8) as real > q as real;
  }

  lemma QuarterBound(w: real, duty: real)
    requires w >= 0.0 && 20.0 <= duty < 30.0
    ensures w / 4.0 <= Stretch(w, duty) <= w
  {
    var r, x := 100.0 - duty, Stretch(w, duty);
    assert r * x == w * duty;
    RealNonneg(w, duty - 20.0);
    assert w * duty == w * (duty - 20.0) + 20.0 * w;
    assert r * (w / 4.0) == 20.0 * w - w * (duty - 20.0) / 4.0;
    RealOrder(w / 4.0, x, r);
    RealNonneg(w, r - duty);
    RealOrder(x, w, r);
  }

  /** The sync pulse fits the half of the blanking that is not back porch, for every width. */
  lemma SyncFits(w: nat, blank: int)
    requires blank >= 0 && blank % 8 == 0 && w % 4 == 0 && 4 * blank + 28 >= w
    ensures 0 <= SyncWidth(w + blank) <= blank - blank / 2
  {
    var b := blank / 8;
    assert blank == 8 * b;
    var x := 0.08 * (w + blank) as real / 4.0;
    assert x == 0.02 * (w + blank) as real;
    assert (w + blank) as real <= (40 * b + 28) as real;
    assert x <= 0.8 * b as real + 0.56;
    assert x < b as real + 1.0;
    assert x.Floor <= b;
  }

  /** For every width, line count and rate with a positive line period: the horizontal
      porches are non-negative and add up to the blanking, the vertical back porch has at
      least seven lines, and by the line period that was estimated vertical sync and back
      porch last more than 550 us (with reduced blanking: the whole vertical blank more
      than 460 us). */
  lemma CvtIsSound(width: nat, lines: nat, rate: real, reduced: bool)
    requires Sensible(lines, rate, reduced)
    ensures var t := Calculate(width, lines, rate, reduced);
      && t.hact == Rounded(width) && t.vact == lines
      && t.hfp >= 0 && t.hs >= 0 && t.hbp >= 0
      && t.hfp + t.hs + t.hbp == (if reduced then 160 else Blank(t.hact, Duty(Period(lines, rate))))
      && t.vfp == 2 && 4 <= t.vs <= 10 && t.vbp >= 7
      && if reduced then Duration(t.vfp + t.vs + t.vbp, ReducedPeriod(lines, rate)) > 460.0
         else Duration(t.vs + t.vbp, Period(lines, rate)) > 550.0
  {
    hide Blank, SyncWidth, LinesFor, VsyncFor, Period, ReducedPeriod, Duration;
    var t := Calculate(width, lines, rate, reduced);
    if reduced {
      LinesSuffice(460.0, ReducedPeriod(lines, rate), t.vfp + t.vs + t.vbp);
    } else {
      var period := Period(lines, rate);
      BlankBound(t.hact, Duty(period));
      SyncFits(t.hact, Blank(t.hact, Duty(period)));
      LinesSuffice(550.0, period, t.vs + t.vbp);
    }
  }

  /** With reduced blanking the pixel clock is exactly the rate times the pixels of a frame. */
  lemma ReducedClock(width: nat, lines: nat, rate: real)
    requires Sensible(lines, rate, true)
    ensures var t := Calculate(width, lines, rate, true);
      t.mhz * 1000000.0 == rate * ((t.hact + t.hfp + t.hs + t.hbp) * (t.vact + t.vfp + t.vs + t.vbp)) as real
  {
    hide LinesFor, VsyncFor, ReducedPeriod;
    var t := Calculate(width, lines, rate, true);
    var h, v := t.hact + t.hfp + t.hs + t.hbp, t.vact + t.vfp + t.vs + t.vbp;
    assert h == 160 + t.hact;
    assert t.mhz == rate * (v * h) as real / 1000000.0;
    assert v * h == h * v;
  }

  /** Otherwise one line of pixels takes exactly the estimated line period. */
  lemma NormalClock(width: nat, lines: nat, rate: real)
    requires Sensible(lines, rate, false)
    ensures var t := Calculate(width, lines, rate, false);
      t.mhz * Period(lines, rate) == (t.hact + t.hfp + t.hs + t.hbp) as real
  {
    hide Blank, SyncWidth, LinesFor, VsyncFor, Period;
    var t := Calculate(width, lines, rate, false);
    Quotient((t.hact + t.hfp + t.hs + t.hbp) as real, Period(lines, rate));
  }

  lemma Quotient(x: real, p: real)
    requires p > 0.0
    ensures x / p * p == x
  {
  }

  // ------------------------------------------------------------- field by field

  /** The lines and the fixed blanking time fill a frame: lines + 3 periods and 550 us, or with
      reduced blanking `lines` periods and 460 us. */
  lemma FrameIsFilled(lines: nat, rate: real)
    requires rate > 0.0
    ensures Period(lines, rate) * (lines + 3) as real + 550.0 == 1000000.0 / rate
    ensures lines > 0 ==> ReducedPeriod(lines, rate) * lines as real + 460.0 == 1000000.0 / rate
  {
    var n := (lines + 3) as real;
    Quotient(1.0 / rate - 550.0 / 1000000.0, n);
    assert 1000000.0 * (1.0 / rate) == 1000000.0 / rate;
    if lines > 0 {
      Quotient(1000000.0 / rate - 460.0, lines as real);
    }
  }

  /** The stretched blanking is the duty cycle's share of the whole line. */
  lemma StretchShare(w: real, duty: real)
    requires duty < 100.0
    ensures 100.0 * Stretch(w, duty) == duty * (w + Stretch(w, duty))
  {
    Quotient(w * duty, 100.0 - duty);
    var x := Stretch(w, duty);
    assert x * (100.0 - duty) == 100.0 * x - duty * x;
    assert duty * (w + x) == duty * w + duty * x;
  }

  /** The blanking of a width, before it is divided up. */
  lemma BlankFields(w: nat, duty: real)
    requires w % 4 == 0 && duty < 30.0
    ensures Blank(w, duty) % 8 == 0 && BlankOf(w, Blank(w, duty), duty)
  {
    BlankBound(w, duty);
    if duty < 20.0 {
      Eighths(w);
    } else {
      hide Stretch;
      DownToEights(Stretch(w as real, duty));
    }
  }

  lemma Eighths(w: nat)
    ensures var b := w / 4 / 8 * 8; 4 * b <= w < 4 * (b + 8)
  {
  }

  lemma DownToEights(x: real)
    ensures var b := (x / 8.0).Floor * 8; b as real <= x < (b + 8) as real
  {
    var q := (x / 8.0).Floor;
    assert q as real <= x / 8.0 < (q + 1) as real;
  }

  /** The horizontal fields a duty cycle calls for. Below 20 % the blanking is a quarter of the
      width, otherwise the duty cycle's share of the line, both rounded down to eights. Half of
      it is the back porch; the sync pulse is 8 % of the whole line, rounded down to fours. */
  predicate HorizontalOf(t: Timing, width: nat, duty: real)
    requires duty < 100.0
  {
    && width - 3 <= t.hact <= width && t.hact % 4 == 0
    && BlankOf(t.hact, t.hfp + t.hs + t.hbp, duty) && 2 * t.hbp == t.hfp + t.hs + t.hbp
    && SyncOf(t.hact + t.hfp + t.hs + t.hbp, t.hs)
  }

  predicate BlankOf(w: int, blank: int, duty: real)
    requires duty < 100.0
  {
    && blank % 8 == 0
    && (duty < 20.0 ==> 4 * blank <= w < 4 * (blank + 8))
    && (duty >= 20.0 ==> blank as real <= Stretch(w as real, duty) < (blank + 8) as real)
  }

  predicate SyncOf(total: int, hs: int) { hs % 4 == 0 && 100 * hs <= 8 * total < 100 * (hs + 4) }

  /** Normal blanking has the fields of a duty cycle of 30 %, less 0.3 % for every microsecond
      of line period. */
  lemma HorizontalFields(width: nat, lines: nat, rate: real)
    requires Sensible(lines, rate, false)
    ensures Period(lines, rate) > 0.0
    ensures HorizontalOf(Calculate(width, lines, rate, false), width, 30.0 - 0.3 * Period(lines, rate))
  {
    CalculatedFields(width, lines, rate);
    DutyOf(Period(lines, rate));
    hide Calculate, Period, Duty, Blank, SyncWidth, Rounded, HorizontalOf;
    FieldsOfDuty(Calculate(width, lines, rate, false), width, Duty(Period(lines, rate)));
  }

  lemma FieldsOfDuty(t: Timing, width: nat, duty: real)
    requires duty < 30.0 && t.hact == Rounded(width)
    requires t.hs == SyncWidth(t.hact + Blank(t.hact, duty)) && t.hbp == Blank(t.hact, duty) / 2
    requires t.hfp + t.hs + t.hbp == Blank(t.hact, duty)
    ensures HorizontalOf(t, width, duty)
  {
    var blank := Blank(t.hact, duty);
    assert t.hact + t.hfp + t.hs + t.hbp == t.hact + blank;
    RoundedWidth(width);
    BlankFields(t.hact, duty);
    SyncShare(t.hact + blank);
    HalfOf(blank);
    hide Blank, SyncWidth, Rounded, BlankOf, SyncOf;
  }

  lemma HalfOf(n: int)
    requires n % 8 == 0
    ensures 2 * (n / 2) == n
  {
    DivMod(n, 4 * (n / 8), 0, 2);
  }

  lemma RoundedWidth(width: nat)
    ensures width - 3 <= Rounded(width) <= width && Rounded(width) % 4 == 0
  {
  }

  lemma DutyOf(period: real)
    ensures Duty(period) == 30.0 - 0.3 * period && (period > 0.0 ==> Duty(period) < 30.0)
  {
  }

  lemma CalculatedFields(width: nat, lines: nat, rate: real)
    requires Sensible(lines, rate, false)
    ensures Period(lines, rate) > 0.0 && Duty(Period(lines, rate)) < 100.0
    ensures var t := Calculate(width, lines, rate, false);
      var blank := Blank(t.hact, Duty(Period(lines, rate)));
      && t.hact == Rounded(width) && t.hs == SyncWidth(t.hact + blank) && t.hbp == blank / 2
      && t.hfp + t.hs + t.hbp == blank
  {
    hide Blank, SyncWidth, LinesFor, VsyncFor, Period, Rounded;
  }

  lemma SyncShare(total: int)
    ensures SyncOf(total, SyncWidth(total))
  {
    var x := 0.08 * total as real / 4.0;
    assert x == 0.02 * total as real;
    var q := x.Floor;
    assert q as real <= x < (q + 1) as real;
    assert (100 * q) as real <= (2 * total) as real < (100 * (q + 1)) as real;
    DivMod(4 * q, q, 0, 4);
  }

  /** The vertical fields. Two lines of front porch; the sync width of the aspect ratio; a back
      porch one line longer than the fewest lines, at least six, with which sync and back porch
      (with reduced blanking: three more lines with them) last longer than their minimum. */
  lemma VerticalFields(width: nat, lines: nat, rate: real, reduced: bool)
    requires Sensible(lines, rate, reduced)
    ensures var t := Calculate(width, lines, rate, reduced);
      var period := if reduced then ReducedPeriod(lines, rate) else Period(lines, rate);
      var time, n := if reduced then 460.0 else 550.0, t.vbp - 1 + t.vs + if reduced then 3 else 0;
      && t.vact == lines && t.vfp == 2 && t.vs == VsyncFor(t.hact, lines) && t.vbp >= 7
      && Duration(n, period) > time && (t.vbp == 7 || Duration(n - 1, period) <= time)
      && (reduced ==> t.hfp == 48 && t.hs == 32 && t.hbp == 80)
  {
    hide Blank, SyncWidth, LinesFor, VsyncFor, Period, ReducedPeriod, Duration;
    var t := Calculate(width, lines, rate, reduced);
    var period := if reduced then ReducedPeriod(lines, rate) else Period(lines, rate);
    var time, n := if reduced then 460.0 else 550.0, t.vbp - 1 + t.vs + if reduced then 3 else 0;
    LinesAtMost(time, period, n);
    LinesAtMost(time, period, n - 1);
  }

  // ------------------------------------------------------------- stored in 16 bits

  datatype VideoMode = VideoMode(hact: u16, hfp: u16, hs: u16, hbp: u16, vact: u16, vfp: u16, vs: u16, vbp: u16, mhz: real)

  /** calculate_cvt as a caller sees it. */
  method CalculateCvt(width: u16, lines: u16, rate: real, reduced: bool) returns (mode: VideoMode)
    requires Sensible(lines, rate, reduced)
    ensures var t := Calculate(width, lines, rate, reduced);
      mode == VideoMode(t.hact, Wrap16(t.hfp), Wrap16(t.hs), Wrap16(t.hbp), t.vact, t.vfp, t.vs, Wrap16(t.vbp), t.mhz)
  {
    hide Wrap16, Blank, SyncWidth, LinesFor, WidthFor, VsyncFor, Period, ReducedPeriod;
    var w := width / 4 * 4;
    var vs := DetermineVsync(w, lines);
    if reduced {
      var period := ReducedPeriod(lines, rate);
      var vbiLines := LinesFor(460.0, period);
      var minVbi := 3 + vs + 6;
      var actVbi := if vbiLines < minVbi then minVbi else vbiLines;
      var total := 160 + w;
      mode := VideoMode(w, Wrap16(160 - 32 - 80), Wrap16(32), Wrap16(80), lines, 2, vs, Wrap16(actVbi - 3 - vs + 1),
                        rate * ((actVbi + lines) * total) as real / 1000000.0);
    } else {
      var period := Period(lines, rate);
      var syncBp := LinesFor(550.0, period);
      if syncBp < vs + 6 {
        syncBp := vs + 6;
      }
      var duty := 30.0 - 300.0 * period / 1000.0;
      var blank := Blank(w, duty);
      var total := w + blank;
      var hs := SyncWidth(total);
      mode := VideoMode(w, Wrap16(blank - hs - blank / 2), Wrap16(hs), Wrap16(blank / 2), lines, 2, vs,
                        Wrap16(syncBp - vs + 1), total as real / period);
    }
  }

  /** A caller's bound on the rate: the time that sync and back porch (or the whole
      vertical blank) are to last is less than so many line periods. */
  predicate Storable(width: nat, lines: nat, rate: real, reduced: bool)
    requires Sensible(lines, rate, reduced)
  {
    var vs := VsyncFor(Rounded(width), lines);
    if reduced then 460.0 < Duration(65537 + vs, ReducedPeriod(lines, rate))
    else 550.0 < Duration(65534 + vs, Period(lines, rate))
  }

  /** The number of lines for a time is at most n exactly when n lines last longer. */
  lemma LinesAtMost(time: real, period: real, n: int)
    requires period > 0.0 && time > 0.0
    ensures LinesFor(time, period) <= n <==> time < Duration(n, period)
  {
    var q := time / period;
    assert q * period == time;
    RealOrder(q, n as real, period);
  }

  /** The stored timing is the computed one if and only if the line period is not too
      short: only the vertical back porch can exceed sixteen bits. */
  lemma StoredExactly(width: u16, lines: u16, rate: real, reduced: bool)
    requires Sensible(lines, rate, reduced)
    ensures var t := Calculate(width, lines, rate, reduced);
      (Wrap16(t.hfp) == t.hfp && Wrap16(t.hs) == t.hs && Wrap16(t.hbp) == t.hbp && Wrap16(t.vbp) == t.vbp)
      <==> Storable(width, lines, rate, reduced)
  {
    hide Blank, SyncWidth, LinesFor, VsyncFor, Period, ReducedPeriod, Wrap16, Duration;
    CvtIsSound(width, lines, rate, reduced);
    var t := Calculate(width, lines, rate, reduced);
    if reduced {
      LinesAtMost(460.0, ReducedPeriod(lines, rate), 65537 + t.vs);
    } else {
      BlankAbove(t.hact, Duty(Period(lines, rate)));
      LinesAtMost(550.0, Period(lines, rate), 65534 + t.vs);
    }
    SmallWrap16(t.hfp);
    SmallWrap16(t.hs);
    SmallWrap16(t.hbp);
    if t.vbp < 0x1_0000 {
      SmallWrap16(t.vbp);
    }
  }

  lemma BlankAbove(w: nat, duty: real)
    requires duty < 30.0
    ensures Blank(w, duty) <= w
  {
    hide Stretch;
    if duty >= 20.0 {
      QuarterBound(w as real, duty);
      var x := Stretch(w as real, duty);
      assert ((x / 8.0).Floor * 8) as real <= x;
    }
  }
}
