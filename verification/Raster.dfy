/** The raster the CRT controller draws: after the boundary registers have settled the
    counters walk over every position of the frame, once each, whatever they held. */
module Raster {
  import opened Words
  import opened Crtc

  // ------------------------------------------------------------- settling

  /** The boundary registers hold the sums of the timing registers. */
  predicate Settled(r: Regs, m: Mode) {
    && Sized(r) && ModeOf(r) == m
    && r.hbStart == m.hbp + m.hact && r.hsStart == r.hbStart + m.hfp && r.hsEnd == m.Htotal()
    && r.vbStart == m.vbp + m.vact && r.vsStart == r.vbStart + m.vfp && r.vsEnd == m.Vtotal()
  }

  /** Clocks without reset or bus write, with the given pixel enables. */
  function Run(r: Regs, ces: seq<bool>): (s: Regs)
    requires Sized(r)
    ensures Sized(s)
    decreases |ces|
  {
    if ces == [] then r else Step(Run(r, ces[..|ces| - 1]), ces[|ces| - 1], QUIET)
  }

  lemma QuietMode(r: Regs, ce: bool)
    requires Sized(r)
    ensures ModeOf(Step(r, ce, QUIET)) == ModeOf(r)
  {
  }

  /** Three quiet clocks settle the boundary registers, from any contents. */
  lemma ThreeClocksSettle(r: Regs, a: bool, b: bool, c: bool)
    requires Sized(r) && ModeOf(r).Usable()
    ensures Settled(Step(Step(Step(r, a, QUIET), b, QUIET), c, QUIET), ModeOf(r))
  {
    hide ModeOf, Step;
    var m := ModeOf(r);
    var r1 := Step(r, a, QUIET);
    var r2 := Step(r1, b, QUIET);
    QuietMode(r, a);
    QuietMode(r1, b);
    QuietMode(r2, c);
    Boundaries(r, a);
    Boundaries(r1, b);
    Boundaries(r2, c);
  }

  lemma Boundaries(r: Regs, ce: bool)
    requires Sized(r)
    ensures var m, s := ModeOf(r), Step(r, ce, QUIET);
      && s.hbStart == Add12(m.hact, m.hbp) && s.hsStart == Add12(r.hbStart, m.hfp) && s.hsEnd == Add12(r.hsStart, m.hs)
      && s.vbStart == Add12(m.vact, m.vbp) && s.vsStart == Add12(r.vbStart, m.vfp) && s.vsEnd == Add12(r.vsStart, m.vs)
  {
  }

  // ------------------------------------------------------------- one enable

  datatype Pos = Pos(h: nat, v: nat)

  function Counters(r: Regs): Pos
    requires Sized(r)
  {
    Pos(Hcnt(r), Vcnt(r))
  }

  predicate InRange(m: Mode, p: Pos) { p.h < m.Htotal() && p.v < m.Vtotal() }

  /** The next position of a counter pair, in range or not. */
  function Advance(m: Mode, p: Pos): Pos {
    if p.h + 1 < m.Htotal() then Pos(p.h + 1, p.v)
    else Pos(0, if p.v + 1 < m.Vtotal() then p.v + 1 else 0)
  }

  lemma SettledStep(r: Regs, m: Mode, ce: bool)
    requires Settled(r, m) && m.Usable()
    ensures Settled(Step(r, ce, QUIET), m)
    ensures Counters(Step(r, ce, QUIET)) == if ce then Advance(m, Counters(r)) else Counters(r)
  {
    hide ModeOf, Step, Counters, Advance;
    QuietMode(r, ce);
    EnableStep(r, m, ce);
    Boundaries(r, ce);
  }

  lemma EnableStep(r: Regs, m: Mode, ce: bool)
    requires Settled(r, m) && m.Usable()
    ensures Counters(Step(r, ce, QUIET)) == if ce then Advance(m, Counters(r)) else Counters(r)
  {
    hide ModeOf, Add12;
  }

  function Walk(m: Mode, p: Pos, k: nat): Pos {
    if k == 0 then p else Advance(m, Walk(m, p, k - 1))
  }

  function Enables(ces: seq<bool>): nat {
    if ces == [] then 0 else Enables(ces[..|ces| - 1]) + if ces[|ces| - 1] then 1 else 0
  }

  /** The controller walks: only the number of enables counts, not their spacing. */
  lemma {:induction false} RunWalks(r: Regs, m: Mode, ces: seq<bool>)
    requires Sized(r) && Settled(r, m) && m.Usable()
    ensures Settled(Run(r, ces), m) && Counters(Run(r, ces)) == Walk(m, Counters(r), Enables(ces))
    decreases |ces|
  {
    hide Step, Settled, Counters, Advance;
    if ces != [] {
      var before := ces[..|ces| - 1];
      RunWalks(r, m, before);
      SettledStep(Run(r, before), m, ces[|ces| - 1]);
    }
  }

  // ------------------------------------------------------------- into range

  /** Enables still needed until both counters are in range. */
  function Distance(m: Mode, p: Pos): nat {
    if InRange(m, p) then 0 else if p.h < m.Htotal() then m.Htotal() - p.h else 1
  }

  /** From any counter values at most one line of enables leads into range. */
  lemma {:induction false} EntersRange(m: Mode, p: Pos, k: nat)
    requires m.Usable() && k >= m.Htotal()
    ensures InRange(m, Walk(m, p, k))
  {
    Approach(m, p, k);
  }

  lemma {:induction false} Approach(m: Mode, p: Pos, k: nat)
    requires m.Usable()
    ensures Distance(m, Walk(m, p, k)) <= Max(0, Distance(m, p) - k)
  {
    if k > 0 {
      Approach(m, p, k - 1);
    }
  }

  // ------------------------------------------------------------- once per frame

  function Index(m: Mode, p: Pos): nat { p.v * m.Htotal() + p.h }

  lemma IndexBound(m: Mode, p: Pos)
    requires InRange(m, p)
    ensures Index(m, p) < m.Pixels()
  {
    MulLe(p.v + 1, m.Vtotal(), m.Htotal());
    MulSucc(p.v, m.Htotal());
  }

  lemma MulLe(a: nat, b: nat, c: nat)
    requires a <= b
    ensures a * c <= b * c && c * a <= c * b
  {
    assert (b - a) * c >= 0;
    assert b * c == a * c + (b - a) * c;
  }

  lemma IndexStep(m: Mode, p: Pos)
    requires InRange(m, p) && m.Usable()
    ensures InRange(m, Advance(m, p))
    ensures Index(m, Advance(m, p)) == if Index(m, p) + 1 == m.Pixels() then 0 else Index(m, p) + 1
  {
    IndexBound(m, p);
    MulSucc(p.v, m.Htotal());
    var t := m.Htotal();
    if p.h + 1 < t {
      IndexBound(m, Pos(p.h + 1, p.v));
    } else if p.v + 1 < m.Vtotal() {
      IndexBound(m, Pos(0, p.v + 1));
      assert Index(m, p) + 1 == (p.v + 1) * t;
    } else {
      assert Index(m, p) + 1 == m.Vtotal() * t == m.Pixels();
    }
  }

  /** Along a walk the index counts up modulo the frame. */
  lemma {:induction false} IndexWalk(m: Mode, p: Pos, k: nat)
    requires InRange(m, p) && m.Usable() && k <= m.Pixels()
    ensures InRange(m, Walk(m, p, k))
    ensures var i := Index(m, p) + k;
      Index(m, Walk(m, p, k)) == if i < m.Pixels() then i else i - m.Pixels()
  {
    hide Index, Advance;
    IndexBound(m, p);
    if k > 0 {
      IndexWalk(m, p, k - 1);
      IndexStep(m, Walk(m, p, k - 1));
    }
  }

  lemma IndexInjective(m: Mode, p: Pos, q: Pos)
    requires InRange(m, p) && InRange(m, q) && Index(m, p) == Index(m, q)
    ensures p == q
  {
    var t := m.Htotal();
    if p.v < q.v {
      MulLe(p.v + 1, q.v, t);
      MulSucc(p.v, t);
    } else if q.v < p.v {
      MulLe(q.v + 1, p.v, t);
      MulSucc(q.v, t);
    }
  }

  /** A frame is exactly Pixels() enables, and from any position of the raster it visits
      every position exactly once. */
  lemma FrameVisitsOnce(m: Mode, p: Pos, q: Pos)
    requires m.Usable() && InRange(m, p) && InRange(m, q)
    ensures Walk(m, p, m.Pixels()) == p
    ensures exists k | 0 <= k < m.Pixels() :: Walk(m, p, k) == q
    ensures forall j, k | 0 <= j < m.Pixels() && 0 <= k < m.Pixels() ::
      Walk(m, p, j) == q && Walk(m, p, k) == q ==> j == k
  {
    hide Index, Advance, Walk;
    var n := m.Pixels();
    IndexBound(m, p);
    IndexBound(m, q);
    IndexWalk(m, p, n);
    IndexInjective(m, Walk(m, p, n), p);
    var k := if Index(m, q) >= Index(m, p) then Index(m, q) - Index(m, p) else Index(m, q) + n - Index(m, p);
    IndexWalk(m, p, k);
    IndexInjective(m, Walk(m, p, k), q);
    forall i, j | 0 <= i < n && 0 <= j < n && Walk(m, p, i) == q && Walk(m, p, j) == q
      ensures i == j
    {
      IndexWalk(m, p, i);
      IndexWalk(m, p, j);
    }
  }

  // ------------------------------------------------------------- blanking

  predicate Visible(m: Mode, p: Pos) {
    m.hbp <= p.h < m.hbp + m.hact && m.vbp <= p.v < m.vbp + m.vact
  }

  /** Unblanked is visible, and every sync pulse lies inside blanking. */
  lemma Blanking(r: Regs, m: Mode)
    requires Settled(r, m)
    ensures !Hblank(r) && !Vblank(r) <==> Visible(m, Counters(r))
    ensures Hsync(r) ==> Hblank(r)
    ensures Vsync(r) ==> Vblank(r)
  {
  }

  /** Sync is high in exactly the last hs columns of every line and the last vs lines of
      every frame: behind the active part and its front porch. */
  lemma SyncPulses(r: Regs, m: Mode)
    requires Settled(r, m) && m.Usable() && InRange(m, Counters(r))
    ensures Hsync(r) <==> m.Htotal() - m.hs <= Counters(r).h
    ensures Vsync(r) <==> m.Vtotal() - m.vs <= Counters(r).v
    ensures m.Htotal() - m.hs == m.hbp + m.hact + m.hfp && m.Vtotal() - m.vs == m.vbp + m.vact + m.vfp
  {
    hide ModeOf;
  }

  // ------------------------------------------------------------- counting

  /** The columns [h, h + w) of the lines [v, v + n). */
  datatype Box = Box(h: nat, w: nat, v: nat, n: nat) {
    predicate Has(p: Pos) { h <= p.h < h + w && v <= p.v < v + n }

    predicate Within(m: Mode) { h + w <= m.Htotal() && v + n <= m.Vtotal() }
  }

  /** How many of the first k positions of a walk are in a box. */
  function Seen(b: Box, m: Mode, p: Pos, k: nat): nat {
    if k == 0 then 0 else Seen(b, m, p, k - 1) + if b.Has(Walk(m, p, k - 1)) then 1 else 0
  }

  lemma {:induction false} WalkSum(b: Box, m: Mode, p: Pos, i: nat, j: nat)
    ensures Walk(m, p, i + j) == Walk(m, Walk(m, p, i), j)
    ensures Seen(b, m, p, i + j) == Seen(b, m, p, i) + Seen(b, m, Walk(m, p, i), j)
  {
    hide Advance, Box.Has;
    if j > 0 {
      WalkSum(b, m, p, i, j - 1);
      assert i + j - 1 == i + (j - 1);
    }
  }

  function Clamp(x: int, top: nat): nat { if x < 0 then 0 else if x < top then x else top }

  /** Within a line. */
  lemma {:induction false} LineWalk(b: Box, m: Mode, v: nat, h: nat)
    requires m.Usable() && v < m.Vtotal() && h <= m.Htotal()
    ensures Walk(m, Pos(0, v), h) == if h < m.Htotal() then Pos(h, v) else Pos(0, if v + 1 < m.Vtotal() then v + 1 else 0)
    ensures Seen(b, m, Pos(0, v), h) == if b.v <= v < b.v + b.n then Clamp(h - b.h, b.w) else 0
  {
    if h > 0 {
      LineWalk(b, m, v, h - 1);
    }
  }

  /** Over whole lines from the top of the frame. */
  lemma {:induction false} LinesWalk(b: Box, m: Mode, v: nat)
    requires m.Usable() && v <= m.Vtotal() && b.Within(m)
    ensures Walk(m, Pos(0, 0), v * m.Htotal()) == Pos(0, if v < m.Vtotal() then v else 0)
    ensures Seen(b, m, Pos(0, 0), v * m.Htotal()) == b.w * Clamp(v - b.v, b.n)
  {
    hide Advance, Box.Has;
    if v > 0 {
      var t := m.Htotal();
      LinesWalk(b, m, v - 1);
      LineWalk(b, m, v - 1, t);
      MulSucc(v - 1, t);
      assert (v - 1) * t >= 0;
      WalkSum(b, m, Pos(0, 0), (v - 1) * t, t);
      MulSucc(Clamp(v - 1 - b.v, b.n), b.w);
      assert Clamp(m.Htotal() - b.h, b.w) == b.w;
    } else {
      assert 0 * m.Htotal() == 0 && Clamp(0 - b.v, b.n) == 0;
    }
  }

  /** Every position of a box is passed once per frame, from any position on. */
  lemma BoxPerFrame(b: Box, m: Mode, p: Pos)
    requires m.Usable() && InRange(m, p) && b.Within(m)
    ensures Seen(b, m, p, m.Pixels()) == b.w * b.n
  {
    hide Advance, Box.Has, Index, Seen, Walk;
    var top, n := Pos(0, 0), m.Pixels();
    LinesWalk(b, m, m.Vtotal());
    assert m.Vtotal() * m.Htotal() == n;
    assert Clamp(m.Vtotal() - b.v, b.n) == b.n;
    assert Index(m, top) == 0 by { TopIndex(m); }
    FrameVisitsOnce(m, top, p);
    var i :| 0 <= i < n && Walk(m, top, i) == p;
    WalkSum(b, m, top, i, n);
    WalkSum(b, m, top, n, i);
    assert i + n == n + i;
  }

  lemma TopIndex(m: Mode)
    ensures Index(m, Pos(0, 0)) == 0
  {
  }

  /** The visible part, and the parts with horizontal and with vertical sync. */
  function VisibleBox(m: Mode): Box { Box(m.hbp, m.hact, m.vbp, m.vact) }

  function HsyncBox(m: Mode): Box { Box(m.Htotal() - m.hs, m.hs, 0, m.Vtotal()) }

  function VsyncBox(m: Mode): Box { Box(0, m.Htotal(), m.Vtotal() - m.vs, m.vs) }

  /** Of the enables of every frame, from any position on, exactly hact * vact are unblanked,
      hs * Vtotal have horizontal sync and Htotal * vs have vertical sync. */
  lemma VisiblePerFrame(r: Regs, m: Mode, p: Pos)
    requires Settled(r, m) && m.Usable() && InRange(m, Counters(r)) && InRange(m, p)
    ensures !Hblank(r) && !Vblank(r) <==> VisibleBox(m).Has(Counters(r))
    ensures Hsync(r) <==> HsyncBox(m).Has(Counters(r))
    ensures Vsync(r) <==> VsyncBox(m).Has(Counters(r))
    ensures Seen(VisibleBox(m), m, p, m.Pixels()) == m.hact * m.vact
    ensures Seen(HsyncBox(m), m, p, m.Pixels()) == m.hs * m.Vtotal()
    ensures Seen(VsyncBox(m), m, p, m.Pixels()) == m.Htotal() * m.vs
  {
    Blanking(r, m);
    SyncPulses(r, m);
    hide Settled, Seen, Hblank, Vblank, Hsync, Vsync;
    BoxPerFrame(VisibleBox(m), m, p);
    BoxPerFrame(HsyncBox(m), m, p);
    BoxPerFrame(VsyncBox(m), m, p);
  }
}
