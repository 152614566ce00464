/** The video path as one clocked system: the fractional enable, the CRT controller and
    the tilemap. The result is that the pipelined hardware shows the picture stored in
    the front page, pixel by pixel, while anything may be written to the other page. */
module Display {
  import opened Words
  import opened Sheet
  import F = FracCen
  import C = Crtc
  import R = Raster
  import T = Tilemap
  import G = Gfx

  datatype System = System(cen: F.Regs, crtc: C.Regs, tiles: T.Regs)

  predicate Sized(s: System) { C.Sized(s.crtc) && T.Sized(s.tiles) }

  /** One clock. The enable is a register, so all three parts see its value before the
      clock; `port` is what the processor or the blitter writes to the tilemap. */
  function Step(s: System, rom: seq<u32>, port: T.Port): (n: System)
    requires Sized(s) && |rom| == 2048
    ensures Sized(n)
  {
    var ce := s.cen.cen0;
    System(
      F.Step(s.cen, true, s.crtc.ctrl[0] % 0x400, s.crtc.ctrl[1] % 0x400),
      C.Step(s.crtc, ce, C.QUIET),
      T.Step(s.tiles, rom, ce, C.Hcnt(s.crtc), C.Vcnt(s.crtc), port))
  }

  /** Timings for which the firmware's offsets are right: the back porch is as long as
      front porch and sync together and leaves room for the nine columns of pipeline. */
  predicate Showable(m: C.Mode) {
    && m.Usable() && m.hbp == m.hs + m.hfp && m.hbp >= 10
    && m.Htotal() - m.hbp + 9 <= 1024 && m.vact <= 512
  }

  /** The firmware's modes are such timings, and the picture of each is its root window. */
  lemma FirmwareModes(wide: bool)
    ensures Showable(G.ModeFor(wide))
    ensures G.Covers(if wide then G.Window(0, 0, 48, 27) else G.Window(0, 0, 40, 30), G.ModeFor(wide))
    ensures G.ModeFor(true).Pixels() == 480 * 230 && G.ModeFor(false).Pixels() == 400 * 253
  {
  }

  /** No register write, and no RAM write to the given page. */
  predicate BackPort(port: T.Port, page: nat) {
    !port.csReg && (port.csRam && (port.wr0 || port.wr1) ==> port.address % 0x4000 / 0x2000 != page)
  }

  /** Divider and controller are in their cycle; nothing is said about the tilemap. */
  ghost predicate Timed(s: System, m: C.Mode) {
    && Sized(s) && Showable(m)
    && R.Settled(s.crtc, m) && R.InRange(m, R.Counters(s.crtc))
    && s.crtc.ctrl[0] % 0x400 == 1 && s.crtc.ctrl[1] % 0x400 == 4
    && s.cen.cencnt < 4 && s.cen.cen0 == (s.cen.cencnt == 0)
  }

  /** The settings and the memory of a displayed page. */
  ghost predicate Ready(s: System, m: C.Mode, page: nat, cells: seq<u16>) {
    && Timed(s, m) && page < 2 && |cells| == 0x2000
    && G.TileCtrl(s.tiles.hofs, s.tiles.vofs) == G.PageCtrl(m, page)
    && s.tiles.ram[0x2000 * page..0x2000 * page + 0x2000] == cells
  }

  /** Row `ty` of the 128 by 64 cells of a page. */
  function PageLine(cells: seq<u16>, ty: nat): (line: seq<u16>)
    requires |cells| == 0x2000 && ty < 64
    ensures |line| == 128
  {
    cells[128 * ty..128 * ty + 128]
  }

  /** A pixel of a cell: its attribute plus the tile's pixel. */
  function CellPixel(cell: u16, rom: seq<u32>, px: nat, py: nat): u8
    requires |rom| == 2048
  {
    (cell / 0x100 + Nibble(rom[8 * (cell % 0x100) + py % 8], px % 8)) % 0x100
  }

  /** The picture a page stands for. */
  function Picture(cells: seq<u16>, rom: seq<u32>, px: nat, py: nat): u8
    requires |cells| == 0x2000 && |rom| == 2048 && px < 1024 && py < 512
  {
    CellPixel(cells[128 * (py / 8) + px / 8], rom, px, py)
  }

  lemma LineIsPicture(cells: seq<u16>, rom: seq<u32>, px: nat, py: nat)
    requires |cells| == 0x2000 && |rom| == 2048 && px < 1024 && py < 512
    ensures T.LinePixel(PageLine(cells, py / 8), rom, py % 8, px) == Picture(cells, rom, px, py)
  {
    assert PageLine(cells, py / 8)[px / 8] == cells[128 * (py / 8) + px / 8];
  }

  predicate ShownRow(m: C.Mode, v: nat) { m.vbp <= v < m.vbp + m.vact }

  /** The pipeline holds what belongs to the position, from nine columns before the
      visible part of a visible row. */
  ghost predicate InLine(s: System, rom: seq<u32>, m: C.Mode, cells: seq<u16>)
    requires Sized(s) && Showable(m) && |cells| == 0x2000 && |rom| == 2048 && R.InRange(m, R.Counters(s.crtc))
  {
    var p := R.Counters(s.crtc);
    ShownRow(m, p.v) && p.h >= m.hbp - 9 ==>
      var py := p.v - m.vbp;
      T.Holds(s.tiles.pipe, s.cen.cencnt, p.h - (m.hbp - 9), PageLine(cells, py / 8), rom, py % 8)
  }

  ghost predicate Showing(s: System, rom: seq<u32>, m: C.Mode, page: nat, cells: seq<u16>)
    requires |rom| == 2048
  {
    Ready(s, m, page, cells) && InLine(s, rom, m, cells)
  }

  // ------------------------------------------------------------- one clock

  lemma PortKeepsPage(ram: seq<u16>, port: T.Port, page: nat)
    requires |ram| == 0x4000 && page < 2 && BackPort(port, page)
    ensures T.RamAfter(ram, port)[0x2000 * page..0x2000 * page + 0x2000] == ram[0x2000 * page..0x2000 * page + 0x2000]
  {
    hide T.Lanes;
    var a := port.address % 0x4000;
    if port.csRam && (port.wr0 || port.wr1) {
      assert a < 0x2000 * page || a >= 0x2000 * page + 0x2000;
    } else if port.csRam {
      T.NoLanes(ram[a], port);
    }
  }

  lemma ReadyStep(s: System, rom: seq<u32>, port: T.Port, m: C.Mode, page: nat, cells: seq<u16>)
    requires |rom| == 2048 && Ready(s, m, page, cells) && BackPort(port, page)
    ensures Ready(Step(s, rom, port), m, page, cells)
  {
    F.OneInFour(s.cen);
    R.SettledStep(s.crtc, m, s.cen.cen0);
    R.IndexStep(m, R.Counters(s.crtc));
    QuietRegisters(s.crtc, s.cen.cen0);
    PortKeepsPage(s.tiles.ram, port, page);
    hide F.Step, C.Step, R.Settled, R.Counters, R.Advance, T.PipeStep, G.PageCtrl, T.RamAfter, T.CellAddress;
  }

  lemma QuietRegisters(r: C.Regs, ce: bool)
    requires C.Sized(r)
    ensures var n := C.Step(r, ce, C.QUIET); n.ctrl[0] == r.ctrl[0] && n.ctrl[1] == r.ctrl[1]
  {
  }

  /** The column under the counters, and the cell it is read from. */
  lemma FetchedCell(s: System, m: C.Mode, page: nat, cells: seq<u16>)
    requires Ready(s, m, page, cells)
    requires ShownRow(m, R.Counters(s.crtc).v) && R.Counters(s.crtc).h >= m.hbp - 9
    ensures var p := R.Counters(s.crtc);
      var H, py := p.h - (m.hbp - 9), p.v - m.vbp;
      var h, v := T.H(s.tiles, p.h), T.V(s.tiles, p.v);
      && h == H && v % 8 == py % 8
      && s.tiles.ram[T.CellAddress(h, v)] == PageLine(cells, py / 8)[H / 8]
  {
    hide R.Settled, T.CellAddress, T.V, T.H, G.PageCtrl, R.Counters, PageLine;
    var p := R.Counters(s.crtc);
    var H, py := p.h - (m.hbp - 9), p.v - m.vbp;
    ColumnOf(s.tiles, m, page, p.h);
    G.FetchedRow(m, page, H, py, s.tiles);
    PageCell(s.tiles.ram, cells, page, py / 8, H / 8);
    RowBits(page, py);
  }

  lemma RowBits(page: nat, py: nat)
    ensures (512 * page + py) % 8 == py % 8
  {
  }

  lemma PageCell(ram: seq<u16>, cells: seq<u16>, page: nat, ty: nat, tx: nat)
    requires |ram| == 0x4000 && page < 2 && ty < 64 && tx < 128
    requires ram[0x2000 * page..0x2000 * page + 0x2000] == cells
    ensures ram[0x2000 * page + 128 * ty + tx % 128] == PageLine(cells, ty)[tx]
  {
    var a := 128 * ty + tx;
    assert ram[0x2000 * page + a] == ram[0x2000 * page..0x2000 * page + 0x2000][a];
    assert PageLine(cells, ty)[tx] == cells[a];
  }

  lemma ColumnOf(t: T.Regs, m: C.Mode, page: nat, h: u12)
    requires Showable(m) && G.TileCtrl(t.hofs, t.vofs) == G.PageCtrl(m, page) && h >= m.hbp - 9
    ensures T.H(t, h) == h - (m.hbp - 9)
  {
    Negated(m.hbp - 9);
    hide Wrap16, Add12;
    assert t.hofs == Wrap16(0 - (m.hbp - 9));
    OffsetColumn(h, m.hbp - 9);
  }

  /** The low twelve bits of a negated offset. */
  lemma Negated(k: nat)
    requires 0 < k < 0x1000
    ensures Wrap16(0 - k) % 0x1000 == 0x1000 - k
  {
    assert Wrap16(0 - k) == 0x1_0000 - k;
  }

  lemma OffsetColumn(h: u12, k: nat)
    requires 0 < k <= h
    ensures Add12(h, 0x1000 - k) == h - k
  {
  }

  /** Inside a line the pipeline's inputs are the line's. */
  lemma PipeInputs(s: System, rom: seq<u32>, port: T.Port, m: C.Mode, page: nat, cells: seq<u16>)
    requires |rom| == 2048 && Ready(s, m, page, cells)
    requires ShownRow(m, R.Counters(s.crtc).v) && R.Counters(s.crtc).h >= m.hbp - 9
    ensures var p := R.Counters(s.crtc);
      var H, py := p.h - (m.hbp - 9), p.v - m.vbp;
      Step(s, rom, port).tiles.pipe ==
        T.PipeStep(s.tiles.pipe, rom, s.cen.cen0, PageLine(cells, py / 8)[H / 8], H % 8, py % 8)
  {
    hide F.Step, C.Step, R.Settled, T.PipeStep, T.CellAddress, PageLine, Ready, T.H, T.V;
    ReadyFacts(s, m, page, cells);
    FetchedCell(s, m, page, cells);
    assert R.Counters(s.crtc) == R.Pos(C.Hcnt(s.crtc), C.Vcnt(s.crtc));
  }

  /** The parts of the system step side by side. */
  lemma Parts(s: System, rom: seq<u32>, port: T.Port)
    requires Sized(s) && |rom| == 2048
    ensures Step(s, rom, port).crtc == C.Step(s.crtc, s.cen.cen0, C.QUIET)
    ensures Step(s, rom, port).cen == F.Step(s.cen, true, s.crtc.ctrl[0] % 0x400, s.crtc.ctrl[1] % 0x400)
  {
  }

  lemma InLineStep(s: System, rom: seq<u32>, port: T.Port, m: C.Mode, page: nat, cells: seq<u16>)
    requires |rom| == 2048 && Showing(s, rom, m, page, cells) && BackPort(port, page)
    ensures Showing(Step(s, rom, port), rom, m, page, cells)
  {
    hide Step, F.Step, C.Step, Ready, Timed, R.Settled, R.Counters, T.PipeStep, T.Holds, PageLine, BackPort;
    ReadyStep(s, rom, port, m, page, cells);
    ReadyFacts(s, m, page, cells);
    R.SettledStep(s.crtc, m, s.cen.cen0);
    F.OneInFour(s.cen);
    Parts(s, rom, port);
    var n := Step(s, rom, port);
    var p, q := R.Counters(s.crtc), R.Counters(n.crtc);
    if ShownRow(m, q.v) && q.h >= m.hbp - 9 {
      var py := q.v - m.vbp;
      var line := PageLine(cells, py / 8);
      if p.h >= m.hbp - 9 {
        PipeInputs(s, rom, port, m, page, cells);
        if s.cen.cen0 {
          T.HoldsEnable(s.tiles.pipe, p.h - (m.hbp - 9), line, rom, py % 8);
        } else {
          T.HoldsClock(s.tiles.pipe, s.cen.cencnt, p.h - (m.hbp - 9), line, rom, py % 8);
        }
      } else {
        T.HoldsStart(n.tiles.pipe, line, rom, py % 8);
      }
    }
  }

  lemma ReadyFacts(s: System, m: C.Mode, page: nat, cells: seq<u16>)
    requires Ready(s, m, page, cells)
    ensures Timed(s, m) && Sized(s) && Showable(m) && |cells| == 0x2000 && R.InRange(m, R.Counters(s.crtc))
    ensures R.Settled(s.crtc, m) && s.crtc.ctrl[0] % 0x400 == 1 && s.crtc.ctrl[1] % 0x400 == 4
    ensures s.cen.cencnt < 4 && s.cen.cen0 == (s.cen.cencnt == 0)
  {
  }

  // ------------------------------------------------------------- whole runs

  function Run(s: System, rom: seq<u32>, ports: seq<T.Port>): (n: System)
    requires Sized(s) && |rom| == 2048
    ensures Sized(n)
    decreases |ports|
  {
    if ports == [] then s else Step(Run(s, rom, ports[..|ports| - 1]), rom, ports[|ports| - 1])
  }

  predicate BackPorts(ports: seq<T.Port>, page: nat) { forall i | 0 <= i < |ports| :: BackPort(ports[i], page) }

  /** Clocks until the next line begins. */
  function ToLineStart(s: System, m: C.Mode): int
    requires Sized(s)
  {
    4 * (m.Htotal() - 1 - R.Counters(s.crtc).h) + (if s.cen.cencnt == 0 then 1 else 5 - s.cen.cencnt)
  }

  /** Every clock either keeps a correct line or brings the next line start nearer. */
  lemma Nearer(s: System, rom: seq<u32>, port: T.Port, m: C.Mode, page: nat, cells: seq<u16>)
    requires |rom| == 2048 && Ready(s, m, page, cells) && BackPort(port, page)
    ensures var n := Step(s, rom, port);
      && Ready(n, m, page, cells)
      && (Showing(s, rom, m, page, cells) ==> Showing(n, rom, m, page, cells))
      && (Showing(n, rom, m, page, cells) || ToLineStart(n, m) < ToLineStart(s, m))
  {
    hide Step, F.Step, C.Step, Ready, Timed, R.Settled, R.Counters, T.Holds, PageLine, BackPort;
    if Showing(s, rom, m, page, cells) {
      InLineStep(s, rom, port, m, page, cells);
    } else {
      ReadyStep(s, rom, port, m, page, cells);
      ReadyFacts(s, m, page, cells);
      R.SettledStep(s.crtc, m, s.cen.cen0);
      F.OneInFour(s.cen);
      Parts(s, rom, port);
    }
  }

  lemma {:induction false} RunShows(s: System, rom: seq<u32>, ports: seq<T.Port>, m: C.Mode, page: nat, cells: seq<u16>)
    requires |rom| == 2048 && Sized(s) && Ready(s, m, page, cells) && BackPorts(ports, page)
    ensures var n := Run(s, rom, ports);
      && Ready(n, m, page, cells)
      && (Showing(n, rom, m, page, cells) || ToLineStart(n, m) + |ports| <= ToLineStart(s, m))
    decreases |ports|
  {
    hide Step, Ready, Showing, ToLineStart, BackPort;
    if ports != [] {
      var before := ports[..|ports| - 1];
      assert BackPorts(before, page);
      RunShows(s, rom, before, m, page, cells);
      Nearer(Run(s, rom, before), rom, ports[|ports| - 1], m, page, cells);
    }
  }

  /** Refinement: from any contents of the pipeline, after at most one line, and for as
      long as only the other page is written, the colour at the output is that of the
      front page's picture at every visible position of every line. */
  lemma ScreenShowsPicture(s: System, rom: seq<u32>, ports: seq<T.Port>, m: C.Mode, page: nat, cells: seq<u16>)
    requires |rom| == 2048 && Sized(s) && Ready(s, m, page, cells) && BackPorts(ports, page)
    requires |ports| >= 4 * m.Htotal()
    ensures var n := Run(s, rom, ports);
      var p := R.Counters(n.crtc);
      R.Visible(m, p) ==>
        && p.h - m.hbp < 1024 && p.v - m.vbp < 512
        && n.tiles.pipe.colorOut == Picture(cells, rom, p.h - m.hbp, p.v - m.vbp)
  {
    hide Step, Run, Ready, InLine, R.Counters, R.Visible, Picture;
    RunShows(s, rom, ports, m, page, cells);
    var n := Run(s, rom, ports);
    ReadyFacts(s, m, page, cells);
    ReadyFacts(n, m, page, cells);
    if R.Visible(m, R.Counters(n.crtc)) {
      ShowingPixel(n, rom, m, page, cells);
    }
  }

  lemma ShowingPixel(n: System, rom: seq<u32>, m: C.Mode, page: nat, cells: seq<u16>)
    requires |rom| == 2048 && Sized(n) && Showing(n, rom, m, page, cells) && R.Visible(m, R.Counters(n.crtc))
    ensures var p := R.Counters(n.crtc);
      && p.h - m.hbp < 1024 && p.v - m.vbp < 512
      && n.tiles.pipe.colorOut == Picture(cells, rom, p.h - m.hbp, p.v - m.vbp)
  {
    hide R.Counters, R.Settled, Picture, PageLine, T.LinePixel, G.PageCtrl;
    var p := R.Counters(n.crtc);
    LineIsPicture(cells, rom, p.h - m.hbp, p.v - m.vbp);
  }

  // ------------------------------------------------------------- from any contents

  /** Only what the firmware writes: timing, divider and offset registers, and the page. */
  ghost predicate Configured(s: System, m: C.Mode, page: nat, cells: seq<u16>) {
    && Sized(s) && Showable(m) && page < 2 && |cells| == 0x2000
    && C.ModeOf(s.crtc) == m
    && s.crtc.ctrl[0] % 0x400 == 1 && s.crtc.ctrl[1] % 0x400 == 4
    && G.TileCtrl(s.tiles.hofs, s.tiles.vofs) == G.PageCtrl(m, page)
    && s.tiles.ram[0x2000 * page..0x2000 * page + 0x2000] == cells
  }

  lemma ConfiguredStep(s: System, rom: seq<u32>, port: T.Port, m: C.Mode, page: nat, cells: seq<u16>)
    requires |rom| == 2048 && Configured(s, m, page, cells) && BackPort(port, page)
    ensures Configured(Step(s, rom, port), m, page, cells)
  {
    R.QuietMode(s.crtc, s.cen.cen0);
    QuietRegisters(s.crtc, s.cen.cen0);
    PortKeepsPage(s.tiles.ram, port, page);
    hide F.Step, C.Step, C.ModeOf, T.PipeStep, G.PageCtrl, T.RamAfter, T.CellAddress;
  }

  /** The divider has come into its cycle. */
  predicate Cycling(s: System) { s.cen.cencnt < 4 && s.cen.cen0 == (s.cen.cencnt == 0) }

  lemma DividerStep(r: F.Regs)
    ensures var n := F.Step(r, true, 1, 4);
      if r.cencnt < 4 then n.cencnt < 4 && n.cen0 == (n.cencnt == 0) else n.cencnt < 4 || n.cencnt + 3 == r.cencnt
  {
  }

  lemma ConfiguredDivider(s: System, m: C.Mode, page: nat, cells: seq<u16>)
    requires Configured(s, m, page, cells)
    ensures Sized(s) && s.crtc.ctrl[0] % 0x400 == 1 && s.crtc.ctrl[1] % 0x400 == 4
  {
  }

  /** Three clocks settle the controller, 684 the divider. */
  lemma {:induction false} Settling(s: System, rom: seq<u32>, ports: seq<T.Port>, m: C.Mode, page: nat, cells: seq<u16>)
    requires |rom| == 2048 && Sized(s) && Configured(s, m, page, cells) && BackPorts(ports, page)
    ensures var n := Run(s, rom, ports);
      && Configured(n, m, page, cells)
      && (Cycling(n) || (n.cen.cencnt < 4 && |ports| <= 683) || n.cen.cencnt + 3 * |ports| <= s.cen.cencnt)
      && (|ports| >= 3 ==> R.Settled(n.crtc, m))
    decreases |ports|
  {
    hide Step, F.Step, Configured, R.Settled, BackPort;
    if ports != [] {
      var before, last := ports[..|ports| - 1], ports[|ports| - 1];
      assert BackPorts(before, page) && BackPort(last, page);
      Settling(s, rom, before, m, page, cells);
      ConfiguredStep(Run(s, rom, before), rom, last, m, page, cells);
      ConfiguredDivider(Run(s, rom, before), m, page, cells);
      Parts(Run(s, rom, before), rom, last);
      DividerStep(Run(s, rom, before).cen);
      if |ports| >= 3 {
        LastThree(s, rom, ports, m, page, cells);
      }
    }
  }

  lemma LastThree(s: System, rom: seq<u32>, ports: seq<T.Port>, m: C.Mode, page: nat, cells: seq<u16>)
    requires |rom| == 2048 && Sized(s) && |ports| >= 3 && Configured(s, m, page, cells) && BackPorts(ports, page)
    ensures R.Settled(Run(s, rom, ports).crtc, m)
  {
    var k := |ports|;
    var p1, p2, p3 := ports[..k - 1], ports[..k - 2], ports[..k - 3];
    assert p1[..k - 2] == p2 && p2[..k - 3] == p3;
    var a, b, c := Run(s, rom, p3), Run(s, rom, p2), Run(s, rom, p1);
    RunConfigured(s, rom, p3, m, page, cells);
    hide C.Step, C.ModeOf, F.Step, T.Step, R.Settled, G.PageCtrl;
    assert b.crtc == C.Step(a.crtc, a.cen.cen0, C.QUIET);
    assert c.crtc == C.Step(b.crtc, b.cen.cen0, C.QUIET);
    assert Run(s, rom, ports).crtc == C.Step(c.crtc, c.cen.cen0, C.QUIET);
    R.ThreeClocksSettle(a.crtc, a.cen.cen0, b.cen.cen0, c.cen.cen0);
  }

  lemma {:induction false} RunConfigured(s: System, rom: seq<u32>, ports: seq<T.Port>, m: C.Mode, page: nat, cells: seq<u16>)
    requires |rom| == 2048 && Sized(s) && Configured(s, m, page, cells) && BackPorts(ports, page)
    ensures Configured(Run(s, rom, ports), m, page, cells)
    decreases |ports|
  {
    hide Step, Configured, BackPort;
    if ports != [] {
      var before := ports[..|ports| - 1];
      assert BackPorts(before, page) && BackPort(ports[|ports| - 1], page);
      RunConfigured(s, rom, before, m, page, cells);
      ConfiguredStep(Run(s, rom, before), rom, ports[|ports| - 1], m, page, cells);
    }
  }

  /** Clocks until both counters are in range. */
  function ToRange(s: System, m: C.Mode): nat
    requires Sized(s)
  {
    var p := R.Counters(s.crtc);
    if R.InRange(m, p) then 0
    else 4 * Max(0, m.Htotal() - 1 - p.h) + (if s.cen.cencnt == 0 || s.cen.cencnt > 4 then 1 else 5 - s.cen.cencnt)
  }

  lemma RangeNearer(s: System, rom: seq<u32>, port: T.Port, m: C.Mode, page: nat, cells: seq<u16>)
    requires |rom| == 2048 && Configured(s, m, page, cells) && R.Settled(s.crtc, m) && Cycling(s)
    ensures var n := Step(s, rom, port);
      && R.Settled(n.crtc, m) && Cycling(n)
      && ToRange(n, m) <= Max(0, ToRange(s, m) - 1)
  {
    R.SettledStep(s.crtc, m, s.cen.cen0);
    F.OneInFour(s.cen);
    hide F.Step, C.Step, T.Step, R.Settled, R.Counters, C.ModeOf, G.PageCtrl;
  }

  lemma {:induction false} RangeRun(s: System, rom: seq<u32>, ports: seq<T.Port>, m: C.Mode, page: nat, cells: seq<u16>)
    requires |rom| == 2048 && Sized(s) && BackPorts(ports, page)
    requires Configured(s, m, page, cells) && R.Settled(s.crtc, m) && Cycling(s)
    ensures var n := Run(s, rom, ports);
      && Configured(n, m, page, cells) && R.Settled(n.crtc, m) && Cycling(n)
      && ToRange(n, m) <= Max(0, ToRange(s, m) - |ports|)
    decreases |ports|
  {
    hide Step, Configured, R.Settled, Cycling, ToRange, BackPort;
    if ports != [] {
      var before, last := ports[..|ports| - 1], ports[|ports| - 1];
      assert BackPorts(before, page) && BackPort(last, page);
      RangeRun(s, rom, before, m, page, cells);
      ConfiguredStep(Run(s, rom, before), rom, last, m, page, cells);
      RangeNearer(Run(s, rom, before), rom, last, m, page, cells);
    }
  }

  lemma {:induction false} RunSplit(s: System, rom: seq<u32>, a: seq<T.Port>, b: seq<T.Port>)
    requires Sized(s) && |rom| == 2048
    ensures Run(s, rom, a + b) == Run(Run(s, rom, a), rom, b)
    decreases |b|
  {
    hide Step;
    if b == [] {
      assert a + b == a;
    } else {
      var c := b[..|b| - 1];
      assert (a + b)[..|a + b| - 1] == a + c;
      RunSplit(s, rom, a, c);
    }
  }

  /** Whatever the divider, the counters, the boundary registers and the pipeline held
      when the firmware wrote its settings: 684 clocks and two lines later the screen
      shows the front page. */
  lemma ShowsFromAnyContents(s: System, rom: seq<u32>, ports: seq<T.Port>, m: C.Mode, page: nat, cells: seq<u16>)
    requires |rom| == 2048 && Sized(s) && Configured(s, m, page, cells) && BackPorts(ports, page)
    requires |ports| >= 684 + 8 * m.Htotal()
    ensures var n := Run(s, rom, ports);
      var p := R.Counters(n.crtc);
      R.Visible(m, p) ==>
        && p.h - m.hbp < 1024 && p.v - m.vbp < 512
        && n.tiles.pipe.colorOut == Picture(cells, rom, p.h - m.hbp, p.v - m.vbp)
  {
    hide Step, Run, R.Counters, R.Visible, Picture, Ready, Configured, BackPorts;
    var k := |ports| - 4 * m.Htotal();
    var a, b, c := ports[..684], ports[684..k], ports[k..];
    RunInThree(s, rom, ports, 684, k);
    assert BackPorts(a, page) && BackPorts(b, page) && BackPorts(c, page) by { PortParts(ports, page, 684, k); }
    BecomesReady(s, rom, a, b, m, page, cells);
    ScreenShowsPicture(Run(Run(s, rom, a), rom, b), rom, c, m, page, cells);
  }

  lemma RunInThree(s: System, rom: seq<u32>, ports: seq<T.Port>, i: nat, j: nat)
    requires Sized(s) && |rom| == 2048 && i <= j <= |ports|
    ensures Run(s, rom, ports) == Run(Run(Run(s, rom, ports[..i]), rom, ports[i..j]), rom, ports[j..])
  {
    hide Run;
    var a, b, c := ports[..i], ports[i..j], ports[j..];
    RunSplit(s, rom, a, b);
    RunSplit(s, rom, a + b, c);
    assert ports == (a + b) + c;
  }

  lemma PortParts(ports: seq<T.Port>, page: nat, i: nat, j: nat)
    requires i <= j <= |ports| && BackPorts(ports, page)
    ensures BackPorts(ports[..i], page) && BackPorts(ports[i..j], page) && BackPorts(ports[j..], page)
  {
    hide BackPort;
  }

  lemma BecomesReady(s: System, rom: seq<u32>, a: seq<T.Port>, b: seq<T.Port>, m: C.Mode, page: nat, cells: seq<u16>)
    requires |rom| == 2048 && Sized(s) && Configured(s, m, page, cells)
    requires BackPorts(a, page) && BackPorts(b, page) && |a| == 684 && |b| >= 4 * m.Htotal()
    ensures Ready(Run(Run(s, rom, a), rom, b), m, page, cells)
  {
    hide Run, Step, R.Settled, BackPorts, ToRange, R.Counters, G.PageCtrl, C.ModeOf;
    var s1 := Run(s, rom, a);
    Settling(s, rom, a, m, page, cells);
    RangeRun(s1, rom, b, m, page, cells);
    RangeReached(s1, Run(s1, rom, b), m, |b|);
  }

  lemma RangeReached(s: System, n: System, m: C.Mode, k: nat)
    requires Sized(s) && Sized(n) && m.Usable() && Cycling(s) && k >= 4 * m.Htotal()
    requires ToRange(n, m) <= Max(0, ToRange(s, m) - k)
    ensures R.InRange(m, R.Counters(n.crtc))
  {
    hide R.Counters;
  }

  /** With a ROM made by gfxgen.py the picture is made of the sheet's own pixels. */
  lemma PictureFromSheet(sheet: map<nat, seq<int>>, cells: seq<u16>, rom: seq<u32>, px: nat, py: nat)
    requires WholeTiles(sheet) && RomOf(sheet, rom) && |cells| == 0x2000 && px < 1024 && py < 512
    ensures var cell := cells[128 * (py / 8) + px / 8];
      Picture(cells, rom, px, py)
      == (cell / 0x100 + Low4(TilePixels(sheet, cell % 0x100)[8 * (py % 8) + px % 8])) % 0x100
  {
    hide Nibble, RomOf, Low4;
    var cell := cells[128 * (py / 8) + px / 8];
    SheetRoundTrip(sheet, rom, cell % 0x100, py % 8, px % 8);
  }
}
