/** Drawing and displaying at once: gfx_rect through the blitter into the back page while
    the front page is on the screen, and the page flip that shows the result. */
module Screen {
  import opened Words
  import opened Sheet
  import B = Blitter
  import C = Crtc
  import T = Tilemap
  import G = Gfx
  import R = Raster
  import D = Display
  import F = FracCen
  import Drawing

  /** What the blitter puts on the tilemap's port: it owns the port while it is active. */
  function FillPort(b: B.Regs): T.Port { T.Port(b.active, false, b.wr, b.wr, b.addr, b.data) }

  /** The ports of the first k clocks of a fill. */
  function FillPorts(b: B.Regs, k: nat): (ports: seq<T.Port>)
    ensures |ports| == k
    ensures forall i | 0 <= i < k :: ports[i] == FillPort(B.After(b, i))
  {
    seq(k, i requires 0 <= i < k => FillPort(B.After(b, i)))
  }

  // ------------------------------------------------------------- where a fill writes

  /** The position of an active fill. */
  ghost predicate Somewhere(d: B.Regs) {
    exists r: nat, c: nat :: B.At(d, r, c) && r <= d.rows + 1 && (r == d.rows + 1 ==> c == 0)
  }

  /** The address of a pending write belongs to the rectangle. */
  ghost predicate Within(b: B.Regs, d: B.Regs) {
    d.wr ==> exists i, j | 0 <= i <= b.rows && 0 <= j <= b.span :: d.addr == B.FillAddress(b, i, j)
  }

  lemma {:induction false} FillStays(b: B.Regs, k: nat)
    requires B.Submitted(b) && !b.wr && b.rows < 0xffff
    ensures var d := B.After(b, k);
      B.SameSetup(b, d) && Within(b, d) && (d.active ==> Somewhere(d))
  {
    if k == 0 {
      B.SubmittedAt(b);
      assert B.At(b, 0, 0);
    } else {
      FillStays(b, k - 1);
      FillStaysStep(b, B.After(b, k - 1));
    }
  }

  lemma FillStaysStep(b: B.Regs, d: B.Regs)
    requires b.rows < 0xffff && B.SameSetup(b, d) && Within(b, d) && (d.active ==> Somewhere(d))
    ensures var n := B.Step(d, B.QUIET);
      B.SameSetup(b, n) && Within(b, n) && (n.active ==> Somewhere(n))
  {
    hide B.FillAddress;
    if d.active {
      var r: nat, c: nat :| B.At(d, r, c) && r <= d.rows + 1 && (r == d.rows + 1 ==> c == 0);
      AtRow(d, r, c);
      if r <= d.rows {
        B.FillMoves(d, r, c);
        Drawing.SameAddress(b, d, r, c);
      }
    } else {
      B.IdleQuiet(d);
    }
  }

  /** An in-page rectangle on one page never touches the other page. */
  lemma FillKeepsToItsPage(b: B.Regs, page: nat, x: nat, y: nat, w: nat, h: nat, k: nat)
    requires B.Submitted(b) && !b.wr && page < 2 && Drawing.PageRect(b, page, x, y, w, h)
    ensures D.BackPorts(FillPorts(b, k), 1 - page)
  {
    hide D.BackPort, FillPort, Drawing.PageRect, B.Submitted, B.After;
    forall i | 0 <= i < k ensures D.BackPort(FillPorts(b, k)[i], 1 - page) {
      FillPortBack(b, page, x, y, w, h, i);
    }
  }

  lemma FillPortBack(b: B.Regs, page: nat, x: nat, y: nat, w: nat, h: nat, i: nat)
    requires B.Submitted(b) && !b.wr && Drawing.PageRect(b, page, x, y, w, h)
    ensures D.BackPort(FillPort(B.After(b, i)), 1 - page)
  {
    hide B.FillAddress, B.After;
    FillStays(b, i);
    var d := B.After(b, i);
    if d.wr {
      var r, c :| 0 <= r <= b.rows && 0 <= c <= b.span && d.addr == B.FillAddress(b, r, c);
      Drawing.PageAddress(b, page, x, y, w, h, r, c);
    }
  }

  /** No tearing: while a rectangle is drawn on the back page, the screen goes on showing
      the front page's picture, at every visible position of every clock. */
  lemma NoTearing(s: D.System, rom: seq<u32>, m: C.Mode, front: nat, cells: seq<u16>,
                  b: B.Regs, x: nat, y: nat, w: nat, h: nat, k: nat)
    requires |rom| == 2048 && D.Sized(s) && D.Showing(s, rom, m, front, cells)
    requires B.Submitted(b) && !b.wr && front < 2 && Drawing.PageRect(b, 1 - front, x, y, w, h)
    ensures var n := D.Run(s, rom, FillPorts(b, k));
      var p := R.Counters(n.crtc);
      && D.Showing(n, rom, m, front, cells)
      && (R.Visible(m, p) ==>
            && p.h - m.hbp < 1024 && p.v - m.vbp < 512
            && n.tiles.pipe.colorOut == D.Picture(cells, rom, p.h - m.hbp, p.v - m.vbp))
  {
    hide D.Run, D.Showing, D.Picture, R.Counters, R.Visible, B.Submitted, Drawing.PageRect;
    FillKeepsToItsPage(b, 1 - front, x, y, w, h, k);
    StaysShowing(s, rom, FillPorts(b, k), m, front, cells);
    var n := D.Run(s, rom, FillPorts(b, k));
    if R.Visible(m, R.Counters(n.crtc)) {
      D.ShowingPixel(n, rom, m, front, cells);
    }
  }

  lemma {:induction false} StaysShowing(s: D.System, rom: seq<u32>, ports: seq<T.Port>, m: C.Mode, page: nat, cells: seq<u16>)
    requires |rom| == 2048 && D.Sized(s) && D.Showing(s, rom, m, page, cells) && D.BackPorts(ports, page)
    ensures D.Showing(D.Run(s, rom, ports), rom, m, page, cells)
    decreases |ports|
  {
    hide D.Step, D.Showing, D.BackPort;
    if ports != [] {
      var before := ports[..|ports| - 1];
      assert D.BackPorts(before, page) && D.BackPort(ports[|ports| - 1], page);
      StaysShowing(s, rom, before, m, page, cells);
      D.InLineStep(D.Run(s, rom, before), rom, ports[|ports| - 1], m, page, cells);
    }
  }

  // ------------------------------------------------------------- what a fill leaves

  function Painted(b: B.Regs, ram: seq<u16>, k: nat): (after: seq<u16>)
    requires |ram| == 0x4000
    ensures |after| == 0x4000
  {
    if k == 0 then ram else T.RamAfter(Painted(b, ram, k - 1), FillPort(B.After(b, k - 1)))
  }

  lemma PortWrites(ram: seq<u16>, d: B.Regs)
    requires |ram| == 0x4000 && d.active
    ensures T.RamAfter(ram, FillPort(d)) == if d.wr then ram[d.addr % 0x4000 := d.data] else ram
  {
    if !d.wr {
      T.NoLanes(ram[d.addr % 0x4000], FillPort(d));
    }
  }

  /** After k clocks the fill is at column c of row r, and a clock later the memory has
      received every earlier write. */
  ghost predicate PaintedTo(b: B.Regs, ram: seq<u16>, r: nat, c: nat, k: nat)
    requires |ram| == 0x4000
  {
    && B.At(B.After(b, k), r, c) && B.SameSetup(b, B.After(b, k))
    && Painted(b, ram, k + 1) == Drawing.Applied(ram, Drawing.FillWrites(b, r, c))
  }

  lemma {:induction false} PaintedSoFar(b: B.Regs, ram: seq<u16>, r: nat, c: nat, k: nat)
    requires |ram| == 0x4000 && B.Submitted(b) && !b.wr && b.rows < 0xffff
    requires r <= b.rows + 1 && c <= b.span && (r == b.rows + 1 ==> c == 0) && k == r * (b.span + 1) + c
    ensures PaintedTo(b, ram, r, c, k)
    decreases r, c
  {
    hide PaintedTo, B.Submitted;
    if c > 0 {
      PaintedSoFar(b, ram, r, c - 1, k - 1);
      PaintNext(b, ram, r, c - 1, k - 1);
    } else if r > 0 {
      MulSucc(r - 1, b.span + 1);
      PaintedSoFar(b, ram, r - 1, b.span, k - 1);
      PaintNext(b, ram, r - 1, b.span, k - 1);
    } else {
      assert k == 0 by { assert 0 * (b.span + 1) == 0; }
      PaintedFirst(b, ram);
    }
  }

  lemma PaintedFirst(b: B.Regs, ram: seq<u16>)
    requires |ram| == 0x4000 && B.Submitted(b) && !b.wr
    ensures PaintedTo(b, ram, 0, 0, 0)
  {
    hide B.FillAddress, Drawing.Applied, Drawing.FillWrites, T.RamAfter, FillPort;
    B.SubmittedAt(b);
    Drawing.NothingYet(b, ram);
    PortWrites(ram, b);
    assert Painted(b, ram, 1) == T.RamAfter(Painted(b, ram, 0), FillPort(B.After(b, 0)));
  }

  /** One write on: the memory receives it a clock later. */
  lemma PaintNext(b: B.Regs, ram: seq<u16>, r: nat, c: nat, k: nat)
    requires |ram| == 0x4000 && b.rows < 0xffff && r <= b.rows && c <= b.span && PaintedTo(b, ram, r, c, k)
    ensures if c == b.span then PaintedTo(b, ram, r + 1, 0, k + 1) else PaintedTo(b, ram, r, c + 1, k + 1)
  {
    hide B.FillAddress, B.FillStep, B.At, Drawing.Applied, Drawing.FillWrites, T.RamAfter, FillPort;
    var d := B.After(b, k);
    assert d.active && d.rowCount == r by { AtRow(d, r, c); }
    B.FillMoves(d, r, c);
    Drawing.SameAddress(b, d, r, c);
    var n := B.After(b, k + 1);
    assert n == B.FillStep(d);
    AtRow(n, if c == b.span then r + 1 else r, if c == b.span then 0 else c + 1);
    PortWrites(Painted(b, ram, k + 1), n);
    Drawing.AppliedLast(ram, Drawing.FillWrites(b, r, c), Drawing.Write(B.FillAddress(b, r, c), b.value));
    Drawing.NextWrite(b, r, c);
    Drawing.NextRowWrites(b, r);
  }

  lemma AtRow(d: B.Regs, r: nat, c: nat)
    requires B.At(d, r, c) && r < 0x1_0000
    ensures d.active && d.rowCount == r
  {
  }

  /** The memory of the running system is painted by the fill. */
  lemma {:induction false} SystemPaints(s: D.System, rom: seq<u32>, b: B.Regs, k: nat)
    requires |rom| == 2048 && D.Sized(s)
    ensures D.Run(s, rom, FillPorts(b, k)).tiles.ram == Painted(b, s.tiles.ram, k)
  {
    hide T.RamAfter, FillPort, T.PipeStep, T.CellAddress;
    if k > 0 {
      SystemPaints(s, rom, b, k - 1);
      assert FillPorts(b, k)[..k - 1] == FillPorts(b, k - 1);
    }
  }

  /** The cells of a page. */
  function PageCells(ram: seq<u16>, page: nat): (cells: seq<u16>)
    requires |ram| == 0x4000 && page < 2
    ensures |cells| == 0x2000
  {
    ram[0x2000 * page..0x2000 * page + 0x2000]
  }

  /** The clocks of a fill of w by h cells: one per cell, and one to find that it is over. */
  function FillClocks(w: nat, h: nat): nat { w * h + 1 }

  /** Video memory after k clocks of a fill in the running system. */
  ghost function MemoryAfter(s: D.System, rom: seq<u32>, b: B.Regs, k: nat): (ram: seq<u16>)
    requires |rom| == 2048 && D.Sized(s)
    ensures |ram| == 0x4000
  {
    D.Run(s, rom, FillPorts(b, k)).tiles.ram
  }

  /** End to end. A rectangle drawn by gfx_rect on the back page of a running system leaves,
      when the fill is over, a back page whose picture has the fill value's pixels in exactly
      the rectangle's cells and is otherwise the old one; the front page is the same.
      FlipShowsRect says that the next page flip shows this picture. */
  lemma RectOnBackPage(s: D.System, rom: seq<u32>, b: B.Regs, back: nat, x: nat, y: nat, w: nat, h: nat, px: nat, py: nat)
    requires |rom| == 2048 && D.Sized(s) && px < 1024 && py < 512
    requires B.Submitted(b) && !b.wr && back < 2 && Drawing.PageRect(b, back, x, y, w, h)
    ensures !B.After(b, FillClocks(w, h)).active
    ensures PageCells(MemoryAfter(s, rom, b, FillClocks(w, h)), 1 - back) == PageCells(s.tiles.ram, 1 - back)
    ensures D.Picture(PageCells(MemoryAfter(s, rom, b, FillClocks(w, h)), back), rom, px, py) ==
      if x <= px / 8 < x + w && y <= py / 8 < y + h then D.CellPixel(b.value, rom, px, py)
      else D.Picture(PageCells(s.tiles.ram, back), rom, px, py)
  {
    hide *;
    SizedParts(s);
    FillIsOver(b, back, x, y, w, h);
    FinalMemory(s, rom, b, back, x, y, w, h);
    OtherPageKept(s.tiles.ram, b, back, x, y, w, h);
    RectPicture(s.tiles.ram, rom, b, back, x, y, w, h, px, py);
  }

  lemma FillIsOver(b: B.Regs, back: nat, x: nat, y: nat, w: nat, h: nat)
    requires B.Submitted(b) && Drawing.PageRect(b, back, x, y, w, h)
    ensures !B.After(b, FillClocks(w, h)).active
  {
    assert b.span == w - 1 && b.rows == h - 1 && 1 <= h <= 0xffff;
    assert FillClocks(w, h) == w * h + 1;
    hide *;
    B.ActiveClocks(b, w, h);
  }

  lemma OtherPageKept(ram: seq<u16>, b: B.Regs, back: nat, x: nat, y: nat, w: nat, h: nat)
    requires |ram| == 0x4000 && back < 2 && Drawing.PageRect(b, back, x, y, w, h)
    ensures PageCells(Drawing.Applied(ram, Drawing.FillWrites(b, b.rows, b.span + 1)), 1 - back) == PageCells(ram, 1 - back)
  {
    hide Drawing.Applied, Drawing.FillWrites, Drawing.PageRect;
    var after := Drawing.Applied(ram, Drawing.FillWrites(b, b.rows, b.span + 1));
    var front, kept := PageCells(ram, 1 - back), PageCells(after, 1 - back);
    forall a | 0 <= a < 0x2000
      ensures front[a] == kept[a]
    {
      KeptCell(ram, b, back, x, y, w, h, a);
    }
  }

  lemma KeptCell(ram: seq<u16>, b: B.Regs, back: nat, x: nat, y: nat, w: nat, h: nat, a: nat)
    requires |ram| == 0x4000 && back < 2 && Drawing.PageRect(b, back, x, y, w, h) && a < 0x2000
    ensures Drawing.Applied(ram, Drawing.FillWrites(b, b.rows, b.span + 1))[0x2000 * (1 - back) + a] == ram[0x2000 * (1 - back) + a]
  {
    hide Drawing.Applied, Drawing.FillWrites, Drawing.PageRect;
    var row, col := a / 128, a % 128;
    assert a == 128 * row + col;
    Drawing.RectOnPage(ram, b, back, x, y, w, h, 1 - back, col, row);
  }

  lemma RectPicture(ram: seq<u16>, rom: seq<u32>, b: B.Regs, back: nat, x: nat, y: nat, w: nat, h: nat, px: nat, py: nat)
    requires |ram| == 0x4000 && |rom| == 2048 && px < 1024 && py < 512
    requires back < 2 && Drawing.PageRect(b, back, x, y, w, h)
    ensures var after := Drawing.Applied(ram, Drawing.FillWrites(b, b.rows, b.span + 1));
      D.Picture(PageCells(after, back), rom, px, py) ==
        if x <= px / 8 < x + w && y <= py / 8 < y + h then D.CellPixel(b.value, rom, px, py)
        else D.Picture(PageCells(ram, back), rom, px, py)
  {
    hide Drawing.Applied, Drawing.FillWrites, D.CellPixel, Drawing.PageRect;
    Drawing.RectOnPage(ram, b, back, x, y, w, h, back, px / 8, py / 8);
    var after := Drawing.Applied(ram, Drawing.FillWrites(b, b.rows, b.span + 1));
    var a := 128 * (py / 8) + px / 8;
    assert PageCells(after, back)[a] == after[0x2000 * back + a] && PageCells(ram, back)[a] == ram[0x2000 * back + a];
  }

  lemma FinalMemory(s: D.System, rom: seq<u32>, b: B.Regs, back: nat, x: nat, y: nat, w: nat, h: nat)
    requires |rom| == 2048 && D.Sized(s)
    requires B.Submitted(b) && !b.wr && Drawing.PageRect(b, back, x, y, w, h)
    ensures |s.tiles.ram| == 0x4000
    ensures MemoryAfter(s, rom, b, FillClocks(w, h)) == Drawing.Applied(s.tiles.ram, Drawing.FillWrites(b, b.rows, b.span + 1))
  {
    assert b.rows + 1 == h && b.span + 1 == w && b.rows < 0xffff;
    SizedParts(s);
    assert FillClocks(w, h) == w * h + 1;
    hide *;
    Area(b.rows + 1, b.span + 1, h, w);
    MemoryAt(s, rom, b, w * h);
  }

  lemma MemoryAt(s: D.System, rom: seq<u32>, b: B.Regs, k: nat)
    requires |rom| == 2048 && D.Sized(s) && B.Submitted(b) && !b.wr && b.rows < 0xffff
    requires k == (b.rows + 1) * (b.span + 1) + 0
    ensures MemoryAfter(s, rom, b, k + 1) == Drawing.Applied(s.tiles.ram, Drawing.FillWrites(b, b.rows, b.span + 1))
  {
    hide D.Run, Drawing.Applied, Drawing.FillWrites, Painted, B.At, B.Submitted, FillPorts;
    SystemPaints(s, rom, b, k + 1);
    PaintedSoFar(b, s.tiles.ram, b.rows + 1, 0, k);
    Drawing.NextRowWrites(b, b.rows);
  }

  lemma Area(a: nat, b: nat, h: nat, w: nat)
    requires a == h && b == w
    ensures w * h == a * b + 0
  {
  }

  // ------------------------------------------------------------- the page flip

  /** The two register writes of a page flip. */
  function FlipPorts(ctrl: G.TileCtrl): seq<T.Port> {
    [T.Port(false, true, true, true, 0, ctrl.hofs), T.Port(false, true, true, true, 1, ctrl.vofs)]
  }

  lemma TimedStep(s: D.System, rom: seq<u32>, port: T.Port, m: C.Mode)
    requires |rom| == 2048 && D.Timed(s, m)
    ensures D.Timed(D.Step(s, rom, port), m)
  {
    F.OneInFour(s.cen);
    R.SettledStep(s.crtc, m, s.cen.cen0);
    R.IndexStep(m, R.Counters(s.crtc));
    D.QuietRegisters(s.crtc, s.cen.cen0);
    hide F.Step, C.Step, T.Step, R.Settled, R.Counters, R.Advance;
  }

  lemma OffsetWritten(s: D.System, rom: seq<u32>, reg: u16, word: u16)
    requires |rom| == 2048 && D.Sized(s) && reg < 2
    ensures var n := D.Step(s, rom, T.Port(false, true, true, true, reg, word));
      && n.tiles.ram == s.tiles.ram
      && n.tiles.hofs == (if reg == 0 then word else s.tiles.hofs)
      && n.tiles.vofs == (if reg == 1 then word else s.tiles.vofs)
  {
    var port := T.Port(false, true, true, true, reg, word);
    T.AllLanes(s.tiles.hofs, port);
    T.AllLanes(s.tiles.vofs, port);
    hide F.Step, C.Step, T.PipeStep, T.Lanes, T.CellAddress;
  }

  lemma TwoSteps(s: D.System, rom: seq<u32>, a: T.Port, b: T.Port)
    requires |rom| == 2048 && D.Sized(s)
    ensures D.Run(s, rom, [a, b]) == D.Step(D.Step(s, rom, a), rom, b)
  {
    hide D.Step;
    var one: seq<T.Port>, two := [a], [a, b];
    assert one[..0] == [] && D.Run(s, rom, one[..0]) == s;
    assert D.Run(s, rom, one) == D.Step(s, rom, a);
    assert two[..1] == one;
  }

  /** After the two writes the page is displayed, as it was in memory. */
  lemma FlipReady(s: D.System, rom: seq<u32>, m: C.Mode, page: nat)
    requires |rom| == 2048 && D.Timed(s, m) && page < 2
    ensures D.Ready(D.Run(s, rom, FlipPorts(G.PageCtrl(m, page))), m, page, PageCells(s.tiles.ram, page))
  {
    var ctrl := G.PageCtrl(m, page);
    var ports := FlipPorts(ctrl);
    TwoSteps(s, rom, ports[0], ports[1]);
    var a := D.Step(s, rom, ports[0]);
    OffsetWritten(s, rom, 0, ctrl.hofs);
    TimedStep(s, rom, ports[0], m);
    OffsetWritten(a, rom, 1, ctrl.vofs);
    TimedStep(a, rom, ports[1], m);
    hide D.Step, D.Run, G.PageCtrl, R.Settled, R.Counters;
  }

  lemma ReadyIsTimed(s: D.System, m: C.Mode, page: nat, cells: seq<u16>)
    requires D.Ready(s, m, page, cells)
    ensures D.Timed(s, m)
  {
    hide D.Timed;
  }

  /** The cell gfx_rect fills with: the tile of a space in the pen's colour. */
  function PenCell(pen: u8): (cell: u16)
    ensures cell / 0x100 == pen && cell % 0x100 == ' ' as int
  {
    0x100 * pen + 0x20
  }

  /** From gfx_rect to the screen. A page is on display; gfx_rect draws a rectangle on the
      other one; gfx_pageflip writes the offsets. From one line later on, for as long as only
      the page that was displayed before is written, every visible position shows the other
      page's old picture with the pen's blank tile in exactly the rectangle. */
  lemma FlipShowsRect(s: D.System, rom: seq<u32>, m: C.Mode, front: nat, cells: seq<u16>, idle: B.Regs, ctx: G.Context,
                      x: u16, y: u16, w: u16, h: u16, ports: seq<T.Port>)
    requires |rom| == 2048 && D.Sized(s) && front < 2 && D.Ready(s, m, front, cells)
    requires 1 <= w && 1 <= h && ctx.rx + x + w <= 128 && ctx.ry + y + h <= 64
    requires D.BackPorts(ports, 1 - front) && |ports| >= 4 * m.Htotal()
    ensures var b := G.RectRegs(idle, G.PageVram(1 - front), ctx, x, y, w, h);
      var drawn := D.Run(s, rom, FillPorts(b, FillClocks(w, h)));
      var n := D.Run(D.Run(drawn, rom, FlipPorts(G.PageCtrl(m, 1 - front))), rom, ports);
      var p := R.Counters(n.crtc);
      R.Visible(m, p) ==>
        var px, py := p.h - m.hbp, p.v - m.vbp;
        && 0 <= px < 1024 && 0 <= py < 512
        && n.tiles.pipe.colorOut ==
             if ctx.rx + x <= px / 8 < ctx.rx + x + w && ctx.ry + y <= py / 8 < ctx.ry + y + h
             then D.CellPixel(PenCell(ctx.pen), rom, px, py)
             else D.Picture(PageCells(s.tiles.ram, 1 - front), rom, px, py)
  {
    hide *;
    var b := G.RectRegs(idle, G.PageVram(1 - front), ctx, x, y, w, h);
    G.RectProgrammed(b, idle, G.PageVram(1 - front), ctx, x, y, w, h);
    RectSubmitted(b, 1 - front, ctx, x, y, w, h);
    FlipShowsColours(s, rom, m, front, cells, b, ctx.pen, ctx.rx + x, ctx.ry + y, w, h, ports);
  }

  /** Clearing reaches the whole screen and nothing that is seen stays behind: after gfx_clear
      of a root window that covers the mode, and the flip, every visible position shows the
      space of pen 0. */
  lemma ClearedScreen(s: D.System, rom: seq<u32>, m: C.Mode, front: nat, cells: seq<u16>, b: B.Regs, root: G.Window,
                      ports: seq<T.Port>)
    requires |rom| == 2048 && D.Sized(s) && front < 2 && D.Ready(s, m, front, cells)
    requires G.Covers(root, m) && 1 <= root.rw <= 128 && 1 <= root.rh <= 64
    requires G.RectSetup(b, G.PageVram(1 - front), G.Context(0, root.rx, root.ry), 0, 0, root.rw, root.rh)
    requires D.BackPorts(ports, 1 - front) && |ports| >= 4 * m.Htotal()
    ensures var drawn := D.Run(s, rom, FillPorts(b, FillClocks(root.rw, root.rh)));
      var n := D.Run(D.Run(drawn, rom, FlipPorts(G.PageCtrl(m, 1 - front))), rom, ports);
      var p := R.Counters(n.crtc);
      R.Visible(m, p) ==>
        && p.h >= m.hbp && p.v >= m.vbp
        && n.tiles.pipe.colorOut == D.CellPixel(0x20, rom, p.h - m.hbp, p.v - m.vbp)
  {
    hide *;
    RootOrigin(m, root);
    RectSubmitted(b, 1 - front, G.Context(0, root.rx, root.ry), 0, 0, root.rw, root.rh);
    FlipShowsColours(s, rom, m, front, cells, b, 0, root.rx, root.ry, root.rw, root.rh, ports);
    var drawn := D.Run(s, rom, FillPorts(b, FillClocks(root.rw, root.rh)));
    var n := D.Run(D.Run(drawn, rom, FlipPorts(G.PageCtrl(m, 1 - front))), rom, ports);
    SizedParts(n);
    CoveredCells(m, root, R.Counters(n.crtc));
    Blank();
  }

  lemma Blank()
    ensures PenCell(0) == 0x20
  {
  }

  lemma RootOrigin(m: C.Mode, root: G.Window)
    requires G.Covers(root, m)
    ensures root.rx == root.ry == 0
  {
  }

  /** A position is visible exactly when its cell lies in the window. */
  lemma CoveredCells(m: C.Mode, root: G.Window, p: R.Pos)
    requires G.Covers(root, m)
    ensures R.Visible(m, p) <==>
      m.hbp <= p.h && m.vbp <= p.v && (p.h - m.hbp) / 8 < root.rw && (p.v - m.vbp) / 8 < root.rh
  {
  }

  lemma FlipShowsColours(s: D.System, rom: seq<u32>, m: C.Mode, front: nat, cells: seq<u16>, b: B.Regs, pen: u8,
                         x: nat, y: nat, w: nat, h: nat, ports: seq<T.Port>)
    requires |rom| == 2048 && D.Sized(s) && front < 2 && D.Ready(s, m, front, cells)
    requires B.Submitted(b) && !b.wr && Drawing.PageRect(b, 1 - front, x, y, w, h)
    requires b.value == PenCell(pen)
    requires D.BackPorts(ports, 1 - front) && |ports| >= 4 * m.Htotal()
    ensures var n := D.Run(D.Run(D.Run(s, rom, FillPorts(b, FillClocks(w, h))), rom, FlipPorts(G.PageCtrl(m, 1 - front))), rom, ports);
      var p := R.Counters(n.crtc);
      R.Visible(m, p) ==>
        var px, py := p.h - m.hbp, p.v - m.vbp;
        && 0 <= px < 1024 && 0 <= py < 512
        && n.tiles.pipe.colorOut ==
             if x <= px / 8 < x + w && y <= py / 8 < y + h then D.CellPixel(PenCell(pen), rom, px, py)
             else D.Picture(PageCells(s.tiles.ram, 1 - front), rom, px, py)
  {
    hide *;
    var n := D.Run(D.Run(D.Run(s, rom, FillPorts(b, FillClocks(w, h))), rom, FlipPorts(G.PageCtrl(m, 1 - front))), rom, ports);
    FlipShowsPage(s, rom, m, front, cells, b, x, y, w, h, FillClocks(w, h), ports);
    SizedParts(n);
    var p := R.Counters(n.crtc);
    if R.Visible(m, p) {
      VisibleAt(m, p);
      RectOnBackPage(s, rom, b, 1 - front, x, y, w, h, p.h - m.hbp, p.v - m.vbp);
    }
  }

  /** A flip during or after a fill shows the page as the fill has left it. */
  lemma FlipShowsPage(s: D.System, rom: seq<u32>, m: C.Mode, front: nat, cells: seq<u16>, b: B.Regs, x: nat, y: nat, w: nat, h: nat,
                      k: nat, ports: seq<T.Port>)
    requires |rom| == 2048 && D.Sized(s) && front < 2 && D.Ready(s, m, front, cells)
    requires B.Submitted(b) && !b.wr && Drawing.PageRect(b, 1 - front, x, y, w, h)
    requires D.BackPorts(ports, 1 - front) && |ports| >= 4 * m.Htotal()
    ensures var drawn := D.Run(s, rom, FillPorts(b, k));
      var n := D.Run(D.Run(drawn, rom, FlipPorts(G.PageCtrl(m, 1 - front))), rom, ports);
      var p := R.Counters(n.crtc);
      R.Visible(m, p) ==>
        && p.h - m.hbp < 1024 && p.v - m.vbp < 512
        && n.tiles.pipe.colorOut == D.Picture(PageCells(MemoryAfter(s, rom, b, k), 1 - front), rom, p.h - m.hbp, p.v - m.vbp)
  {
    hide *;
    var drawn := D.Run(s, rom, FillPorts(b, k));
    SizedParts(drawn);
    ReadyAfterFlip(s, rom, m, front, cells, b, x, y, w, h, k);
    var flipped := D.Run(drawn, rom, FlipPorts(G.PageCtrl(m, 1 - front)));
    SizedParts(D.Run(flipped, rom, ports));
    D.ScreenShowsPicture(flipped, rom, ports, m, 1 - front, PageCells(MemoryAfter(s, rom, b, k), 1 - front));
  }

  lemma RectSubmitted(b: B.Regs, page: nat, ctx: G.Context, x: u16, y: u16, w: u16, h: u16)
    requires page < 2 && G.RectSetup(b, G.PageVram(page), ctx, x, y, w, h)
    requires 1 <= w && 1 <= h && ctx.rx + x + w <= 128 && ctx.ry + y + h <= 64
    ensures B.Submitted(b) && !b.wr && b.value == PenCell(ctx.pen)
    ensures Drawing.PageRect(b, page, ctx.rx + x, ctx.ry + y, w, h)
  {
    Drawing.RectIsPageRect(b, page, ctx, x, y, w, h);
    hide Drawing.PageRect, G.RectStart;
  }

  lemma ReadyAfterFlip(s: D.System, rom: seq<u32>, m: C.Mode, front: nat, cells: seq<u16>, b: B.Regs, x: nat, y: nat, w: nat, h: nat,
                       k: nat)
    requires |rom| == 2048 && D.Sized(s) && front < 2 && D.Ready(s, m, front, cells)
    requires B.Submitted(b) && !b.wr && Drawing.PageRect(b, 1 - front, x, y, w, h)
    ensures var drawn := D.Run(s, rom, FillPorts(b, k));
      && D.Sized(D.Run(drawn, rom, FlipPorts(G.PageCtrl(m, 1 - front))))
      && D.Ready(D.Run(drawn, rom, FlipPorts(G.PageCtrl(m, 1 - front))), m, 1 - front,
                 PageCells(MemoryAfter(s, rom, b, k), 1 - front))
  {
    hide *;
    var drawn := D.Run(s, rom, FillPorts(b, k));
    MemoryOf(s, rom, b, k);
    FillKeepsToItsPage(b, 1 - front, x, y, w, h, k);
    D.RunShows(s, rom, FillPorts(b, k), m, front, cells);
    ReadyIsTimed(drawn, m, front, cells);
    FlipReady(drawn, rom, m, 1 - front);
  }

  lemma MemoryOf(s: D.System, rom: seq<u32>, b: B.Regs, k: nat)
    requires |rom| == 2048 && D.Sized(s)
    ensures MemoryAfter(s, rom, b, k) == D.Run(s, rom, FillPorts(b, k)).tiles.ram
  {
  }

  lemma SizedParts(s: D.System)
    requires D.Sized(s)
    ensures C.Sized(s.crtc) && |s.tiles.ram| == 0x4000
  {
  }

  lemma VisibleAt(m: C.Mode, p: R.Pos)
    requires R.Visible(m, p)
    ensures p.h - m.hbp >= 0 && p.v - m.vbp >= 0
  {
  }
}
