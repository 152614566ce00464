/** The drawing side of the firmware (gfx.c): video modes, page flipping, and the
    rectangles it programs into the blitter. */
module Gfx {
  import opened Words
  import Crtc
  import Tilemap
  import Blitter

  // ------------------------------------------------------------- modes and pages

  /** The two timings of gfx_set_240p, 480 by 230 and 400 by 253 in all. */
  function ModeFor(wide: bool): Crtc.Mode {
    if wide then Crtc.Mode(384, 16, 32, 48, 216, 3, 5, 6) else Crtc.Mode(320, 8, 32, 40, 240, 3, 4, 6)
  }

  /** A window of text cells: origin, columns and rows. */
  datatype Window = Window(rx: u16, ry: u16, rw: u16, rh: u16)

  /** The window is the visible picture: its 8 by 8 cells are exactly the active pixels. */
  predicate Covers(root: Window, m: Crtc.Mode) {
    root.rx == root.ry == 0 && m.hact == 8 * root.rw && m.vact == 8 * root.rh
  }

  datatype TileCtrl = TileCtrl(hofs: u16, vofs: u16)

  /** The offsets that show a page: -(hs + hfp - 9), and 64 tile rows down for page 1. */
  function PageCtrl(m: Crtc.Mode, page: nat): TileCtrl {
    TileCtrl(Wrap16(-(m.hs + m.hfp - 9)), Wrap16(64 * 8 * page - m.vbp))
  }

  /** vram_base is 0x900000, a page is 128 * 64 words. */
  function PageVram(page: nat): u32
    requires page < 2
  {
    0x900000 + 0x4000 * page
  }

  class Pages {
    var pageTileCtrl: seq<TileCtrl>
    var pageVram: seq<u32>
    var pageFront: nat
    /** The tilemap's offset registers and the base address all drawing goes through. */
    var tileCtrl: TileCtrl
    var vram: u32
    /** contexts[0], the window all others are placed in. */
    var root: Window
    ghost var mode: Crtc.Mode

    /** After gfx_set_240p: the front page is displayed, the other one is drawn on. */
    ghost predicate Valid()
      reads this
    {
      && pageTileCtrl == [PageCtrl(mode, 0), PageCtrl(mode, 1)]
      && pageVram == [PageVram(0), PageVram(1)]
      && pageFront < 2
      && tileCtrl == PageCtrl(mode, pageFront)
      && vram == PageVram(1 - pageFront)
      && Covers(root, mode)
    }

    constructor ()
      ensures pageFront == 0 && |pageTileCtrl| == |pageVram| == 2
    {
      pageTileCtrl := [TileCtrl(0, 0), TileCtrl(0, 0)];
      pageVram := [0, 0];
      pageFront := 0;
      tileCtrl := TileCtrl(0, 0);
      vram := 0x900000;
      root := Window(0, 0, 0, 0);
    }

    /** gfx_set_240p, for any earlier page state; it ends with a page flip. */
    method Set240p(wide: bool) returns (m: Crtc.Mode)
      requires pageFront < 2 && |pageTileCtrl| == |pageVram| == 2
      modifies this
      ensures Valid() && m == mode == ModeFor(wide) && pageFront == 1 - old(pageFront)
      ensures wide ==> m == Crtc.Mode(384, 16, 32, 48, 216, 3, 5, 6) && m.Htotal() == 480 && m.Vtotal() == 230
      ensures !wide ==> m == Crtc.Mode(320, 8, 32, 40, 240, 3, 4, 6) && m.Htotal() == 400 && m.Vtotal() == 253
      ensures root == (if wide then Window(0, 0, 48, 27) else Window(0, 0, 40, 30)) && Covers(root, m)
      ensures pageVram == [0x900000, 0x904000] && vram == 0x900000 + 0x4000 * old(pageFront)
    {
      m := ModeFor(wide);
      root := if wide then Window(0, 0, 48, 27) else Window(0, 0, 40, 30);
      pageTileCtrl := pageTileCtrl[0 := TileCtrl(Wrap16(-(m.hs + m.hfp - 9)), Wrap16(0 - m.vbp))];
      pageVram := pageVram[0 := 0x900000];
      pageTileCtrl := pageTileCtrl[1 := TileCtrl(Wrap16(-(m.hs + m.hfp - 9)), Wrap16(64 * 8 - m.vbp))];
      pageVram := pageVram[1 := 0x900000 + 2 * (128 * 64)];
      mode := m;
      PageFlip();
    }

    /** gfx_pageflip. */
    method PageFlip()
      requires pageTileCtrl == [PageCtrl(mode, 0), PageCtrl(mode, 1)] && pageVram == [PageVram(0), PageVram(1)]
      requires pageFront < 2 && Covers(root, mode)
      modifies this
      ensures Valid() && mode == old(mode) && root == old(root) && pageFront == 1 - old(pageFront)
    {
      var pageBack := pageFront;
      pageFront := if pageFront != 0 then 0 else 1;
      tileCtrl := pageTileCtrl[pageFront];
      vram := pageVram[pageBack];
    }
  }

  /** One word written to the controller's register `reg`. */
  method PokeCrtc(crtc: Crtc.Controller, ce: bool, reg: nat, word: u16)
    requires crtc.Valid() && reg < 16
    modifies crtc, crtc.ctrl
    ensures crtc.Valid() && crtc.ctrl == old(crtc.ctrl) && crtc.ctrl[reg] == word
    ensures forall i | 0 <= i < 16 && i != reg :: crtc.ctrl[i] == old(crtc.ctrl[i])
  {
    Crtc.WordWritten(crtc.State(), ce, reg, word);
    hide Crtc.Step;
    ghost var before := crtc.State();
    crtc.Clock(ce, Crtc.Bus(false, true, true, reg, word));
    assert crtc.State().ctrl[reg] == word;
    assert forall i | 0 <= i < 16 && i != reg :: crtc.State().ctrl[i] == before.ctrl[i];
  }

  /** The register writes of crt_set_mode: divider, timing and aspect ratio. Pixel enables
      may fall on any of the clocks. */
  method SetMode(crtc: Crtc.Controller, m: Crtc.Mode, wide: bool, ces: seq<bool>)
    requires crtc.Valid() && |ces| == 12
    modifies crtc, crtc.ctrl
    ensures crtc.Valid() && crtc.ctrl == old(crtc.ctrl)
    ensures Crtc.ModeOf(crtc.State()) == m
    ensures crtc.ctrl[0] % 0x400 == 1 && crtc.ctrl[1] % 0x400 == 4
    ensures (crtc.ctrl[10], crtc.ctrl[11]) == if wide then (16, 9) else (4, 3)
  {
    hide Crtc.Step;
    PokeCrtc(crtc, ces[0], 0, 1);
    PokeCrtc(crtc, ces[1], 1, 4);
    PokeCrtc(crtc, ces[2], 2, m.hact);
    PokeCrtc(crtc, ces[3], 3, m.hfp);
    PokeCrtc(crtc, ces[4], 4, m.hs);
    PokeCrtc(crtc, ces[5], 5, m.hbp);
    PokeCrtc(crtc, ces[6], 6, m.vact);
    PokeCrtc(crtc, ces[7], 7, m.vfp);
    PokeCrtc(crtc, ces[8], 8, m.vs);
    PokeCrtc(crtc, ces[9], 9, m.vbp);
    PokeCrtc(crtc, ces[10], 10, if wide then 16 else 4);
    PokeCrtc(crtc, ces[11], 11, if wide then 9 else 3);
  }

  /** The two writes of gfx_pageflip to the tilemap's offset registers. */
  method WriteTileCtrl(tiles: Tilemap.Device, ctrl: TileCtrl, hcnt: u12, vcnt: u12, ce0: bool, ce1: bool)
    requires tiles.Valid()
    modifies tiles, tiles.ram
    ensures tiles.Valid() && tiles.ram == old(tiles.ram) && tiles.ram[..] == old(tiles.ram[..])
    ensures TileCtrl(tiles.hofs, tiles.vofs) == ctrl
  {
    Tilemap.AllLanes(tiles.hofs, Tilemap.Port(false, true, true, true, 0, ctrl.hofs));
    tiles.Clock(ce0, hcnt, vcnt, Tilemap.Port(false, true, true, true, 0, ctrl.hofs));
    assert tiles.State().hofs == ctrl.hofs;
    Tilemap.AllLanes(tiles.vofs, Tilemap.Port(false, true, true, true, 1, ctrl.vofs));
    tiles.Clock(ce1, hcnt, vcnt, Tilemap.Port(false, true, true, true, 1, ctrl.vofs));
    assert tiles.State().vofs == ctrl.vofs && tiles.State().hofs == ctrl.hofs;
  }

  /** The RAM cell behind vram[128 * y + x]: the memory sees fourteen address bits. */
  function VramCell(vram: u32, x: nat, y: nat): nat { (vram / 2 + 128 * y + x) % 0x4000 }

  lemma CellOfPage(page: nat, x: nat, y: nat)
    requires page < 2 && x < 128 && y < 64
    ensures VramCell(PageVram(page), x, y) == 0x2000 * page + 128 * y + x
  {
  }

  /** Rows of the screen are read from the page the offsets show, whatever the column. */
  lemma FetchedRow(m: Crtc.Mode, page: nat, h: u12, py: nat, t: Tilemap.Regs)
    requires page < 2 && py < m.vact <= 512 && m.vbp + py < 0x1000
    requires TileCtrl(t.hofs, t.vofs) == PageCtrl(m, page)
    ensures Tilemap.V(t, m.vbp + py) == 512 * page + py
    ensures Tilemap.CellAddress(h, Tilemap.V(t, m.vbp + py)) == 0x2000 * page + 128 * (py / 8) + h / 8 % 128
  {
    RowOffset(page, m.vbp, py);
    hide Wrap16, Add12;
    assert Tilemap.V(t, m.vbp + py) == 512 * page + py;
    RowBits(page, py);
  }

  lemma RowOffset(page: nat, vbp: u12, py: nat)
    requires page < 2 && py < 512 && vbp + py < 0x1000
    ensures Add12(vbp + py, Wrap16(512 * page - vbp) % 0x1000) == 512 * page + py
  {
    var k := 512 * page - vbp;
    if k < 0 {
      assert Wrap16(k) == 0x1_0000 + k && Wrap16(k) % 0x1000 == 0x1000 + k;
    } else {
      assert Wrap16(k) == k && k % 0x1000 == k;
    }
  }

  lemma RowBits(page: nat, py: nat)
    requires page < 2 && py < 512
    ensures (512 * page + py) / 8 % 128 * 128 == 0x2000 * page + 128 * (py / 8)
  {
    assert (512 * page + py) / 8 == 64 * page + py / 8;
  }

  /** In every state reached by page flips: a cell drawn at in-page coordinates is never
      one that the tilemap fetches for a displayed row. */
  lemma DrawingIsInvisible(m: Crtc.Mode, front: nat, x: nat, y: nat, h: u12, py: nat, t: Tilemap.Regs)
    requires front < 2 && x < 128 && y < 64 && py < m.vact <= 512 && m.vbp + py < 0x1000
    requires TileCtrl(t.hofs, t.vofs) == PageCtrl(m, front)
    ensures VramCell(PageVram(1 - front), x, y) != Tilemap.CellAddress(h, Tilemap.V(t, m.vbp + py))
  {
    hide VramCell, Tilemap.CellAddress, Tilemap.V;
    CellOfPage(1 - front, x, y);
    FetchedRow(m, front, h, py, t);
    assert py / 8 < 64 && h / 8 % 128 < 128;
  }

  // ------------------------------------------------------------- rectangles

  /** The drawing context: pen and origin of the current window. */
  datatype Context = Context(pen: u8, rx: u16, ry: u16)

  /** Register values of gfx_rect. */
  function RectStart(vram: u32, ctx: Context, x: u16, y: u16): u16 {
    Wrap16(vram / 2 % 0x1_0000 + Wrap16((ctx.ry + y) * 128 + x + ctx.rx))
  }

  predicate RectSetup(b: Blitter.Regs, vram: u32, ctx: Context, x: u16, y: u16, w: u16, h: u16) {
    && Blitter.Submitted(b) && !b.wr
    && b.start == RectStart(vram, ctx, x, y) && b.value == 0x100 * ctx.pen + 0x20
    && b.span == Wrap16(w - 1) && b.rows == Wrap16(h - 1) && b.skip == Wrap16(128 - (w - 1))
  }

  /** The registers gfx_rect leaves, from those of an idle machine. */
  function RectRegs(b: Blitter.Regs, vram: u32, ctx: Context, x: u16, y: u16, w: u16, h: u16): Blitter.Regs {
    var start := RectStart(vram, ctx, x, y);
    b.(active := true, wr := false, start := start, value := 0x100 * ctx.pen + 0x20, span := Wrap16(w - 1), rows := Wrap16(h - 1),
       skip := Wrap16(128 - (w - 1)), nextAddr := start, spanCount := 0, rowCount := 0)
  }

  lemma RectProgrammed(b: Blitter.Regs, idle: Blitter.Regs, vram: u32, ctx: Context, x: u16, y: u16, w: u16, h: u16)
    requires b == RectRegs(idle, vram, ctx, x, y, w, h)
    ensures RectSetup(b, vram, ctx, x, y, w, h)
  {
    hide Wrap16, RectStart;
  }

  /** A word write of the processor to blitter register `reg`. */
  method Poke(blitter: Blitter.Machine, reg: nat, word: u16)
    requires !blitter.active && reg < 8
    modifies blitter
    ensures blitter.State() == Blitter.IdleStep(old(blitter.State()), Blitter.Bus(false, true, true, reg, word))
  {
    blitter.Clock(Blitter.Bus(false, true, true, reg, word));
  }

  lemma WholeWord(cur: u16, reg: nat, word: u16)
    ensures Blitter.WordAssign(cur, Blitter.Bus(false, true, true, reg, word)) == word
  {
  }

  /** gfx_rect. The processor is held while a fill is active, so the machine is idle. */
  method Rect(blitter: Blitter.Machine, vram: u32, ctx: Context, x: u16, y: u16, w: u16, h: u16)
    requires !blitter.active
    modifies blitter
    ensures RectSetup(blitter.State(), vram, ctx, x, y, w, h)
    ensures blitter.State() == RectRegs(old(blitter.State()), vram, ctx, x, y, w, h)
  {
    hide Blitter.WordAssign, Wrap16;
    var baseAddr: u16 := vram / 2 % 0x1_0000;
    var ofs := Wrap16((ctx.ry + y) * 128 + x + ctx.rx);
    var addr, value := Wrap16(baseAddr + ofs), 0x100 * ctx.pen + 0x20;
    WholeWord(blitter.start, 4, addr);
    Poke(blitter, 4, addr);
    WholeWord(blitter.value, 0, value);
    Poke(blitter, 0, value);
    WholeWord(blitter.span, 1, Wrap16(w - 1));
    Poke(blitter, 1, Wrap16(w - 1));
    WholeWord(blitter.rows, 3, Wrap16(h - 1));
    Poke(blitter, 3, Wrap16(h - 1));
    WholeWord(blitter.skip, 2, Wrap16(128 - (w - 1)));
    Poke(blitter, 2, Wrap16(128 - (w - 1)));
    Poke(blitter, 7, 1);
  }

  /** gfx_clear programs the same registers for the whole window, with pen 0. */
  method ClearWindow(blitter: Blitter.Machine, vram: u32, rx: u16, ry: u16, rw: u16, rh: u16)
    requires !blitter.active
    modifies blitter
    ensures RectSetup(blitter.State(), vram, Context(0, rx, ry), 0, 0, rw, rh)
  {
    hide Blitter.WordAssign, Wrap16;
    var baseAddr: u16 := vram / 2 % 0x1_0000;
    var ofs := Wrap16(ry * 128 + rx);
    var addr := Wrap16(baseAddr + ofs);
    WholeWord(blitter.start, 4, addr);
    Poke(blitter, 4, addr);
    WholeWord(blitter.value, 0, 0x20);
    Poke(blitter, 0, 0x20);
    WholeWord(blitter.span, 1, Wrap16(rw - 1));
    Poke(blitter, 1, Wrap16(rw - 1));
    WholeWord(blitter.rows, 3, Wrap16(rh - 1));
    Poke(blitter, 3, Wrap16(rh - 1));
    WholeWord(blitter.skip, 2, Wrap16(128 - (rw - 1)));
    Poke(blitter, 2, Wrap16(128 - (rw - 1)));
    Poke(blitter, 7, 1);
  }

  /** Row r, column c of a rectangle of 1 to 128 columns is written at start + 128 r + c. */
  lemma RectAddress(b: Blitter.Regs, vram: u32, ctx: Context, x: u16, y: u16, w: u16, h: u16, r: nat, c: nat)
    requires RectSetup(b, vram, ctx, x, y, w, h) && 1 <= w <= 128
    ensures Blitter.FillAddress(b, r, c) == Wrap16(b.start + 128 * r + c)
  {
    assert b.span + b.skip == 128 by { Stride(w); }
    hide Wrap16, RectSetup;
    Rows(r, b.span + b.skip);
  }

  lemma Rows(r: nat, stride: nat)
    requires stride == 128
    ensures r * stride == 128 * r
  {
  }

  lemma Stride(w: u16)
    requires 1 <= w <= 128
    ensures Wrap16(w - 1) + Wrap16(128 - (w - 1)) == 128
  {
  }

  /** Up to 512 rows no address is written twice. */
  lemma RectDistinct(start: u16, r: nat, c: nat, r': nat, c': nat)
    requires r < 512 && r' < 512 && c < 128 && c' < 128
    requires Wrap16(start + 128 * r + c) == Wrap16(start + 128 * r' + c')
    ensures r == r' && c == c'
  {
    var a, a' := 128 * r + c, 128 * r' + c';
    assert a < 0x1_0000 && a' < 0x1_0000;
    assert a == a' by { WrapInjective(start, a, a'); }
  }

  lemma WrapInjective(start: u16, a: nat, a': nat)
    requires a < 0x1_0000 && a' < 0x1_0000 && Wrap16(start + a) == Wrap16(start + a')
    ensures a == a'
  {
  }
}
