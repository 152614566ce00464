/** The firmware's display calls on the hardware: gfx_set_240p and gfx_pageflip with their
    register writes, and the state of the display they leave. */
module Firmware {
  import opened Words
  import F = FracCen
  import C = Crtc
  import T = Tilemap
  import G = Gfx
  import D = Display
  import S = Screen

  /** The hardware is set up to display a page as it is in memory, whatever the divider, the
      counters and the pipeline hold. */
  ghost predicate Displays(crtc: C.Regs, tiles: T.Regs, m: C.Mode, page: nat) {
    && page < 2 && T.Sized(tiles)
    && forall cen: F.Regs :: D.Configured(D.System(cen, crtc, tiles), m, page, S.PageCells(tiles.ram, page))
  }

  lemma DisplaysWhen(crtc: C.Regs, tiles: T.Regs, m: C.Mode, page: nat)
    requires C.Sized(crtc) && T.Sized(tiles) && page < 2 && D.Showable(m) && C.ModeOf(crtc) == m
    requires crtc.ctrl[0] % 0x400 == 1 && crtc.ctrl[1] % 0x400 == 4
    requires G.TileCtrl(tiles.hofs, tiles.vofs) == G.PageCtrl(m, page)
    ensures Displays(crtc, tiles, m, page)
  {
  }

  /** gfx_set_240p: mode registers, page tables and the closing flip. Pixel enables fall on any
      of the clocks, and the counters the tilemap sees meanwhile are arbitrary. */
  method Set240p(pages: G.Pages, crtc: C.Controller, tiles: T.Device, wide: bool, ces: seq<bool>, hcnt: u12, vcnt: u12,
                 ce0: bool, ce1: bool)
    requires pages.pageFront < 2 && |pages.pageTileCtrl| == |pages.pageVram| == 2
    requires crtc.Valid() && tiles.Valid() && crtc.ctrl != tiles.ram && |ces| == 12
    modifies pages, crtc, crtc.ctrl, tiles, tiles.ram
    ensures pages.Valid() && crtc.Valid() && tiles.Valid() && crtc.ctrl == old(crtc.ctrl) && tiles.ram == old(tiles.ram)
    ensures pages.pageFront == 1 - old(pages.pageFront)
    ensures pages.mode == if wide then C.Mode(384, 16, 32, 48, 216, 3, 5, 6) else C.Mode(320, 8, 32, 40, 240, 3, 4, 6)
    ensures pages.root == (if wide then G.Window(0, 0, 48, 27) else G.Window(0, 0, 40, 30)) && G.Covers(pages.root, pages.mode)
    ensures Displays(crtc.State(), tiles.State(), pages.mode, pages.pageFront)
  {
    var m := pages.Set240p(wide);
    G.SetMode(crtc, m, wide, ces);
    G.WriteTileCtrl(tiles, pages.tileCtrl, hcnt, vcnt, ce0, ce1);
    D.FirmwareModes(wide);
    DisplaysWhen(crtc.State(), tiles.State(), m, pages.pageFront);
  }

  /** gfx_pageflip: the page that was drawn on is displayed, and drawing goes to the other. */
  method PageFlip(pages: G.Pages, crtc: C.Controller, tiles: T.Device, hcnt: u12, vcnt: u12, ce0: bool, ce1: bool)
    requires pages.Valid() && crtc.Valid() && tiles.Valid() && crtc.ctrl != tiles.ram
    requires Displays(crtc.State(), tiles.State(), pages.mode, pages.pageFront)
    modifies pages, tiles, tiles.ram
    ensures pages.Valid() && tiles.Valid() && tiles.ram == old(tiles.ram) && tiles.ram[..] == old(tiles.ram[..])
    ensures pages.mode == old(pages.mode) && pages.root == old(pages.root) && pages.pageFront == 1 - old(pages.pageFront)
    ensures pages.vram == G.PageVram(old(pages.pageFront))
    ensures Displays(crtc.State(), tiles.State(), pages.mode, pages.pageFront)
  {
    ghost var cen := F.Regs(0, false, 0, false, false, false);
    assert D.Configured(D.System(cen, crtc.State(), tiles.State()), pages.mode, pages.pageFront,
                        S.PageCells(tiles.State().ram, pages.pageFront));
    pages.PageFlip();
    G.WriteTileCtrl(tiles, pages.tileCtrl, hcnt, vcnt, ce0, ce1);
    DisplaysWhen(crtc.State(), tiles.State(), pages.mode, pages.pageFront);
  }

  /** What the hardware then shows: 684 clocks and two lines after the calls, and for as long
      as only the other page is written, the page's picture at every visible position. */
  lemma DisplayShows(cen: F.Regs, crtc: C.Regs, tiles: T.Regs, rom: seq<u32>, m: C.Mode, page: nat, ports: seq<T.Port>)
    requires |rom| == 2048 && C.Sized(crtc) && Displays(crtc, tiles, m, page)
    requires D.BackPorts(ports, page) && |ports| >= 684 + 8 * m.Htotal()
    ensures var n := D.Run(D.System(cen, crtc, tiles), rom, ports);
      var p := D.R.Counters(n.crtc);
      D.R.Visible(m, p) ==>
        && p.h - m.hbp < 1024 && p.v - m.vbp < 512
        && n.tiles.pipe.colorOut == D.Picture(S.PageCells(tiles.ram, page), rom, p.h - m.hbp, p.v - m.vbp)
  {
    hide D.Run, D.Picture, D.R.Counters, D.R.Visible, S.PageCells;
    assert D.Configured(D.System(cen, crtc, tiles), m, page, S.PageCells(tiles.ram, page));
    D.ShowsFromAnyContents(D.System(cen, crtc, tiles), rom, ports, m, page, S.PageCells(tiles.ram, page));
  }
}
