/** A fill reaching the video RAM: the blitter drives the tilemap's write port while it is
    active, so a write goes into the memory in the clock after the one that puts it out. */
module Drawing {
  import opened Words
  import opened Blitter
  import Gfx

  datatype Write = Write(addr: u16, data: u16)

  /** The first c writes of row r, and all writes before column c of row r. */
  function RowWrites(b: Regs, r: nat, c: nat): (s: seq<Write>)
    ensures |s| == c
  {
    seq(c, i requires 0 <= i < c => Write(FillAddress(b, r, i), b.value))
  }

  function FillWrites(b: Regs, r: nat, c: nat): seq<Write> {
    if r == 0 then RowWrites(b, 0, c) else FillWrites(b, r - 1, b.span + 1) + RowWrites(b, r, c)
  }

  function Applied(ram: seq<u16>, writes: seq<Write>): (after: seq<u16>)
    requires |ram| == 0x4000
    ensures |after| == 0x4000
  {
    if writes == [] then ram
    else
      var last := writes[|writes| - 1];
      Applied(ram, writes[..|writes| - 1])[last.addr % 0x4000 := last.data]
  }

  lemma NextWrite(b: Regs, r: nat, c: nat)
    ensures FillWrites(b, r, c + 1) == FillWrites(b, r, c) + [Write(FillAddress(b, r, c), b.value)]
  {
    assert RowWrites(b, r, c + 1) == RowWrites(b, r, c) + [Write(FillAddress(b, r, c), b.value)];
  }

  lemma NextRowWrites(b: Regs, r: nat)
    ensures FillWrites(b, r + 1, 0) == FillWrites(b, r, b.span + 1)
  {
    assert RowWrites(b, r + 1, 0) == [];
  }

  lemma AppliedLast(ram: seq<u16>, writes: seq<Write>, w: Write)
    requires |ram| == 0x4000
    ensures Applied(ram, writes + [w]) == Applied(ram, writes)[w.addr % 0x4000 := w.data]
  {
    assert (writes + [w])[..|writes|] == writes;
  }

  /** Clock a submitted fill until it is idle. The memory ends with exactly the writes of
      all rows, in order, and the fill has taken one clock per write and one more. */
  method RunFill(blitter: Machine, ram: array<u16>) returns (clocks: nat)
    requires Submitted(blitter.State()) && !blitter.wr && blitter.rows < 0xffff && ram.Length == 0x4000
    modifies blitter, ram
    ensures !blitter.active && SameSetup(old(blitter.State()), blitter.State())
    ensures clocks == (old(blitter.span) + 1) * (old(blitter.rows) + 1) + 1
    ensures ram[..] == Applied(old(ram[..]), FillWrites(old(blitter.State()), old(blitter.rows), old(blitter.span) + 1))
  {
    hide FillWrites, Applied, RowWrites, FillAddress;
    ghost var b, ram0 := blitter.State(), ram[..];
    ghost var r: nat, c: nat := 0, 0;
    ghost var done: seq<Write> := [];
    clocks := 0;
    assert FillWrites(b, 0, 0) == [] && Applied(ram0, []) == ram0 by { NothingYet(b, ram0); }
    SubmittedAt(b);
    while blitter.active
      invariant ram.Length == 0x4000 && SameSetup(b, blitter.State())
      invariant r <= b.rows + 1 && (r == b.rows + 1 ==> c == 0)
      invariant blitter.active ==> At(blitter.State(), r, c) && clocks == r * (b.span + 1) + c
      invariant blitter.active ==> ram[..] == Applied(ram0, done)
      invariant blitter.active ==>
        FillWrites(b, r, c) == done + if blitter.wr then [Write(blitter.addr, blitter.data)] else []
      invariant !blitter.active ==> clocks == (b.rows + 1) * (b.span + 1) + 1
      invariant !blitter.active ==> ram[..] == Applied(ram0, FillWrites(b, b.rows + 1, 0))
      decreases blitter.active, b.rows + 1 - r, b.span - c
    {
      if blitter.wr {
        AppliedLast(ram0, done, Write(blitter.addr, blitter.data));
        ram[blitter.addr % 0x4000] := blitter.data;
        done := done + [Write(blitter.addr, blitter.data)];
      }
      assert ram[..] == Applied(ram0, done) && done == FillWrites(b, r, c);
      ghost var d := blitter.State();
      blitter.Clock(QUIET);
      clocks := clocks + 1;
      if r <= b.rows {
        FillMoves(d, r, c);
        assert FillAddress(d, r, c) == FillAddress(b, r, c) by { SameAddress(b, d, r, c); }
        NextWrite(b, r, c);
        if c == b.span {
          NextRowWrites(b, r);
          MulSucc(r, b.span + 1);
          r, c := r + 1, 0;
        } else {
          c := c + 1;
        }
      }
    }
    NextRowWrites(b, b.rows);
    assert (b.rows + 1) * (b.span + 1) == (b.span + 1) * (b.rows + 1);
  }

  lemma NothingYet(b: Regs, ram: seq<u16>)
    requires |ram| == 0x4000
    ensures FillWrites(b, 0, 0) == [] && Applied(ram, []) == ram
  {
  }

  lemma SameAddress(b: Regs, d: Regs, r: nat, c: nat)
    requires SameSetup(b, d)
    ensures FillAddress(d, r, c) == FillAddress(b, r, c)
  {
  }

  // ------------------------------------------------------------- each address once

  /** The write at column j of row i comes after i whole rows and j columns. */
  lemma {:induction false} WriteAt(b: Regs, r: nat, c: nat, i: nat, j: nat)
    requires i <= r && (if i < r then j <= b.span else j < c)
    ensures |FillWrites(b, r, c)| == r * (b.span + 1) + c
    ensures i * (b.span + 1) + j < |FillWrites(b, r, c)|
    ensures FillWrites(b, r, c)[i * (b.span + 1) + j] == Write(FillAddress(b, i, j), b.value)
    decreases r
  {
    hide FillAddress;
    var w := b.span + 1;
    WriteCount(b, r, c);
    if r > 0 {
      MulSucc(r - 1, w);
      WriteCount(b, r - 1, w);
      if i < r {
        WriteAt(b, r - 1, w, i, j);
      }
    } else {
      assert 0 * w == 0;
    }
  }

  lemma {:induction false} WriteCount(b: Regs, r: nat, c: nat)
    ensures |FillWrites(b, r, c)| == r * (b.span + 1) + c
    decreases r
  {
    if r > 0 {
      WriteCount(b, r - 1, b.span + 1);
      MulSucc(r - 1, b.span + 1);
    }
  }

  /** The write for row i and column j of a rectangle. */
  lemma RectWriteAt(b: Regs, vram: u32, ctx: Gfx.Context, x: u16, y: u16, w: u16, h: u16, i: nat, j: nat)
    requires Gfx.RectSetup(b, vram, ctx, x, y, w, h) && 1 <= w <= 128 && 1 <= h
    requires i < h && j < w
    ensures var writes := FillWrites(b, b.rows, b.span + 1);
      && |writes| == w * h && 0 <= i * w + j < |writes|
      && writes[i * w + j] == Write(Wrap16(b.start + 128 * i + j), 0x100 * ctx.pen + 0x20)
  {
    Gfx.RectAddress(b, vram, ctx, x, y, w, h, i, j);
    SmallWrap16(w - 1);
    SmallWrap16(h - 1);
    hide FillWrites, FillAddress, Wrap16, Gfx.RectStart;
    WriteAt(b, b.rows, b.span + 1, i, j);
    MulSucc(h - 1, w);
  }

  /** A rectangle of 1 to 128 columns and 1 to 512 rows writes w * h words; the one for row
      i and column j goes to start + 128 i + j, and no address is written twice. */
  lemma RectWritesOnce(b: Regs, vram: u32, ctx: Gfx.Context, x: u16, y: u16, w: u16, h: u16,
                       i: nat, j: nat, i': nat, j': nat)
    requires Gfx.RectSetup(b, vram, ctx, x, y, w, h) && 1 <= w <= 128 && 1 <= h <= 512
    requires i < h && i' < h && j < w && j' < w
    ensures var writes := FillWrites(b, b.rows, b.span + 1);
      && |writes| == w * h && 0 <= i * w + j < |writes| && 0 <= i' * w + j' < |writes|
      && writes[i * w + j] == Write(Wrap16(b.start + 128 * i + j), 0x100 * ctx.pen + 0x20)
      && (writes[i * w + j].addr == writes[i' * w + j'].addr ==> i == i' && j == j')
  {
    hide FillWrites, FillAddress, Wrap16, Gfx.RectStart, Gfx.RectSetup;
    RectWriteAt(b, vram, ctx, x, y, w, h, i, j);
    RectWriteAt(b, vram, ctx, x, y, w, h, i', j');
    if Wrap16(b.start + 128 * i + j) == Wrap16(b.start + 128 * i' + j') {
      Gfx.RectDistinct(b.start, i, j, i', j');
    }
  }

  // ------------------------------------------------------------- what the memory shows

  /** Some write before column c of row r falls on RAM cell a. */
  ghost predicate Hit(b: Regs, r: nat, c: nat, a: nat) {
    exists i, j | 0 <= i <= r && 0 <= j ::
      (if i < r then j <= b.span else j < c) && FillAddress(b, i, j) % 0x4000 == a
  }

  lemma HitColumn(b: Regs, r: nat, c: nat, a: nat)
    ensures Hit(b, r, c + 1, a) <==> Hit(b, r, c, a) || FillAddress(b, r, c) % 0x4000 == a
  {
    hide FillAddress;
    if FillAddress(b, r, c) % 0x4000 == a {
      assert Hit(b, r, c + 1, a);
    }
  }

  lemma HitRow(b: Regs, r: nat, a: nat)
    ensures Hit(b, r + 1, 0, a) <==> Hit(b, r, b.span + 1, a)
  {
    hide FillAddress;
    if Hit(b, r + 1, 0, a) {
      var i, j :| 0 <= i <= r + 1 && 0 <= j && (if i < r + 1 then j <= b.span else j < 0) && FillAddress(b, i, j) % 0x4000 == a;
      assert 0 <= i <= r && (if i < r then j <= b.span else j < b.span + 1);
    }
    if Hit(b, r, b.span + 1, a) {
      var i, j :| 0 <= i <= r && 0 <= j && (if i < r then j <= b.span else j < b.span + 1) && FillAddress(b, i, j) % 0x4000 == a;
      assert 0 <= i <= r + 1 && (if i < r + 1 then j <= b.span else j < 0);
    }
  }

  /** Cells that are hit hold the fill value, all others are unchanged. */
  lemma {:induction false} FilledCell(ram: seq<u16>, b: Regs, r: nat, c: nat, a: nat)
    requires |ram| == 0x4000 && a < 0x4000
    ensures Applied(ram, FillWrites(b, r, c))[a] == if Hit(b, r, c, a) then b.value else ram[a]
    decreases r, c
  {
    hide FillAddress, Applied, FillWrites, Hit;
    if c > 0 {
      FilledCell(ram, b, r, c - 1, a);
      NextWrite(b, r, c - 1);
      AppliedLast(ram, FillWrites(b, r, c - 1), Write(FillAddress(b, r, c - 1), b.value));
      HitColumn(b, r, c - 1, a);
    } else if r > 0 {
      FilledCell(ram, b, r - 1, b.span + 1, a);
      NextRowWrites(b, r - 1);
      HitRow(b, r - 1, a);
    } else {
      NothingYet(b, ram);
      assert !Hit(b, 0, 0, a) by { NoHit(b, a); }
    }
  }

  lemma NoHit(b: Regs, a: nat)
    ensures !Hit(b, 0, 0, a)
  {
  }

  /** An in-page rectangle, in page coordinates, that gfx_rect has programmed. */
  predicate PageRect(b: Regs, page: nat, x: nat, y: nat, w: nat, h: nat) {
    && page < 2 && 1 <= w <= 128 && 1 <= h <= 64 && x + w <= 128 && y + h <= 64
    && b.start == 0x2000 * page + 128 * y + x && b.span == w - 1 && b.rows == h - 1 && b.skip == 128 - (w - 1)
  }

  /** gfx_rect programs the rectangle its coordinates say, on the page drawn on. */
  lemma RectIsPageRect(b: Regs, page: nat, ctx: Gfx.Context, x: u16, y: u16, w: u16, h: u16)
    requires page < 2 && Gfx.RectSetup(b, Gfx.PageVram(page), ctx, x, y, w, h)
    requires 1 <= w && 1 <= h && ctx.rx + x + w <= 128 && ctx.ry + y + h <= 64
    ensures PageRect(b, page, ctx.rx + x, ctx.ry + y, w, h)
  {
    hide Wrap16;
    assert Gfx.PageVram(page) / 2 % 0x1_0000 == 0x2000 * page;
    SmallWrap16((ctx.ry + y) * 128 + x + ctx.rx);
    SmallWrap16(0x2000 * page + (ctx.ry + y) * 128 + x + ctx.rx);
    SmallWrap16(w - 1);
    SmallWrap16(h - 1);
    SmallWrap16(128 - (w - 1));
  }

  lemma PageAddress(b: Regs, page: nat, x: nat, y: nat, w: nat, h: nat, i: nat, j: nat)
    requires PageRect(b, page, x, y, w, h) && i < h && j < w
    ensures FillAddress(b, i, j) == 0x2000 * page + 128 * (y + i) + (x + j) == FillAddress(b, i, j) % 0x4000
  {
    assert b.span + b.skip == 128;
    assert i * (b.span + b.skip) == 128 * i;
  }

  /** On the page, exactly the cells of the rectangle hold the pen's blank tile; every
      other cell of both pages is as before. */
  lemma RectOnPage(ram: seq<u16>, b: Regs, page: nat, x: nat, y: nat, w: nat, h: nat, p: nat, col: nat, row: nat)
    requires |ram| == 0x4000 && PageRect(b, page, x, y, w, h) && p < 2 && col < 128 && row < 64
    ensures var a := 0x2000 * p + 128 * row + col;
      Applied(ram, FillWrites(b, b.rows, b.span + 1))[a] ==
        if p == page && x <= col < x + w && y <= row < y + h then b.value else ram[a]
  {
    hide FillAddress, Applied, FillWrites, Hit, PageRect;
    FilledCell(ram, b, b.rows, b.span + 1, 0x2000 * p + 128 * row + col);
    PageHit(b, page, x, y, w, h, p, col, row);
  }

  lemma CellInjective(page: nat, row: nat, col: nat, p: nat, r: nat, c: nat)
    requires row < 64 && col < 128 && r < 64 && c < 128
    requires 0x2000 * page + 128 * row + col == 0x2000 * p + 128 * r + c
    ensures page == p && row == r && col == c
  {
  }

  lemma PageHit(b: Regs, page: nat, x: nat, y: nat, w: nat, h: nat, p: nat, col: nat, row: nat)
    requires PageRect(b, page, x, y, w, h) && p < 2 && col < 128 && row < 64
    ensures Hit(b, b.rows, b.span + 1, 0x2000 * p + 128 * row + col)
       <==> p == page && x <= col < x + w && y <= row < y + h
  {
    hide FillAddress;
    if p == page && x <= col < x + w && y <= row < y + h {
      PageAddress(b, page, x, y, w, h, row - y, col - x);
      assert FillAddress(b, row - y, col - x) % 0x4000 == 0x2000 * p + 128 * row + col;
    } else if Hit(b, b.rows, b.span + 1, 0x2000 * p + 128 * row + col) {
      HitInside(b, page, x, y, w, h, p, col, row);
    }
  }

  lemma HitInside(b: Regs, page: nat, x: nat, y: nat, w: nat, h: nat, p: nat, col: nat, row: nat)
    requires PageRect(b, page, x, y, w, h) && p < 2 && col < 128 && row < 64
    requires Hit(b, b.rows, b.span + 1, 0x2000 * p + 128 * row + col)
    ensures p == page && x <= col < x + w && y <= row < y + h
  {
    hide FillAddress;
    var i, j :| 0 <= i <= b.rows && 0 <= j && (if i < b.rows then j <= b.span else j < b.span + 1)
      && FillAddress(b, i, j) % 0x4000 == 0x2000 * p + 128 * row + col;
    PageAddress(b, page, x, y, w, h, i, j);
    CellInjective(page, y + i, x + j, p, row, col);
  }
}
