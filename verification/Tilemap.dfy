/** The tilemap of tilemap.sv: 128 x 128 cells of video RAM, the tile ROM, and the
    pipeline that turns counter values into colour indices. */
module Tilemap {
  import opened Words
  import opened Sheet

  /** The registers of the colour pipeline, and the read registers of the memories: the
      RAM delivers one clock after its address, the ROM two. */
  datatype Pipe = Pipe(
    tilerefQ: u16, tileref: u16, romAddr: u11, gfxData: u32,
    shiftout: u32, color: u8, colorOut: u8)

  datatype Regs = Regs(ram: seq<u16>, hofs: u16, vofs: u16, pipe: Pipe)

  /** The write port: chip selects, byte strobes, address and data. */
  datatype Port = Port(csRam: bool, csReg: bool, wr0: bool, wr1: bool, address: u16, din: u16)

  predicate Sized(t: Regs) { |t.ram| == 0x4000 }

  /** A write to one or both bytes of a word. */
  function Lanes(old_: u16, p: Port): u16 {
    (if p.wr1 then p.din / 0x100 * 0x100 else old_ / 0x100 * 0x100) + (if p.wr0 then p.din % 0x100 else old_ % 0x100)
  }

  /** A byte strobe replaces its own byte and no other. */
  lemma ByteLanes(old_: u16, p: Port)
    ensures Lanes(old_, p) / 0x100 == (if p.wr1 then p.din else old_) / 0x100
    ensures Lanes(old_, p) % 0x100 == (if p.wr0 then p.din else old_) % 0x100
  {
  }

  lemma AllLanes(old_: u16, p: Port)
    requires p.wr0 && p.wr1
    ensures Lanes(old_, p) == p.din
  {
  }

  lemma NoLanes(old_: u16, p: Port)
    requires !p.wr0 && !p.wr1
    ensures Lanes(old_, p) == old_
  {
  }

  function RamAfter(ram: seq<u16>, p: Port): (r: seq<u16>)
    requires |ram| == 0x4000
    ensures |r| == 0x4000
  {
    if p.csRam then ram[p.address % 0x4000 := Lanes(ram[p.address % 0x4000], p)] else ram
  }

  /** The cell under a position: seven bits of tile row, seven of tile column. */
  function CellAddress(H: u12, V: u12): (a: nat)
    ensures a < 0x4000
  {
    V / 8 % 128 * 128 + H / 8 % 128
  }

  /** The ROM word of one pixel row of a tile. */
  function RomAddress(tileref: u16, low: nat): u11
    requires low < 8
  {
    8 * (tileref % 0x100) + low
  }

  function AddColor(w: u32, color: u8): u8 { (TopNibble(w) + color) % 0x100 }

  /** One clock of the pipeline. `fetched` is the cell under the counters, `phase` and
      `low` are the pixel column and pixel row within it. */
  function PipeStep(p: Pipe, rom: seq<u32>, ce: bool, fetched: u16, phase: nat, low: nat): Pipe
    requires |rom| == 2048 && low < 8
  {
    Pipe(
      fetched,
      if ce && phase == 0 then p.tilerefQ else p.tileref,
      RomAddress(p.tileref, low),
      rom[p.romAddr],
      if !ce then p.shiftout else if phase == 7 then p.gfxData else ShiftOnce(p.shiftout),
      if ce && phase == 7 then p.tileref / 0x100 else p.color,
      if ce then AddColor(p.shiftout, p.color) else p.colorOut)
  }

  function H(t: Regs, hcnt: u12): u12 { Add12(hcnt, t.hofs % 0x1000) }

  function V(t: Regs, vcnt: u12): u12 { Add12(vcnt, t.vofs % 0x1000) }

  function Step(t: Regs, rom: seq<u32>, ce: bool, hcnt: u12, vcnt: u12, port: Port): (s: Regs)
    requires Sized(t) && |rom| == 2048
    ensures Sized(s)
  {
    var h, v := H(t, hcnt), V(t, vcnt);
    Regs(
      RamAfter(t.ram, port),
      if port.csReg && port.address % 2 == 0 then Lanes(t.hofs, port) else t.hofs,
      if port.csReg && port.address % 2 == 1 then Lanes(t.vofs, port) else t.vofs,
      PipeStep(t.pipe, rom, ce, t.ram[CellAddress(h, v)], h % 8, v % 8))
  }

  /** A word written to the registers sets the horizontal offset at even and the vertical one
      at odd addresses, and leaves video RAM alone. */
  lemma OffsetsWritten(t: Regs, rom: seq<u32>, ce: bool, hcnt: u12, vcnt: u12, k: nat, din: u16)
    requires Sized(t) && |rom| == 2048 && k < 0x8000
    ensures var even := Step(t, rom, ce, hcnt, vcnt, Port(false, true, true, true, 2 * k, din));
      even.hofs == din && even.vofs == t.vofs && even.ram == t.ram
    ensures var odd := Step(t, rom, ce, hcnt, vcnt, Port(false, true, true, true, 2 * k + 1, din));
      odd.hofs == t.hofs && odd.vofs == din && odd.ram == t.ram
  {
    hide PipeStep;
    AllLanes(t.hofs, Port(false, true, true, true, 2 * k, din));
    AllLanes(t.vofs, Port(false, true, true, true, 2 * k + 1, din));
  }

  class Device {
    const rom: seq<u32>
    var ram: array<u16>
    var hofs: u16
    var vofs: u16
    var tilerefQ: u16
    var tileref: u16
    var romAddr: u11
    var gfxData: u32
    var shiftout: u32
    var color: u8
    var colorOut: u8

    ghost predicate Valid()
      reads this
    {
      ram.Length == 0x4000 && |rom| == 2048
    }

    ghost function PipeState(): Pipe
      reads this
    {
      Pipe(tilerefQ, tileref, romAddr, gfxData, shiftout, color, colorOut)
    }

    ghost function State(): (t: Regs)
      reads this, ram
      requires Valid()
      ensures Sized(t)
    {
      Regs(ram[..], hofs, vofs, PipeState())
    }

    constructor (rom: seq<u32>)
      requires |rom| == 2048
      ensures Valid() && fresh(ram) && this.rom == rom
    {
      this.rom := rom;
      ram := new u16[0x4000](_ => 0);
      hofs, vofs, tilerefQ, tileref, romAddr := 0, 0, 0, 0, 0;
      gfxData, shiftout, color, colorOut := 0, 0, 0, 0;
    }

    method ClockPipe(ce: bool, fetched: u16, phase: nat, low: nat)
      requires Valid() && low < 8
      modifies this`tilerefQ, this`tileref, this`romAddr, this`gfxData, this`shiftout, this`color, this`colorOut
      ensures PipeState() == PipeStep(old(PipeState()), rom, ce, fetched, phase, low)
    {
      var ref, q, word := tileref, tilerefQ, gfxData;
      if ce {
        colorOut := AddColor(shiftout, color);
        shiftout := ShiftOnce(shiftout);
        if phase == 0 {
          tileref := q;
        } else if phase == 7 {
          color := ref / 0x100;
          shiftout := word;
        }
      }
      gfxData := rom[romAddr];
      romAddr := RomAddress(ref, low);
      tilerefQ := fetched;
    }

    /** One clock: both memories, the offset registers and the pipeline. */
    method Clock(ce: bool, hcnt: u12, vcnt: u12, port: Port)
      requires Valid()
      modifies this, ram
      ensures Valid() && ram == old(ram) && State() == Step(old(State()), rom, ce, hcnt, vcnt, port)
    {
      hide PipeStep, CellAddress, Lanes;
      var h, v := Add12(hcnt, hofs % 0x1000), Add12(vcnt, vofs % 0x1000);
      var fetched := ram[CellAddress(h, v)];
      if port.csRam {
        ram[port.address % 0x4000] := Lanes(ram[port.address % 0x4000], port);
      }
      if port.csReg && port.address % 2 == 0 {
        hofs := Lanes(hofs, port);
      }
      if port.csReg && port.address % 2 == 1 {
        vofs := Lanes(vofs, port);
      }
      ClockPipe(ce, fetched, h % 8, v % 8);
    }
  }

  // ------------------------------------------------------------- one line

  /** A line of the screen: 128 cells, one pixel row of each. */
  function WordOf(rom: seq<u32>, cell: u16, low: nat): u32
    requires |rom| == 2048 && low < 8
  {
    rom[RomAddress(cell, low)]
  }

  /** The colour index of pixel x of a line of cells. */
  function LinePixel(line: seq<u16>, rom: seq<u32>, low: nat, x: nat): u8
    requires |line| == 128 && |rom| == 2048 && low < 8 && x < 1024
  {
    var cell := line[x / 8];
    AddColor(Shifted(WordOf(rom, cell, low), x % 8), cell / 0x100)
  }

  /** What the pipeline holds while column H of a line is under the counters; `c` is the
      state of the divide-by-four: 1 just after a pixel enable, 0 just before the next.
      The cell under H is fetched, the tile of the previous column is referenced and its
      word is on its way, the tile of eight columns ago is being shifted out, and the
      pixel of nine columns ago is at the output. */
  ghost predicate Holds(p: Pipe, c: nat, H: nat, line: seq<u16>, rom: seq<u32>, low: nat)
    requires |line| == 128 && |rom| == 2048 && low < 8 && H < 1024
  {
    && (c != 1 ==> p.tilerefQ == line[H / 8])
    && (H >= 1 ==> p.tileref == line[(H - 1) / 8])
    && (H >= 1 && (H % 8 != 1 || c != 1) ==> p.romAddr == RomAddress(line[(H - 1) / 8], low))
    && (H >= 1 && (H % 8 != 1 || c == 0 || c == 3) ==> p.gfxData == WordOf(rom, line[(H - 1) / 8], low))
    && (H >= 8 ==>
          && p.color == line[(H - 8) / 8] / 0x100
          && p.shiftout == Shifted(WordOf(rom, line[(H - 8) / 8], low), (H - 8) % 8))
    && (H >= 9 ==> p.colorOut == LinePixel(line, rom, low, H - 9))
  }

  /** A clock between two enables. */
  lemma HoldsClock(p: Pipe, c: nat, H: nat, line: seq<u16>, rom: seq<u32>, low: nat)
    requires |line| == 128 && |rom| == 2048 && low < 8 && H < 1024 && 1 <= c <= 3
    requires Holds(p, c, H, line, rom, low)
    ensures Holds(PipeStep(p, rom, false, line[H / 8], H % 8, low), if c == 3 then 0 else c + 1, H, line, rom, low)
  {
    hide RomAddress, Shifted, AddColor;
  }

  /** A pixel enable moves the pipeline on by one column. */
  lemma HoldsEnable(p: Pipe, H: nat, line: seq<u16>, rom: seq<u32>, low: nat)
    requires |line| == 128 && |rom| == 2048 && low < 8 && H + 1 < 1024
    requires Holds(p, 0, H, line, rom, low)
    ensures Holds(PipeStep(p, rom, true, line[H / 8], H % 8, low), 1, H + 1, line, rom, low)
  {
    hide RomAddress, AddColor, ShiftOnce;
    assert H % 8 != 0 ==> (H - 1) / 8 == H / 8;
    if H >= 8 {
      assert H % 8 != 7 ==> (H - 7) / 8 == (H - 8) / 8 && (H - 7) % 8 == (H - 8) % 8 + 1;
    }
    if H % 8 == 7 {
      assert (H - 1) / 8 == (H - 7) / 8 && (H - 7) % 8 == 0;
    }
  }

  /** Before the line begins nothing is claimed. */
  lemma HoldsStart(p: Pipe, line: seq<u16>, rom: seq<u32>, low: nat)
    requires |line| == 128 && |rom| == 2048 && low < 8
    ensures Holds(p, 1, 0, line, rom, low)
  {
  }
}
