/** The CRT controller of crtc.sv: its register file, the boundary registers that are
    computed from it in three pipeline stages, and the horizontal and vertical counters. */
module Crtc {
  import opened Words

  /** Video timing: active, front porch, sync, back porch. A line begins with its back
      porch, so the active part is [bp, bp + act). */
  datatype Mode = Mode(hact: u12, hfp: u12, hs: u12, hbp: u12, vact: u12, vfp: u12, vs: u12, vbp: u12) {
    function Htotal(): nat { hact + hfp + hs + hbp }

    function Vtotal(): nat { vact + vfp + vs + vbp }

    /** video_mode_pixels of hdmi.h. */
    function Pixels(): nat { Htotal() * Vtotal() }

    predicate Usable() { 0 < Htotal() < 0x1000 && 0 < Vtotal() < 0x1000 }
  }

  /** The 32 control words and the boundary registers. */
  datatype Regs = Regs(
    ctrl: seq<u16>,
    hbStart: u12, vbStart: u12, hsStart: u12, vsStart: u12, hsEnd: u12, vsEnd: u12)

  datatype Bus = Bus(reset: bool, wr0: bool, wr1: bool, address: nat, din: u16)

  const QUIET := Bus(false, false, false, 0, 0)

  predicate Sized(r: Regs) { |r.ctrl| == 32 }

  function ModeOf(r: Regs): Mode
    requires Sized(r)
  {
    Mode(r.ctrl[2] % 0x1000, r.ctrl[3] % 0x1000, r.ctrl[4] % 0x1000, r.ctrl[5] % 0x1000,
         r.ctrl[6] % 0x1000, r.ctrl[7] % 0x1000, r.ctrl[8] % 0x1000, r.ctrl[9] % 0x1000)
  }

  function Hcnt(r: Regs): u12
    requires Sized(r)
  {
    r.ctrl[16] % 0x1000
  }

  function Vcnt(r: Regs): u12
    requires Sized(r)
  {
    r.ctrl[17] % 0x1000
  }

  predicate Hblank(r: Regs)
    requires Sized(r)
  {
    Hcnt(r) >= r.hbStart || Hcnt(r) < ModeOf(r).hbp
  }

  predicate Vblank(r: Regs)
    requires Sized(r)
  {
    Vcnt(r) >= r.vbStart || Vcnt(r) < ModeOf(r).vbp
  }

  predicate Hsync(r: Regs)
    requires Sized(r)
  {
    r.hsStart <= Hcnt(r) < r.hsEnd
  }

  predicate Vsync(r: Regs)
    requires Sized(r)
  {
    r.vsStart <= Vcnt(r) < r.vsEnd
  }

  /** The counter is at its last value. The comparison is 32 bits wide, so an end of zero is
      never reached. */
  predicate AtEnd(cnt: u12, end: u12) { end > 0 && cnt >= end - 1 }

  /** Reset and byte writes, in the order in which the source assigns. */
  function Written(ctrl: seq<u16>, bus: Bus): (w: seq<u16>)
    requires |ctrl| == 32 && bus.address < 32
    ensures |w| == 32
  {
    var c0 := if bus.reset then ctrl[16 := 0][17 := 0] else ctrl;
    var c1 := if bus.wr0 then c0[bus.address := c0[bus.address] / 0x100 * 0x100 + bus.din % 0x100] else c0;
    if bus.wr1 then c1[bus.address := bus.din / 0x100 * 0x100 + c1[bus.address] % 0x100] else c1
  }

  /** The counters after a pixel enable, from their values before it. */
  function Counted(ctrl: seq<u16>, h: u12, v: u12, hsEnd: u12, vsEnd: u12): (c: seq<u16>)
    requires |ctrl| == 32
    ensures |c| == 32
  {
    if AtEnd(h, hsEnd) then ctrl[16 := 0][17 := if AtEnd(v, vsEnd) then 0 else v + 1] else ctrl[16 := h + 1]
  }

  /** One clock with pixel enable `ce`. */
  function Step(r: Regs, ce: bool, bus: Bus): (s: Regs)
    requires Sized(r) && bus.address < 32
    ensures Sized(s)
  {
    var m := ModeOf(r);
    var c0 := Written(r.ctrl, bus);
    var c1 := if ce then Counted(c0, Hcnt(r), Vcnt(r), r.hsEnd, r.vsEnd) else c0;
    Regs(c1, Add12(m.hact, m.hbp), Add12(m.vact, m.vbp), Add12(r.hbStart, m.hfp), Add12(r.vbStart, m.vfp),
         Add12(r.hsStart, m.hs), Add12(r.vsStart, m.vs))
  }

  class Controller {
    var ctrl: array<u16>
    var hbStart: u12
    var vbStart: u12
    var hsStart: u12
    var vsStart: u12
    var hsEnd: u12
    var vsEnd: u12

    ghost predicate Valid()
      reads this
    {
      ctrl.Length == 32
    }

    ghost function State(): (r: Regs)
      reads this, ctrl
      requires Valid()
      ensures Sized(r)
    {
      Regs(ctrl[..], hbStart, vbStart, hsStart, vsStart, hsEnd, vsEnd)
    }

    constructor ()
      ensures Valid() && fresh(ctrl)
    {
      ctrl := new u16[32](_ => 0);
      hbStart, vbStart, hsStart, vsStart, hsEnd, vsEnd := 0, 0, 0, 0, 0, 0;
    }

    /** The assignments to ctrl that come from reset and from the bus. */
    method Write(bus: Bus)
      requires Valid() && bus.address < 32
      modifies ctrl
      ensures ctrl[..] == Written(old(ctrl[..]), bus)
    {
      if bus.reset {
        ctrl[16] := 0;
        ctrl[17] := 0;
      }
      if bus.wr0 {
        ctrl[bus.address] := ctrl[bus.address] / 0x100 * 0x100 + bus.din % 0x100;
      }
      if bus.wr1 {
        ctrl[bus.address] := bus.din / 0x100 * 0x100 + ctrl[bus.address] % 0x100;
      }
    }

    /** The assignments to ctrl under the pixel enable. */
    method Count(h: u12, v: u12)
      requires Valid()
      modifies ctrl
      ensures ctrl[..] == Counted(old(ctrl[..]), h, v, hsEnd, vsEnd)
    {
      ctrl[16] := h + 1;
      if AtEnd(h, hsEnd) {
        ctrl[16] := 0;
        ctrl[17] := v + 1;
        if AtEnd(v, vsEnd) {
          ctrl[17] := 0;
        }
      }
    }

    /** One clock: every right-hand side is sampled first, and where two
        assignments meet the later one wins. */
    method Clock(ce: bool, bus: Bus)
      requires Valid() && bus.address < 32
      modifies this, ctrl
      ensures Valid() && ctrl == old(ctrl) && State() == Step(old(State()), ce, bus)
    {
      hide Written, Counted, Add12;
      var h, v := ctrl[16] % 0x1000, ctrl[17] % 0x1000;
      var m := Mode(ctrl[2] % 0x1000, ctrl[3] % 0x1000, ctrl[4] % 0x1000, ctrl[5] % 0x1000,
                    ctrl[6] % 0x1000, ctrl[7] % 0x1000, ctrl[8] % 0x1000, ctrl[9] % 0x1000);
      assert m == ModeOf(State()) && h == Hcnt(State()) && v == Vcnt(State());
      Write(bus);
      if ce {
        Count(h, v);
      }
      hbStart, hsStart, hsEnd := Add12(m.hact, m.hbp), Add12(hbStart, m.hfp), Add12(hsStart, m.hs);
      vbStart, vsStart, vsEnd := Add12(m.vact, m.vbp), Add12(vbStart, m.vfp), Add12(vsStart, m.vs);
    }
  }

  /** A whole-word write to a register other than the counters, whatever the counters do
      in that clock. */
  lemma WordWritten(r: Regs, ce: bool, reg: nat, word: u16)
    requires Sized(r) && reg < 16
    ensures var s := Step(r, ce, Bus(false, true, true, reg, word));
      s.ctrl[reg] == word && forall i | 0 <= i < 16 && i != reg :: s.ctrl[i] == r.ctrl[i]
  {
  }

  /** Byte strobes replace their own byte of the addressed register and no other register. */
  lemma ByteWritten(r: Regs, ce: bool, bus: Bus, i: nat)
    requires Sized(r) && bus.address < 16 && i < 16
    ensures var word := Step(r, ce, bus).ctrl[i];
      && word / 0x100 == (if i == bus.address && bus.wr1 then bus.din else r.ctrl[i]) / 0x100
      && word % 0x100 == (if i == bus.address && bus.wr0 then bus.din else r.ctrl[i]) % 0x100
  {
  }

  /** Reset does not always clear the counters: a pixel enable in the same clock assigns later.
      They are both zero after it exactly when there is no enable, or the enable wraps them. */
  lemma ResetExactly(r: Regs, ce: bool, din: u16)
    requires Sized(r)
    ensures var s := Step(r, ce, Bus(true, false, false, 0, din));
      Hcnt(s) == Vcnt(s) == 0 <==>
        || !ce
        || (if AtEnd(Hcnt(r), r.hsEnd) then AtEnd(Vcnt(r), r.vsEnd) || Vcnt(r) == 0xfff else Hcnt(r) == 0xfff)
  {
  }
}
