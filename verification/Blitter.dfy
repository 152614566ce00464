/** The rectangle filler of blitter.sv: a register file that the processor writes while
    the machine is idle, and a fill that puts out one write per clock. */
module Blitter {
  import opened Words

  datatype Regs = Regs(
    active: bool, wr: bool, addr: u16, data: u16,
    value: u16, span: u16, skip: u16, rows: u16, start: u16,
    nextAddr: u16, spanCount: u16, rowCount: u16)

  /** The processor's side: byte strobes, register number and data. */
  datatype Bus = Bus(reset: bool, wr0: bool, wr1: bool, address: nat, din: u16)

  const QUIET := Bus(false, false, false, 0, 0)

  /** word_assign */
  function WordAssign(cur: u16, bus: Bus): u16 {
    (if bus.wr1 then bus.din / 0x100 * 0x100 else cur / 0x100 * 0x100) + (if bus.wr0 then bus.din % 0x100 else cur % 0x100)
  }

  /** An active clock: either the fill is over, or one write goes out. */
  function FillStep(b: Regs): Regs {
    if b.rowCount > b.rows then b.(active := false, wr := false)
    else
      var c := b.(wr := true, addr := b.nextAddr, data := b.value);
      if b.spanCount == b.span
      then c.(spanCount := 0, rowCount := Wrap16(b.rowCount + 1), nextAddr := Wrap16(b.nextAddr + b.skip))
      else c.(spanCount := Wrap16(b.spanCount + 1), nextAddr := Wrap16(b.nextAddr + 1))
  }

  function IdleStep(b: Regs, bus: Bus): Regs {
    var c := b.(wr := false);
    match bus.address % 16
    case 0 => c.(value := WordAssign(b.value, bus))
    case 1 => c.(span := WordAssign(b.span, bus))
    case 2 => c.(skip := WordAssign(b.skip, bus))
    case 3 => c.(rows := WordAssign(b.rows, bus))
    case 4 => c.(start := WordAssign(b.start, bus))
    case 7 => if bus.wr0 then c.(active := true, nextAddr := b.start, spanCount := 0, rowCount := 0) else c
    case _ => c
  }

  function Step(b: Regs, bus: Bus): Regs {
    if bus.reset then b.(wr := false, active := false) else if b.active then FillStep(b) else IdleStep(b, bus)
  }

  class Machine {
    var active: bool
    var wr: bool
    var addr: u16
    var data: u16
    var value: u16
    var span: u16
    var skip: u16
    var rows: u16
    var start: u16
    var nextAddr: u16
    var spanCount: u16
    var rowCount: u16

    ghost function State(): Regs
      reads this
    {
      Regs(active, wr, addr, data, value, span, skip, rows, start, nextAddr, spanCount, rowCount)
    }

    constructor ()
      ensures !active
    {
      active, wr, addr, data := false, false, 0, 0;
      value, span, skip, rows, start := 0, 0, 0, 0, 0;
      nextAddr, spanCount, rowCount := 0, 0, 0;
    }

    /** One clock: the write strobe falls unless the branch raises it. */
    method Clock(bus: Bus)
      modifies this
      ensures State() == Step(old(State()), bus)
    {
      wr := false;
      if bus.reset {
        active := false;
      } else if active {
        if rowCount > rows {
          active := false;
        } else {
          wr, addr, data := true, nextAddr, value;
          var s: int := spanCount;
          spanCount := Wrap16(s + 1);
          if s == span {
            spanCount := 0;
            rowCount := Wrap16(rowCount + 1);
            nextAddr := Wrap16(nextAddr + skip);
          } else {
            nextAddr := Wrap16(nextAddr + 1);
          }
        }
      } else {
        match bus.address % 16 {
          case 0 => value := WordAssign(value, bus);
          case 1 => span := WordAssign(span, bus);
          case 2 => skip := WordAssign(skip, bus);
          case 3 => rows := WordAssign(rows, bus);
          case 4 => start := WordAssign(start, bus);
          case 7 =>
            if bus.wr0 {
              active, nextAddr, spanCount, rowCount := true, start, 0, 0;
            }
          case _ =>
        }
      }
    }
  }

  // ------------------------------------------------------------- the bus

  /** A byte strobe replaces its own byte of the addressed register and no other. */
  lemma ByteLanes(cur: u16, bus: Bus)
    ensures WordAssign(cur, bus) / 0x100 == (if bus.wr1 then bus.din else cur) / 0x100
    ensures WordAssign(cur, bus) % 0x100 == (if bus.wr0 then bus.din else cur) % 0x100
  {
  }

  /** An address that is no register, and a submit without its low strobe, change nothing. */
  lemma NoRegister(b: Regs, bus: Bus)
    requires !b.active && !bus.reset
    requires bus.address % 16 in {5, 6} || bus.address % 16 >= 8 || (bus.address % 16 == 7 && !bus.wr0)
    ensures Step(b, bus) == b.(wr := false)
  {
  }

  function RunWith(b: Regs, buses: seq<Bus>): Regs {
    if buses == [] then b else Step(RunWith(b, buses[..|buses| - 1]), buses[|buses| - 1])
  }

  /** Whatever is on the bus meanwhile, a running fill is not disturbed: short of a reset it
      does what it does on a quiet bus. */
  lemma {:induction false} BusIgnored(b: Regs, buses: seq<Bus>)
    requires forall j | 0 <= j < |buses| :: !buses[j].reset && After(b, j).active
    ensures RunWith(b, buses) == After(b, |buses|)
  {
    if buses != [] {
      hide Step;
      BusIgnored(b, buses[..|buses| - 1]);
      BusyStep(After(b, |buses| - 1), buses[|buses| - 1]);
    }
  }

  lemma BusyStep(b: Regs, bus: Bus)
    requires b.active && !bus.reset
    ensures Step(b, bus) == Step(b, QUIET)
  {
    hide FillStep, IdleStep;
  }

  /** A reset stops any fill at once and keeps its registers; the next submit begins anew. */
  lemma ResetStops(b: Regs, bus: Bus, submit: Bus)
    requires bus.reset && !submit.reset && submit.address % 16 == 7 && submit.wr0
    ensures !Step(b, bus).active && !Step(b, bus).wr && SameSetup(b, Step(b, bus))
    ensures Submitted(Step(Step(b, bus), submit)) && SameSetup(b, Step(Step(b, bus), submit))
  {
  }

  // ------------------------------------------------------------- the fill

  /** The fill is at column c of row r. The 16-bit counter holds the number of finished
      rows r modulo 2^16. */
  predicate At(b: Regs, r: nat, c: nat) {
    && b.active && b.spanCount == c <= b.span && b.rowCount == r % 0x1_0000
    && b.nextAddr == FillAddress(b, r, c)
  }

  /** Row r begins at start + r * (span + skip). */
  function FillAddress(b: Regs, r: nat, c: nat): u16 { Wrap16(b.start + r * (b.span + b.skip) + c) }

  predicate SameSetup(b: Regs, d: Regs) {
    d.value == b.value && d.span == b.span && d.skip == b.skip && d.rows == b.rows && d.start == b.start
  }

  /** A write goes out at the address of the position, and the position moves on. */
  lemma FillMoves(b: Regs, r: nat, c: nat)
    requires At(b, r, c) && b.rowCount <= b.rows
    ensures var d := FillStep(b);
      && SameSetup(b, d) && d.wr && d.addr == FillAddress(b, r, c) && d.data == b.value
      && if c == b.span then At(d, r + 1, 0) else At(d, r, c + 1)
  {
    hide Wrap16;
    var base := b.start + r * (b.span + b.skip) + c;
    if c == b.span {
      MulSucc(r, b.span + b.skip);
      WrapAdd16(base, b.skip);
      NextRow(r);
    } else {
      WrapAdd16(base, 1);
      NextColumn(c);
    }
  }

  lemma NextRow(r: nat)
    ensures Wrap16(r % 0x1_0000 + 1) == (r + 1) % 0x1_0000
  {
  }

  lemma NextColumn(c: nat)
    requires c < 0xffff
    ensures Wrap16(c + 1) == c + 1
  {
  }

  function After(b: Regs, k: nat): Regs {
    if k == 0 then b else Step(After(b, k - 1), QUIET)
  }

  /** While it runs the fill keeps its setup. */
  lemma {:induction false} AfterSetup(b: Regs, k: nat)
    requires b.active
    ensures SameSetup(b, After(b, k))
  {
    if k > 0 {
      AfterSetup(b, k - 1);
      var d := After(b, k - 1);
      if !d.active { IdleQuiet(d); }
    }
  }

  lemma IdleQuiet(b: Regs)
    ensures IdleStep(b, QUIET) == b.(wr := false)
  {
  }

  /** With 0xFFFF as the row register the row counter can never exceed it. */
  lemma {:induction false} RunsForever(b: Regs, k: nat)
    requires b.active && b.rows == 0xffff
    ensures After(b, k).active && After(b, k).rows == 0xffff
  {
    if k > 0 {
      RunsForever(b, k - 1);
    }
  }

  lemma {:induction false} AfterStep(b: Regs, k: nat)
    ensures After(Step(b, QUIET), k) == After(b, k + 1)
  {
    if k > 0 {
      AfterStep(b, k - 1);
    }
  }

  /** From column c of row r the fill is idle after the remaining writes and one clock. */
  lemma {:induction false} Finishes(b: Regs, r: nat, c: nat) returns (k: nat)
    requires At(b, r, c) && b.rows < 0xffff && r <= b.rows + 1 && (r == b.rows + 1 ==> c == 0)
    ensures k == (b.rows + 1 - r) * (b.span + 1) - c + 1 && !After(b, k).active
    ensures forall j | 0 <= j < k :: After(b, j).active
    decreases b.rows + 1 - r, b.span - c
  {
    if r == b.rows + 1 {
      k := 1;
      assert After(b, 0) == b && After(b, 1) == FillStep(b);
    } else {
      FillMoves(b, r, c);
      var d := FillStep(b);
      var n: nat;
      if c == b.span {
        n := Finishes(d, r + 1, 0);
        MulSucc(b.rows - r, b.span + 1);
      } else {
        n := Finishes(d, r, c + 1);
      }
      k := n + 1;
      AfterStep(b, n);
      forall j | 0 <= j < k ensures After(b, j).active {
        if j > 0 { AfterStep(b, j - 1); }
      }
    }
  }

  /** A submitted fill: the first clock after the write to register 7. */
  predicate Submitted(b: Regs) { b.active && b.nextAddr == b.start && b.spanCount == 0 && b.rowCount == 0 }

  /** For arbitrary registers the fill ends if and only if the row register is not 0xFFFF. */
  lemma TerminatesExactly(b: Regs)
    requires Submitted(b)
    ensures (exists k: nat :: !After(b, k).active) <==> b.rows != 0xffff
  {
    if b.rows == 0xffff {
      forall k: nat ensures After(b, k).active {
        RunsForever(b, k);
      }
    } else {
      SubmittedAt(b);
      var k := Finishes(b, 0, 0);
    }
  }

  lemma SubmittedAt(b: Regs)
    requires Submitted(b)
    ensures At(b, 0, 0)
  {
  }

  /** A fill of w by h (registers w - 1 and h - 1) is active for exactly w * h + 1 clocks. */
  lemma ActiveClocks(b: Regs, w: nat, h: nat)
    requires Submitted(b) && b.span == w - 1 && b.rows == h - 1 && 1 <= h <= 0xffff
    ensures !After(b, w * h + 1).active
    ensures forall j | 0 <= j < w * h + 1 :: After(b, j).active
  {
    SubmittedAt(b);
    var k := Finishes(b, 0, 0);
    assert k == w * h + 1;
  }
}
