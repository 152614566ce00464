/** The measurement protocol of main.c: the polled state machine of do_sampling and
    the level 4 (vertical blank ends) and level 6 (sensor) interrupt handlers, as
    interleaved atomic steps. clock_get_ticks lowers the interrupt mask to zero, also
    inside a handler, so handlers nest on a stack. Beside the 32-bit tick stamps and
    the 16-bit sequence numbers the state carries the true time and the true round. */
module Protocol {
  import opened Words

  /** 200 ms, 200 ms and 500 ms at ten thousand ticks per millisecond. */
  const WAIT_CLEAR_TICKS: nat := 2_000_000
  const MIN_SAMPLE_TICKS: nat := 2_000_000
  const MAX_SAMPLE_TICKS: nat := 5_000_000

  datatype Level = L4 | L6

  /** A handler has just been entered; has found the round's number fresh; holds the
      tick count (the interrupt mask is zero from here on); has stored the stamp. */
  datatype HandlerPc = Entered | Checked | Latched | Stored

  /** `id` is the handler's place among those that found the round fresh, `at` the
      true time it read. The word it holds is `at` modulo 2^32. */
  datatype Handler = Handler(level: Level, pc: HandlerPc, id: nat, at: nat)

  /** One interrupt source: its sequence number and stamp, the true round and time
      these stand for, the reads of the handlers that found the current round fresh,
      in the order in which they found it so, and whether one of them did so between
      the two stores of the first. */
  datatype Channel = Channel(
    seqNo: u16, ticks: u32, capRound: nat, capAt: nat,
    passes: seq<Read>, reentered: bool)

  datatype Read = NotYet | ReadAt(at: nat)

  datatype Phase = Clear | WaitClear | StartSample | WaitSample

  /** Where the poll stands. `Ended` is after set_state(ST_CLEAR), before the stamps
      are compared; the stamps are read one at a time, twice each. */
  datatype MainPc =
    | Idle
    | Switch(stateTicks: u32)
    | Starting
    | SawFrame
    | SawBoth
    | Ended
    | GotFrame(frame: u32)
    | Later
    | GotSensor(sensor: u32)

  datatype State = State(
    now: nat, round: nat,
    frame: Channel, sensor: Channel, stack: seq<Handler>,
    phase: Phase, startAt: nat, pc: MainPc, pollAt: nat, disturbed: bool,
    lastStart: nat, starts: nat, recorded: seq<u32>, missed: nat)

  function Chan(s: State, l: Level): Channel { if l.L4? then s.frame else s.sensor }

  function SetChan(s: State, l: Level, c: Channel): State {
    if l.L4? then s.(frame := c) else s.(sensor := c)
  }

  function SampleSeq(s: State): u16 { s.round % 0x1_0000 }

  predicate Init(s: State) {
    && s.now == 0 && s.round == 0 && s.stack == [] && s.pc == Idle && s.phase == Clear
    && s.startAt == 0 && s.pollAt == 0 && s.lastStart == 0 && s.starts == 0
    && !s.disturbed && s.recorded == [] && s.missed == 0
    && s.frame == s.sensor == Channel(0, 0, 0, 0, [], false)
  }

  // ------------------------------------------------------------- handler steps

  function Top(s: State): Handler
    requires s.stack != []
  {
    s.stack[|s.stack| - 1]
  }

  function Below(s: State): seq<Handler>
    requires s.stack != []
  {
    s.stack[..|s.stack| - 1]
  }

  /** The processor's interrupt mask: the handler's own level until it has read the
      clock, zero afterwards and in the main program. */
  function Mask(s: State): nat {
    if s.stack == [] then 0
    else if Top(s).pc.Entered? || Top(s).pc.Checked? then (if Top(s).level.L4? then 4 else 6)
    else 0
  }

  predicate MayEnter(s: State, l: Level) { Mask(s) < if l.L4? then 4 else 6 }

  predicate Enter(s: State, s': State, l: Level) {
    && MayEnter(s, l)
    && s' == s.(stack := s.stack + [Handler(l, Entered, 0, 0)], disturbed := s.disturbed || !s.pc.Idle?)
  }

  /** The active handlers of one level that have found the round fresh, outermost first. */
  function Own(stack: seq<Handler>, l: Level): seq<Handler> {
    if stack == [] then []
    else
      var h := stack[|stack| - 1];
      Own(stack[..|stack| - 1], l) + if h.level == l && !h.pc.Entered? then [h] else []
  }

  /** The outermost of them is between its two stores. */
  predicate InWindow(own: seq<Handler>) { own != [] && own[0].pc.Stored? }

  /** The handler compares its sequence number with the round's and returns if they agree. */
  predicate Check(s: State, s': State) {
    && s.stack != [] && Top(s).pc.Entered?
    && var l := Top(s).level;
       var c := Chan(s, l);
       if c.seqNo == SampleSeq(s) then s' == s.(stack := Below(s))
       else s' == SetChan(s, l, c.(passes := c.passes + [NotYet], reentered := c.reentered || InWindow(Own(s.stack, l))))
                    .(stack := Below(s) + [Handler(l, Checked, |c.passes|, 0)])
  }

  /** clock_get_ticks: mask, latch, read and unmask are one step. Time has advanced
      since the previous read. */
  predicate Latch(s: State, s': State) {
    && s.stack != [] && Top(s).pc.Checked? && s'.now > s.now
    && var h := Top(s);
       var c := Chan(s, h.level);
       && h.id < |c.passes|
       && s' == SetChan(s, h.level, c.(passes := c.passes[h.id := ReadAt(s'.now)]))
                  .(stack := Below(s) + [h.(pc := Latched, at := s'.now)], now := s'.now)
  }

  /** The handler stores the stamp it has read. */
  predicate Store(s: State, s': State) {
    && s.stack != [] && Top(s).pc.Latched?
    && var h := Top(s);
       s' == SetChan(s, h.level, Chan(s, h.level).(ticks := Wrap32(h.at), capAt := h.at))
               .(stack := Below(s) + [h.(pc := Stored)])
  }

  /** The handler stores the round's number and returns from the interrupt. */
  predicate Finish(s: State, s': State) {
    && s.stack != [] && Top(s).pc.Stored?
    && var h := Top(s);
       s' == SetChan(s, h.level, Chan(s, h.level).(seqNo := SampleSeq(s), capRound := s.round))
               .(stack := Below(s))
  }

  // ------------------------------------------------------------- poll steps

  predicate AtMain(s: State, pc: MainPc) { s.stack == [] && s.pc == pc }

  /** The 32-bit difference of two tick counts. */
  function Elapsed(now: nat, start: nat): u32 { Wrap32(now % 0x1_0000_0000 - start % 0x1_0000_0000) }

  /** The poll reads the clock and takes the time since the phase began. */
  predicate Poll(s: State, s': State) {
    && AtMain(s, Idle) && s'.now > s.now
    && s' == s.(now := s'.now, pollAt := s'.now, disturbed := false,
                pc := Switch(Elapsed(s'.now, s.startAt)))
  }

  /** set_state: the phase and the tick count at which it begins. */
  function SetPhase(s: State, phase: Phase, t: nat): State { s.(phase := phase, startAt := t, now := t) }

  predicate Dispatch(s: State, s': State) {
    && s.stack == [] && s.pc.Switch?
    && match s.phase
       case Clear =>
         s'.now > s.now && s' == SetPhase(s, WaitClear, s'.now).(pc := Idle)
       case WaitClear =>
         if s.pc.stateTicks >= WAIT_CLEAR_TICKS
         then s'.now > s.now && s' == SetPhase(s, StartSample, s'.now).(pc := Idle)
         else s' == s.(pc := Idle)
       case StartSample =>
         && s'.now > s.now
         && s' == SetPhase(s, WaitSample, s'.now).(pc := Starting, lastStart := s'.now, starts := s.starts + 1)
       case WaitSample =>
         if s.pc.stateTicks < MIN_SAMPLE_TICKS then s' == s.(pc := Idle)
         else if s.pc.stateTicks > MAX_SAMPLE_TICKS
         then s'.now > s.now && s' == SetPhase(s, Clear, s'.now).(pc := Idle, missed := s.missed + 1)
         else s' == s.(pc := if SampleSeq(s) == s.frame.seqNo then SawFrame else Idle)
  }

  /** The sequence number goes up: a new round, in which nothing has been read yet. */
  predicate NewRound(s: State, s': State) {
    && AtMain(s, Starting)
    && s' == s.(round := s.round + 1, pc := Idle,
                frame := s.frame.(passes := [], reentered := false),
                sensor := s.sensor.(passes := [], reentered := false))
  }

  predicate TestSensor(s: State, s': State) {
    && AtMain(s, SawFrame)
    && s' == s.(pc := if SampleSeq(s) == s.sensor.seqNo then SawBoth else Idle)
  }

  predicate EndRound(s: State, s': State) {
    && AtMain(s, SawBoth) && s'.now > s.now
    && s' == SetPhase(s, Clear, s'.now).(pc := Ended)
  }

  predicate LoadFrame(s: State, s': State) {
    AtMain(s, Ended) && s' == s.(pc := GotFrame(s.frame.ticks))
  }

  /** The sample is missing unless the frame's stamp is below the sensor's. */
  predicate Compare(s: State, s': State) {
    && s.stack == [] && s.pc.GotFrame?
    && s' == if s.pc.frame >= s.sensor.ticks then s.(pc := Idle, missed := s.missed + 1) else s.(pc := Later)
  }

  predicate LoadSensor(s: State, s': State) {
    AtMain(s, Later) && s' == s.(pc := GotSensor(s.sensor.ticks))
  }

  /** The difference of the stamps goes into the history. */
  predicate Record(s: State, s': State) {
    && s.stack == [] && s.pc.GotSensor?
    && s' == s.(pc := Idle, recorded := s.recorded + [Wrap32(s.pc.sensor - s.frame.ticks)])
  }

  predicate Next(s: State, s': State) {
    || Enter(s, s', L4) || Enter(s, s', L6)
    || Check(s, s') || Latch(s, s') || Store(s, s') || Finish(s, s')
    || Poll(s, s') || Dispatch(s, s') || NewRound(s, s') || TestSensor(s, s') || EndRound(s, s')
    || LoadFrame(s, s') || Compare(s, s') || LoadSensor(s, s') || Record(s, s')
  }

  /** A run: any interleaving of any length. */
  ghost predicate Run(states: seq<State>) {
    && states != [] && Init(states[0])
    && forall i | 0 <= i < |states| - 1 :: Next(states[i], states[i + 1])
  }

  // ------------------------------------------------------------- channel invariant

  ghost predicate Times(c: Channel, own: seq<Handler>, now: nat, base: nat) {
    && c.capAt <= now
    && (forall i | 0 <= i < |c.passes| :: c.passes[i].ReadAt? ==> base < c.passes[i].at <= now)
    && (forall i | 0 <= i < |own| :: own[i].pc.Latched? || own[i].pc.Stored? ==> own[i].at <= now)
  }

  /** Handlers are numbered as they find the round fresh; the outermost is number 0. */
  ghost predicate Numbered(c: Channel, own: seq<Handler>) {
    && (own != [] ==> own[0].id == 0)
    && (forall i | 0 <= i < |own| :: own[i].id < |c.passes| && !own[i].pc.Entered?)
    && (forall i, j | 0 <= i < j < |own| :: own[i].id < own[j].id)
  }

  /** No handler is left: the stamp is of this round, and it is the first read
      unless the first handler was re-entered between its stores. */
  ghost predicate Settled(c: Channel, round: nat) {
    && c.capRound == round && c.passes != [] && c.passes[0].ReadAt?
    && if c.reentered then c.capAt > c.passes[0].at else c.capAt == c.passes[0].at
  }

  /** The first handler is still active. */
  ghost predicate Pending(c: Channel, own: seq<Handler>)
    requires own != [] && c.passes != []
  {
    var h := own[0];
    match h.pc
    case Entered => false
    case Checked => c.passes[0] == NotYet && !c.reentered
    case Latched => c.passes[0] == ReadAt(h.at) && !c.reentered
    case Stored =>
      && c.passes[0] == ReadAt(h.at)
      && (!c.reentered ==> c.capAt == h.at && |own| == 1)
      && (c.reentered ==> c.capAt > h.at || |own| > 1)
      && (forall k | 0 < k < |own| ::
            && (own[k].pc.Latched? || own[k].pc.Stored? ==> own[k].at > h.at)
            && (own[k].pc.Stored? ==> c.capAt > h.at))
  }

  ghost predicate ChannelInv(c: Channel, own: seq<Handler>, round: nat, now: nat, base: nat) {
    && c.seqNo == c.capRound % 0x1_0000 && c.ticks == c.capAt % 0x1_0000_0000 && c.capRound <= round
    && Times(c, own, now, base) && Numbered(c, own)
    && (c.passes == [] ==> own == [] && !c.reentered && (c.capRound < round || round == 0))
    && (c.passes != [] ==> round > 0 && if own == [] then Settled(c, round) else Pending(c, own))
  }

  /** Time passes. */
  lemma LaterTime(c: Channel, own: seq<Handler>, round: nat, now: nat, now': nat, base: nat, base': nat)
    requires ChannelInv(c, own, round, now, base) && now <= now' && base' <= base
    ensures ChannelInv(c, own, round, now', base')
  {
  }

  lemma AfterCheck(c: Channel, own: seq<Handler>, l: Level, round: nat, now: nat, base: nat)
    requires ChannelInv(c, own, round, now, base) && c.seqNo != round % 0x1_0000
    ensures ChannelInv(c.(passes := c.passes + [NotYet], reentered := c.reentered || InWindow(own)),
                       own + [Handler(l, Checked, |c.passes|, 0)], round, now, base)
  {
  }

  lemma AfterLatch(c: Channel, own: seq<Handler>, round: nat, now: nat, base: nat, t: nat)
    requires ChannelInv(c, own, round, now, base) && base <= now < t
    requires own != [] && own[|own| - 1].pc.Checked?
    ensures var h := own[|own| - 1];
      h.id < |c.passes| &&
      ChannelInv(c.(passes := c.passes[h.id := ReadAt(t)]), own[..|own| - 1] + [h.(pc := Latched, at := t)], round, t, base)
  {
  }

  lemma AfterStore(c: Channel, own: seq<Handler>, round: nat, now: nat, base: nat)
    requires ChannelInv(c, own, round, now, base)
    requires own != [] && own[|own| - 1].pc.Latched?
    ensures var h := own[|own| - 1];
      ChannelInv(c.(ticks := Wrap32(h.at), capAt := h.at), own[..|own| - 1] + [h.(pc := Stored)], round, now, base)
  {
  }

  lemma AfterFinish(c: Channel, own: seq<Handler>, round: nat, now: nat, base: nat)
    requires ChannelInv(c, own, round, now, base)
    requires own != [] && own[|own| - 1].pc.Stored?
    ensures ChannelInv(c.(seqNo := round % 0x1_0000, capRound := round), own[..|own| - 1], round, now, base)
  {
  }

  // ------------------------------------------------------------- state invariant

  /** The round's reads are later than its start; between the start and the new
      sequence number the old round's handlers may still run. */
  function Base(s: State): nat { if s.pc.Starting? then 0 else s.lastStart }

  ghost predicate ChannelsInv(s: State) {
    && ChannelInv(s.frame, Own(s.stack, L4), s.round, s.now, Base(s))
    && ChannelInv(s.sensor, Own(s.stack, L6), s.round, s.now, Base(s))
  }

  predicate PastFrame(pc: MainPc) { pc.SawFrame? || PastSensor(pc) }

  predicate PastSensor(pc: MainPc) { pc.SawBoth? || PastEnd(pc) }

  predicate PastEnd(pc: MainPc) { pc.Ended? || pc.GotFrame? || pc.Later? || pc.GotSensor? }

  /** A round is open from its start until its outcome is recorded. */
  function Open(s: State): nat { if s.phase.WaitSample? || PastEnd(s.pc) then 1 else 0 }

  /** Every round has exactly one outcome. */
  ghost predicate Accounts(s: State) {
    && s.starts == |s.recorded| + s.missed + Open(s)
    && s.round == s.starts - (if s.pc.Starting? then 1 else 0)
  }

  /** Where the phases stand relative to the last start, in true ticks. */
  ghost predicate Spacing(s: State) {
    && s.lastStart <= s.startAt <= s.now && s.pollAt <= s.now
    && (s.phase.WaitSample? ==> s.lastStart == s.startAt && s.starts > 0)
    && (s.starts > 0 && (s.phase.Clear? || s.phase.WaitClear?) ==> s.startAt >= s.lastStart + MIN_SAMPLE_TICKS)
    && (s.starts > 0 && s.phase.StartSample? ==> s.startAt >= s.lastStart + MIN_SAMPLE_TICKS + WAIT_CLEAR_TICKS)
  }

  /** What the poll has established on its way. */
  ghost predicate PollInv(s: State) {
    && (s.pc.Switch? ==> s.startAt <= s.pollAt && s.pc.stateTicks == Elapsed(s.pollAt, s.startAt))
    && (s.pc.Starting? || s.pc.SawFrame? || s.pc.SawBoth? ==> s.phase.WaitSample?)
    && (PastEnd(s.pc) ==> s.phase.Clear?)
    && (PastFrame(s.pc) ==>
          && s.round > 0 && s.frame.seqNo == SampleSeq(s) && Own(s.stack, L4) == []
          && s.lastStart <= s.pollAt
          && MIN_SAMPLE_TICKS <= Elapsed(s.pollAt, s.lastStart) <= MAX_SAMPLE_TICKS)
    && (PastSensor(s.pc) ==> s.sensor.seqNo == SampleSeq(s) && Own(s.stack, L6) == [])
    && (s.pc.GotFrame? ==> s.pc.frame == s.frame.ticks)
    && (s.pc.Later? ==> s.frame.ticks < s.sensor.ticks)
    && (s.pc.GotSensor? ==> s.pc.sensor == s.sensor.ticks && s.frame.ticks < s.sensor.ticks)
    && (!s.disturbed && !s.pc.Idle? ==> s.stack == [] && s.frame.capAt <= s.pollAt && s.sensor.capAt <= s.pollAt)
  }

  ghost predicate Inv(s: State) { ChannelsInv(s) && Accounts(s) && Spacing(s) && PollInv(s) }

  lemma InitInv(s: State)
    requires Init(s)
    ensures Inv(s)
  {
  }

  /** What pushing, popping and replacing the top handler do to each level's own. */
  lemma OwnPush(stack: seq<Handler>, h: Handler, l: Level)
    ensures Own(stack + [h], l) == Own(stack, l) + if h.level == l && !h.pc.Entered? then [h] else []
  {
    assert (stack + [h])[..|stack|] == stack;
  }

  lemma OwnEnter(stack: seq<Handler>, h: Handler, l: Level)
    requires h.pc.Entered?
    ensures Own(stack + [h], l) == Own(stack, l)
  {
    OwnPush(stack, h, l);
  }

  lemma OwnPop(s: State, l: Level)
    requires s.stack != []
    ensures var own := Own(s.stack, l);
      if Top(s).level == l && !Top(s).pc.Entered?
      then own != [] && own[|own| - 1] == Top(s) && Own(Below(s), l) == own[..|own| - 1]
      else Own(Below(s), l) == own
  {
  }

  lemma OwnReplace(s: State, h: Handler, l: Level)
    requires s.stack != [] && h.level == Top(s).level && !h.pc.Entered?
    ensures var own := Own(s.stack, l);
      Own(Below(s) + [h], l) ==
        if h.level != l then own
        else if Top(s).pc.Entered? then own + [h]
        else own[..|own| - 1] + [h]
    ensures h.level == l && !Top(s).pc.Entered? ==> var own := Own(s.stack, l); own != [] && own[|own| - 1] == Top(s)
  {
    OwnPop(s, l);
    OwnPush(Below(s), h, l);
  }

  lemma EnterInv(s: State, s': State, l: Level)
    requires Inv(s) && Enter(s, s', l)
    ensures Inv(s')
  {
    hide ChannelInv, Own;
    OwnEnter(s.stack, Handler(l, Entered, 0, 0), L4);
    OwnEnter(s.stack, Handler(l, Entered, 0, 0), L6);
  }

  lemma CheckInv(s: State, s': State)
    requires Inv(s) && Check(s, s')
    ensures Inv(s')
  {
    hide ChannelInv, Own, InWindow;
    var l := Top(s).level;
    var c := Chan(s, l);
    if c.seqNo == SampleSeq(s) {
      OwnPop(s, L4);
      OwnPop(s, L6);
    } else {
      var h := Handler(l, Checked, |c.passes|, 0);
      OwnReplace(s, h, L4);
      OwnReplace(s, h, L6);
      AfterCheck(c, Own(s.stack, l), l, s.round, s.now, Base(s));
    }
  }

  lemma LatchInv(s: State, s': State)
    requires Inv(s) && Latch(s, s')
    ensures Inv(s')
  {
    hide ChannelInv, Own;
    var h := Top(s);
    OwnReplace(s, h.(pc := Latched, at := s'.now), L4);
    OwnReplace(s, h.(pc := Latched, at := s'.now), L6);
    AfterLatch(Chan(s, h.level), Own(s.stack, h.level), s.round, s.now, Base(s), s'.now);
    var other := if h.level.L4? then L6 else L4;
    LaterTime(Chan(s, other), Own(s.stack, other), s.round, s.now, s'.now, Base(s), Base(s));
  }

  lemma StoreInv(s: State, s': State)
    requires Inv(s) && Store(s, s')
    ensures Inv(s')
  {
    hide ChannelInv, Own;
    var h := Top(s);
    OwnReplace(s, h.(pc := Stored), L4);
    OwnReplace(s, h.(pc := Stored), L6);
    AfterStore(Chan(s, h.level), Own(s.stack, h.level), s.round, s.now, Base(s));
  }

  lemma FinishInv(s: State, s': State)
    requires Inv(s) && Finish(s, s')
    ensures Inv(s')
  {
    hide ChannelInv, Own;
    OwnPop(s, L4);
    OwnPop(s, L6);
    AfterFinish(Chan(s, Top(s).level), Own(s.stack, Top(s).level), s.round, s.now, Base(s));
  }

  /** The 32-bit difference never exceeds the true one. */
  lemma ElapsedBound(now: nat, start: nat)
    requires start <= now
    ensures Elapsed(now, start) <= now - start
    ensures now - start < 0x1_0000_0000 ==> Elapsed(now, start) == now - start
  {
  }

  /** With no handler active the channels keep their invariant as time passes. */
  lemma MainChannels(s: State, s': State)
    requires ChannelsInv(s) && s.stack == s'.stack && s.frame == s'.frame && s.sensor == s'.sensor
    requires s.round == s'.round && s.now <= s'.now && Base(s') <= Base(s)
    ensures ChannelsInv(s')
  {
    hide ChannelInv, Own;
    LaterTime(s.frame, Own(s.stack, L4), s.round, s.now, s'.now, Base(s), Base(s'));
    LaterTime(s.sensor, Own(s.stack, L6), s.round, s.now, s'.now, Base(s), Base(s'));
  }

  lemma DispatchInv(s: State, s': State)
    requires Inv(s) && Dispatch(s, s')
    ensures Inv(s')
  {
    hide ChannelsInv, Elapsed;
    assert Own(s.stack, L4) == [] && Own(s.stack, L6) == [];
    ElapsedBound(s.pollAt, s.startAt);
    MainChannels(s, s');
  }

  lemma PollInvKept(s: State, s': State)
    requires Inv(s) && Poll(s, s')
    ensures Inv(s')
  {
    MainChannels(s, s');
  }

  lemma NewRoundInv(s: State, s': State)
    requires Inv(s) && NewRound(s, s')
    ensures Inv(s')
  {
    assert Own(s.stack, L4) == [] && Own(s.stack, L6) == [];
  }

  lemma OutcomeInv(s: State, s': State)
    requires Inv(s)
    requires TestSensor(s, s') || EndRound(s, s') || LoadFrame(s, s') || Compare(s, s') || LoadSensor(s, s') || Record(s, s')
    ensures Inv(s')
  {
    hide ChannelsInv, Elapsed;
    assert Own(s.stack, L4) == [] && Own(s.stack, L6) == [];
    ElapsedBound(s.pollAt, s.lastStart);
    MainChannels(s, s');
  }

  lemma NextInv(s: State, s': State)
    requires Inv(s) && Next(s, s')
    ensures Inv(s')
  {
    hide Inv, Enter, Check, Latch, Store, Finish, Dispatch, Poll, NewRound, TestSensor, EndRound, LoadFrame, Compare,
      LoadSensor, Record;
    if
    case Enter(s, s', L4) => EnterInv(s, s', L4);
    case Enter(s, s', L6) => EnterInv(s, s', L6);
    case Check(s, s') => CheckInv(s, s');
    case Latch(s, s') => LatchInv(s, s');
    case Store(s, s') => StoreInv(s, s');
    case Finish(s, s') => FinishInv(s, s');
    case Dispatch(s, s') => DispatchInv(s, s');
    case Poll(s, s') => PollInvKept(s, s');
    case NewRound(s, s') => NewRoundInv(s, s');
    case TestSensor(s, s') || EndRound(s, s') || LoadFrame(s, s') || Compare(s, s') || LoadSensor(s, s') || Record(s, s') =>
      OutcomeInv(s, s');
  }

  /** Every state of every run keeps the invariant. */
  lemma {:induction false} RunInv(states: seq<State>, i: nat)
    requires Run(states) && i < |states|
    ensures Inv(states[i])
  {
    hide Inv, Next;
    if i == 0 {
      InitInv(states[0]);
    } else {
      RunInv(states, i - 1);
      assert Next(states[i - 1], states[i - 1 + 1]);
      NextInv(states[i - 1], states[i]);
    }
  }
}
