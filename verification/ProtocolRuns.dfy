/** Concrete runs of the measurement protocol that show where its guarantees end: samples made
    of stamps 65536 rounds old, samples made up and lost across a wrap of the tick counter, a
    stamp that is not the first read, a sensor edge inside the poll, and a frame handler that
    is overtaken. */
module ProtocolRuns {
  import opened Words
  import opened Protocol

  function Last(states: seq<State>): State
    requires states != []
  {
    states[|states| - 1]
  }

  lemma Extend(states: seq<State>, s: State) returns (longer: seq<State>)
    requires Run(states) && Next(states[|states| - 1], s)
    ensures Run(longer) && longer == states + [s] && longer[|longer| - 1] == s
  {
    hide Next, Init;
    longer := states + [s];
    forall i | 0 <= i < |longer| - 1 ensures Next(longer[i], longer[i + 1]) {
      if i < |states| - 1 {
        assert Next(states[i], states[i + 1]);
      }
    }
  }

  const QUIET := Channel(0, 0, 0, 0, [], false)

  const RESET := State(0, 0, QUIET, QUIET, [], Clear, 0, Idle, 0, false, 0, 0, [], 0)

  /** Ready to start the first round, and the round just started. */
  const READY := State(2_000_003, 0, QUIET, QUIET, [], StartSample, 2_000_003, Idle, 2_000_002, false, 0, 0, [], 0)
  const STARTED := State(2_000_006, 1, QUIET, QUIET, [], WaitSample, 2_000_006, Idle, 2_000_005, false, 2_000_006, 1, [], 0)

  lemma ReadyRun() returns (states: seq<State>)
    ensures states != [] && Run(states) && states[|states| - 1] == READY
  {
    hide Run;
    SingleState(RESET);
    states := ClearRun([RESET]);
  }

  lemma SingleState(s: State)
    requires Init(s)
    ensures Run([s])
  {
  }

  lemma StartedRun() returns (states: seq<State>)
    ensures states != [] && Run(states) && states[|states| - 1] == STARTED
  {
    hide Run;
    states := ReadyRun();
    states := StartRun(states, 2_000_005);
  }

  // ------------------------------------------------------------- polls of any round

  function Polled(s: State, t: nat): State {
    s.(now := t, pollAt := t, disturbed := false, pc := Switch(Elapsed(t, s.startAt)))
  }

  lemma PollNext(s: State, t: nat)
    requires s.stack == [] && s.pc.Idle? && t > s.now
    ensures Next(s, Polled(s, t))
  {
    assert Poll(s, Polled(s, t));
  }

  lemma DispatchNext(s: State, n: State)
    requires Dispatch(s, n)
    ensures Next(s, n)
  {
  }

  /** A poll at time t whose dispatch takes the main program to n. */
  lemma PollRun(states: seq<State>, t: nat, n: State) returns (longer: seq<State>)
    requires states != [] && Run(states) && Last(states).stack == [] && Last(states).pc.Idle? && t > Last(states).now
    requires Dispatch(Polled(Last(states), t), n)
    ensures longer != [] && Run(longer) && Last(longer) == n
  {
    hide Run, Next, Dispatch, Polled;
    PollNext(Last(states), t);
    longer := Extend(states, Polled(Last(states), t));
    DispatchNext(Polled(Last(states), t), n);
    longer := Extend(longer, n);
  }

  predicate Waiting(s: State, phase: Phase) { s.stack == [] && s.pc.Idle? && !s.disturbed && s.phase == phase && s.startAt == s.now }

  /** The outcome and channel fields, which the polls between two rounds leave alone. */
  predicate SameRecord(s: State, n: State) {
    n.round == s.round && n.frame == s.frame && n.sensor == s.sensor && n.recorded == s.recorded
  }

  function Begun(s: State, t: nat): State {
    s.(now := t + 1, pollAt := t, disturbed := false, phase := WaitSample, startAt := t + 1, lastStart := t + 1,
       starts := s.starts + 1, pc := Starting)
  }

  function NextRound(s: State): State {
    s.(round := s.round + 1, pc := Idle, frame := s.frame.(passes := [], reentered := false),
       sensor := s.sensor.(passes := [], reentered := false))
  }

  /** A round started by a poll at time t. */
  lemma StartRun(states: seq<State>, t: nat) returns (longer: seq<State>)
    requires states != [] && Run(states) && Waiting(Last(states), StartSample) && t > Last(states).now
    ensures longer != [] && Run(longer) && Last(longer) == NextRound(Begun(Last(states), t)) && Waiting(Last(longer), WaitSample)
  {
    hide Run;
    var s := Last(states);
    assert Dispatch(Polled(s, t), Begun(s, t));
    longer := PollRun(states, t, Begun(s, t));
    assert NewRound(Begun(s, t), NextRound(Begun(s, t)));
    longer := Extend(longer, NextRound(Begun(s, t)));
  }

  function Phased(s: State, t: nat, phase: Phase): State {
    s.(now := t + 1, pollAt := t, disturbed := false, phase := phase, startAt := t + 1)
  }

  /** A poll after more than 500 ms gives the round up. */
  lemma GiveUpRun(states: seq<State>) returns (longer: seq<State>)
    requires states != [] && Run(states) && Last(states).stack == [] && Last(states).pc.Idle? && Last(states).phase.WaitSample?
    requires Last(states).startAt <= Last(states).now <= Last(states).startAt + MAX_SAMPLE_TICKS
    ensures longer != [] && Run(longer) && Waiting(Last(longer), Clear) && SameRecord(Last(states), Last(longer))
  {
    hide Run;
    var s := Last(states);
    var t := s.startAt + MAX_SAMPLE_TICKS + 1;
    ElapsedBound(t, s.startAt);
    hide Elapsed;
    var n := Phased(s, t, Clear).(missed := s.missed + 1);
    assert Dispatch(Polled(s, t), n);
    longer := PollRun(states, t, n);
  }

  /** From the cleared state two polls lead to the next start. */
  lemma ClearRun(states: seq<State>) returns (longer: seq<State>)
    requires states != [] && Run(states) && Waiting(Last(states), Clear)
    ensures longer != [] && Run(longer) && Waiting(Last(longer), StartSample) && SameRecord(Last(states), Last(longer))
    ensures Last(longer) == Phased(Last(states), Last(states).now + WAIT_CLEAR_TICKS + 2, StartSample)
  {
    hide Run;
    var s := Last(states);
    var c := Phased(s, s.now + 1, WaitClear);
    assert Dispatch(Polled(s, s.now + 1), c);
    longer := PollRun(states, s.now + 1, c);
    var t := c.startAt + WAIT_CLEAR_TICKS;
    ElapsedBound(t, c.startAt);
    hide Elapsed;
    assert Dispatch(Polled(c, t), Phased(c, t, StartSample));
    longer := PollRun(longer, t, Phased(c, t, StartSample));
  }

  /** What a channel still holds after rounds in which no interrupt came. */
  predicate SameStamp(c: Channel, d: Channel) {
    d.seqNo == c.seqNo && d.ticks == c.ticks && d.capRound == c.capRound && d.capAt == c.capAt
  }

  /** k rounds without any interrupt. */
  lemma {:induction false} MissedRounds(states: seq<State>, k: nat) returns (longer: seq<State>)
    requires states != [] && Run(states) && Waiting(Last(states), StartSample)
    ensures longer != [] && Run(longer) && Waiting(Last(longer), StartSample) && Last(longer).round == Last(states).round + k
    ensures SameStamp(Last(states).frame, Last(longer).frame) && SameStamp(Last(states).sensor, Last(longer).sensor)
    ensures Last(longer).recorded == Last(states).recorded
    decreases k
  {
    hide Run;
    longer := states;
    if k > 0 {
      longer := StartRun(longer, Last(longer).now + 1);
      longer := GiveUpRun(longer);
      longer := ClearRun(longer);
      longer := MissedRounds(longer, k - 1);
    }
  }

  // ------------------------------------------------------------- handlers of any round

  /** The state after a handler that found the round fresh and read the clock at time t. */
  function Captured(s: State, l: Level, t: nat): State {
    var c := Chan(s, l);
    SetChan(s, l, Channel(SampleSeq(s), Wrap32(t), s.round, t, c.passes + [ReadAt(t)], c.reentered))
      .(now := t, disturbed := s.disturbed || !s.pc.Idle?)
  }

  /** One handler, run through without interruption on top of any others. */
  lemma HandlerRun(states: seq<State>, l: Level, t: nat) returns (longer: seq<State>)
    requires states != [] && Run(states) && MayEnter(Last(states), l) && t > Last(states).now
    requires Chan(Last(states), l).seqNo != SampleSeq(Last(states)) && !InWindow(Own(Last(states).stack, l))
    ensures longer != [] && Run(longer) && Last(longer) == Captured(Last(states), l, t)
  {
    hide Run, Next, MayEnter, InWindow, Own;
    var s := Last(states);
    var c, id := Chan(s, l), |Chan(s, l).passes|;
    var e := s.(stack := s.stack + [Handler(l, Entered, 0, 0)], disturbed := s.disturbed || !s.pc.Idle?);
    EnterNext(s, e, l);
    longer := Extend(states, e);
    var d := SetChan(e, l, c.(passes := c.passes + [NotYet])).(stack := s.stack + [Handler(l, Checked, id, 0)]);
    CheckNext(e, d, s.stack, l);
    longer := Extend(longer, d);
    var r := SetChan(d, l, c.(passes := c.passes + [ReadAt(t)])).(stack := s.stack + [Handler(l, Latched, id, t)], now := t);
    LatchNext(d, r, s.stack, c.passes, l, t);
    longer := Extend(longer, r);
    var w := SetChan(r, l, Chan(r, l).(ticks := Wrap32(t), capAt := t)).(stack := s.stack + [Handler(l, Stored, id, t)]);
    StoreNext(r, w, s.stack, Handler(l, Latched, id, t));
    longer := Extend(longer, w);
    FinishNext(w, Captured(s, l, t), s.stack, Handler(l, Stored, id, t));
    longer := Extend(longer, Captured(s, l, t));
  }

  lemma EnterNext(s: State, n: State, l: Level)
    requires MayEnter(s, l)
    requires n == s.(stack := s.stack + [Handler(l, Entered, 0, 0)], disturbed := s.disturbed || !s.pc.Idle?)
    ensures Next(s, n)
  {
    assert Enter(s, n, l);
  }

  /** The top of a stack and what is below it. */
  lemma TopOf(s: State, stack: seq<Handler>, h: Handler)
    requires s.stack == stack + [h]
    ensures Top(s) == h && Below(s) == stack
  {
  }

  lemma CheckNext(s: State, n: State, stack: seq<Handler>, l: Level)
    requires s.stack == stack + [Handler(l, Entered, 0, 0)] && Chan(s, l).seqNo != SampleSeq(s)
    requires !InWindow(Own(stack, l))
    requires var c := Chan(s, l);
      n == SetChan(s, l, c.(passes := c.passes + [NotYet])).(stack := stack + [Handler(l, Checked, |c.passes|, 0)])
    ensures Next(s, n)
  {
    hide Next, SetChan, SampleSeq, Chan, InWindow;
    TopOf(s, stack, Handler(l, Entered, 0, 0));
    OwnEnter(stack, Handler(l, Entered, 0, 0), l);
    hide Own, Top, Below;
    assert Check(s, n);
    CheckIsNext(s, n);
  }

  lemma CheckIsNext(s: State, n: State)
    requires Check(s, n)
    ensures Next(s, n)
  {
    hide Check;
  }

  lemma LatchNext(s: State, n: State, stack: seq<Handler>, p: seq<Read>, l: Level, t: nat)
    requires s.stack == stack + [Handler(l, Checked, |p|, 0)] && Chan(s, l).passes == p + [NotYet] && t > s.now
    requires n == SetChan(s, l, Chan(s, l).(passes := p + [ReadAt(t)])).(stack := stack + [Handler(l, Latched, |p|, t)], now := t)
    ensures Next(s, n)
  {
    TopOf(s, stack, Handler(l, Checked, |p|, 0));
    assert (p + [NotYet])[|p| := ReadAt(t)] == p + [ReadAt(t)];
    hide Top, Below;
    assert Latch(s, n);
  }

  lemma StoreNext(s: State, n: State, stack: seq<Handler>, h: Handler)
    requires s.stack == stack + [h] && h.pc.Latched?
    requires n == SetChan(s, h.level, Chan(s, h.level).(ticks := Wrap32(h.at), capAt := h.at)).(stack := stack + [h.(pc := Stored)])
    ensures Next(s, n)
  {
    TopOf(s, stack, h);
    hide Top, Below;
    assert Store(s, n);
  }

  lemma FinishNext(s: State, n: State, stack: seq<Handler>, h: Handler)
    requires s.stack == stack + [h] && h.pc.Stored?
    requires n == SetChan(s, h.level, Chan(s, h.level).(seqNo := SampleSeq(s), capRound := s.round)).(stack := stack)
    ensures Next(s, n)
  {
    TopOf(s, stack, h);
    hide Top, Below;
    assert Finish(s, n);
  }

  // ------------------------------------------------------------- closing a round

  /** A round is closed by a poll that read the clock 200 ms to 500 ms into it and finds
      both sequence numbers current. */
  predicate Closable(s: State) {
    && s.stack == [] && s.pc.Switch? && s.phase.WaitSample?
    && MIN_SAMPLE_TICKS <= s.pc.stateTicks <= MAX_SAMPLE_TICKS
    && s.frame.seqNo == s.sensor.seqNo == SampleSeq(s)
  }

  function Compared(s: State): State {
    s.(now := s.now + 1, phase := Clear, startAt := s.now + 1, pc := GotFrame(s.frame.ticks))
  }

  lemma CloseRun(states: seq<State>) returns (longer: seq<State>)
    requires states != [] && Run(states) && Closable(Last(states))
    ensures longer != [] && Run(longer) && Last(longer) == Compared(Last(states))
  {
    hide Run, Next;
    var s := Last(states);
    var a := s.(pc := SawFrame);
    assert Next(s, a) by { DispatchNext(s, a); }
    longer := Extend(states, a);
    var b := s.(pc := SawBoth);
    assert Next(a, b) by { ClosingNext(a, b); }
    longer := Extend(longer, b);
    var d := s.(now := s.now + 1, phase := Clear, startAt := s.now + 1, pc := Ended);
    assert Next(b, d) by { ClosingNext(b, d); }
    longer := Extend(longer, d);
    assert Next(d, Compared(s)) by { ClosingNext(d, Compared(s)); }
    longer := Extend(longer, Compared(s));
  }

  /** With the sensor's stamp above the frame's such a poll records their difference. */
  lemma RecordRun(states: seq<State>) returns (longer: seq<State>)
    requires states != [] && Run(states) && Closable(Last(states))
    requires Last(states).frame.ticks < Last(states).sensor.ticks
    ensures |longer| >= 2 && Run(longer) && Record(longer[|longer| - 2], Last(longer))
    ensures var s, n := Last(states), Last(longer);
      && n.recorded == s.recorded + [s.sensor.ticks - s.frame.ticks]
      && SameRecord(s, longer[|longer| - 2])
  {
    hide Run, Next;
    var s := Last(states);
    longer := CloseRun(states);
    var f := Compared(s).(pc := Later);
    assert Next(Compared(s), f) by { ClosingNext(Compared(s), f); }
    longer := Extend(longer, f);
    var g := f.(pc := GotSensor(s.sensor.ticks));
    assert Next(f, g) by { ClosingNext(f, g); }
    longer := Extend(longer, g);
    var n := f.(pc := Idle, recorded := s.recorded + [s.sensor.ticks - s.frame.ticks]);
    assert Record(g, n);
    assert Next(g, n) by { ClosingNext(g, n); }
    longer := Extend(longer, n);
  }

  /** Otherwise it counts the sample as missing. */
  lemma MissingRun(states: seq<State>) returns (longer: seq<State>)
    requires states != [] && Run(states) && Closable(Last(states))
    requires Last(states).frame.ticks >= Last(states).sensor.ticks
    ensures |longer| >= 2 && Run(longer) && Compare(longer[|longer| - 2], Last(longer))
    ensures Last(longer).missed == Last(states).missed + 1 && SameRecord(Last(states), longer[|longer| - 2])
  {
    hide Run, Next;
    var s := Last(states);
    longer := CloseRun(states);
    var n := Compared(s).(pc := Idle, missed := s.missed + 1);
    assert Next(Compared(s), n) by { ClosingNext(Compared(s), n); }
    longer := Extend(longer, n);
  }

  /** A poll that begins t ticks into the round. */
  lemma PollIntoRound(states: seq<State>, t: nat) returns (longer: seq<State>)
    requires states != [] && Run(states) && Last(states).stack == [] && Last(states).pc.Idle?
    requires Last(states).startAt <= Last(states).now < Last(states).startAt + t < Last(states).startAt + 0x1_0000_0000
    ensures longer != [] && Run(longer)
    ensures var s := Last(states);
      Last(longer) == s.(now := s.startAt + t, pollAt := s.startAt + t, disturbed := false, pc := Switch(t))
  {
    hide Run, Next;
    var s := Last(states);
    PollNext(s, s.startAt + t);
    ElapsedBound(s.startAt + t, s.startAt);
    longer := Extend(states, Polled(s, s.startAt + t));
  }

  lemma ClosingNext(s: State, n: State)
    requires TestSensor(s, n) || EndRound(s, n) || LoadFrame(s, n) || Compare(s, n) || LoadSensor(s, n) || Record(s, n)
    ensures Next(s, n)
  {
  }

  /** Both interrupts are captured in round 1, none in the next 65536 rounds: the poll of
      round 65537 finds the sequence numbers current and records a sample although no
      handler has run in that round. */
  lemma StaleRun() returns (states: seq<State>)
    ensures Run(states) && |states| >= 2 && Record(states[|states| - 2], states[|states| - 1])
    ensures var s := states[|states| - 2];
      && s.round == 65537 && s.frame.capRound == s.sensor.capRound == 1
      && s.frame.passes == s.sensor.passes == []
      && states[|states| - 1].recorded == [500_000]
  {
    hide Run;
    states := StartedRun();
    states := HandlerRun(states, L4, 2_500_000);
    states := HandlerRun(states, L6, 3_000_000);
    states := GiveUpRun(states);
    states := ClearRun(states);
    states := MissedRounds(states, 65535);
    states := StartRun(states, Last(states).now + 1);
    states := PollIntoRound(states, MIN_SAMPLE_TICKS);
    states := RecordRun(states);
  }

  /** The sensor fires just before the tick counter wraps and the frame begins just after:
      instead of a missing sample the round records more than 429 seconds. */
  lemma WrapRun() returns (states: seq<State>)
    ensures Run(states) && |states| >= 2 && Record(states[|states| - 2], states[|states| - 1])
    ensures var s := states[|states| - 2];
      && s.frame.capRound == s.sensor.capRound == s.round && s.sensor.capAt < s.frame.capAt
      && states[|states| - 1].recorded == [0xffff_fff0]
  {
    hide Run;
    states := ReadyRun();
    states := StartRun(states, 0xffff_ff00);
    states := HandlerRun(states, L6, 0xffff_fff8);
    states := HandlerRun(states, L4, 0x1_0000_0008);
    states := PollIntoRound(states, MIN_SAMPLE_TICKS);
    states := RecordRun(states);
  }

  /** The frame begins just before the tick counter wraps and the sensor fires just after: a
      real sample of sixteen ticks counts as missing. */
  lemma LostRun() returns (states: seq<State>)
    ensures Run(states) && |states| >= 2 && Compare(states[|states| - 2], states[|states| - 1])
    ensures var s := states[|states| - 2];
      && s.frame.capRound == s.sensor.capRound == s.round && s.sensor.capAt == s.frame.capAt + 16
      && states[|states| - 1].missed == 1 && states[|states| - 1].recorded == []
  {
    hide Run;
    states := ReadyRun();
    states := StartRun(states, 0xffff_ff00);
    states := HandlerRun(states, L4, 0xffff_fff8);
    states := HandlerRun(states, L6, 0x1_0000_0008);
    states := PollIntoRound(states, MIN_SAMPLE_TICKS);
    states := MissingRun(states);
  }

  // ------------------------------------------------------------- re-entry

  /** Round 1 with the frame captured. */
  const FRAMED := STARTED.(now := 2_500_000, frame := Channel(1, 2_500_000, 1, 2_500_000, [ReadAt(2_500_000)], false))

  lemma FramedRun() returns (states: seq<State>)
    ensures states != [] && Run(states) && states[|states| - 1] == FRAMED
  {
    hide Run;
    states := StartedRun();
    states := HandlerRun(states, L4, 2_500_000);
  }

  /** The first sensor handler has stored its stamp but not yet the sequence number. */
  const OUTER := Handler(L6, Stored, 0, 3_000_000)
  const HALF_STORED := FRAMED.(now := 3_000_000, stack := [OUTER],
    sensor := Channel(0, 3_000_000, 0, 3_000_000, [ReadAt(3_000_000)], false))

  const CHECKED := FRAMED.(stack := [Handler(L6, Checked, 0, 0)], sensor := QUIET.(passes := [NotYet]))

  const ENTERED := FRAMED.(stack := [Handler(L6, Entered, 0, 0)])

  lemma EnteredNext()
    ensures Next(FRAMED, ENTERED)
  {
    assert Enter(FRAMED, ENTERED, L6);
  }

  lemma CheckedNext()
    ensures Next(ENTERED, CHECKED)
  {
    OwnOfEntered();
    hide Own;
    assert Below(ENTERED) == [];
    assert Check(ENTERED, CHECKED);
  }

  lemma CheckedRun() returns (states: seq<State>)
    ensures Run(states) && states[|states| - 1] == CHECKED
  {
    hide Run, Next;
    states := FramedRun();
    EnteredNext();
    states := Extend(states, ENTERED);
    CheckedNext();
    states := Extend(states, CHECKED);
  }

  lemma OwnOfEntered()
    ensures Own([Handler(L6, Entered, 0, 0)], L6) == []
    ensures Own([OUTER, Handler(L6, Entered, 0, 0)], L6) == [OUTER]
  {
    var e := Handler(L6, Entered, 0, 0);
    OwnEnter([], e, L6);
    assert [] + [e] == [e];
    OwnPush([], OUTER, L6);
    assert [] + [OUTER] == [OUTER];
    OwnEnter([OUTER], e, L6);
    assert [OUTER, e] == [OUTER] + [e];
  }

  lemma HalfStoredRun() returns (states: seq<State>)
    ensures Run(states) && states[|states| - 1] == HALF_STORED
  {
    hide Run, Own, Dispatch, Poll;
    states := CheckedRun();
    var s := CHECKED;
    s := s.(stack := [Handler(L6, Latched, 0, 3_000_000)], now := 3_000_000,
            sensor := s.sensor.(passes := [ReadAt(3_000_000)]));
    states := Extend(states, s);
    s := s.(stack := [OUTER], sensor := s.sensor.(ticks := 3_000_000, capAt := 3_000_000));
    states := Extend(states, s);
  }

  /** A second edge arrives now, finds the round still fresh and reads the clock. */
  const NESTED := HALF_STORED.(now := 3_000_100, stack := [OUTER, Handler(L6, Latched, 1, 3_000_100)],
    sensor := Channel(0, 3_000_000, 0, 3_000_000, [ReadAt(3_000_000), ReadAt(3_000_100)], true))

  lemma NestedRun() returns (states: seq<State>)
    ensures Run(states) && states[|states| - 1] == NESTED
  {
    hide Run, Own, Dispatch, Poll;
    states := HalfStoredRun();
    var s := HALF_STORED;
    s := s.(stack := [OUTER, Handler(L6, Entered, 0, 0)]);
    states := Extend(states, s);
    OwnOfEntered();
    s := s.(stack := [OUTER, Handler(L6, Checked, 1, 0)],
            sensor := s.sensor.(passes := [ReadAt(3_000_000), NotYet], reentered := true));
    states := Extend(states, s);
    s := NESTED;
    states := Extend(states, s);
  }

  /** The nested handler finishes, then the outer one. */
  const CLOSED := FRAMED.(now := 3_000_100,
    sensor := Channel(1, 3_000_100, 1, 3_000_100, [ReadAt(3_000_000), ReadAt(3_000_100)], true))

  lemma ClosedRun() returns (states: seq<State>)
    ensures states != [] && Run(states) && states[|states| - 1] == CLOSED
  {
    hide Run, Own, Dispatch, Poll;
    states := NestedRun();
    var s := NESTED;
    s := s.(stack := [OUTER, Handler(L6, Stored, 1, 3_000_100)], sensor := s.sensor.(ticks := 3_000_100, capAt := 3_000_100));
    states := Extend(states, s);
    s := s.(stack := [OUTER], sensor := s.sensor.(seqNo := 1, capRound := 1));
    states := Extend(states, s);
    s := s.(stack := []);
    states := Extend(states, s);
  }

  /** A second sensor edge between the two stores of the first handler: the recorded
      sample is measured to the second edge. */
  lemma ReentryRun() returns (states: seq<State>)
    ensures Run(states) && |states| >= 2 && Record(states[|states| - 2], states[|states| - 1])
    ensures var s := states[|states| - 2];
      && s.frame.passes == [ReadAt(2_500_000)] && s.sensor.passes == [ReadAt(3_000_000), ReadAt(3_000_100)]
      && states[|states| - 1].recorded == [500_100]
  {
    hide Run;
    states := ClosedRun();
    states := PollIntoRound(states, MIN_SAMPLE_TICKS);
    states := RecordRun(states);
  }

  // ------------------------------------------------------------- a late sensor edge

  /** A sensor edge between the poll's own clock read and its sequence test: the round
      records more than 500 ms. */
  lemma LateRun() returns (states: seq<State>)
    ensures Run(states) && |states| >= 2 && Record(states[|states| - 2], states[|states| - 1])
    ensures states[|states| - 1].recorded == [MAX_SAMPLE_TICKS + 100_000]
  {
    hide Run;
    states := FramedRun();
    states := PollIntoRound(states, MAX_SAMPLE_TICKS);
    states := HandlerRun(states, L6, 7_600_000);
    states := RecordRun(states);
  }

  // ------------------------------------------------------------- overtaking

  const FIRST_FRAME := Handler(L4, Checked, 0, 0)
  const SENSOR_IN_FRAME := Handler(L6, Latched, 0, 2_500_000)

  /** The first frame handler has found the round fresh; a sensor handler interrupts it
      before its clock read and reads the clock. */
  const INTERRUPTED := STARTED.(now := 2_500_000, stack := [FIRST_FRAME, SENSOR_IN_FRAME],
    frame := QUIET.(passes := [NotYet]), sensor := QUIET.(passes := [ReadAt(2_500_000)]))

  lemma OwnOfInterrupted()
    ensures Own([], L4) == [] && Own([FIRST_FRAME], L6) == []
    ensures Own([FIRST_FRAME, SENSOR_IN_FRAME], L4) == [FIRST_FRAME]
  {
    OwnPush([], FIRST_FRAME, L4);
    OwnPush([], FIRST_FRAME, L6);
    assert [] + [FIRST_FRAME] == [FIRST_FRAME];
    OwnPush([FIRST_FRAME], SENSOR_IN_FRAME, L4);
    assert [FIRST_FRAME] + [SENSOR_IN_FRAME] == [FIRST_FRAME, SENSOR_IN_FRAME];
  }

  lemma InterruptedRun() returns (states: seq<State>)
    ensures states != [] && Run(states) && Last(states) == INTERRUPTED
  {
    hide Run, Next, Own;
    OwnOfInterrupted();
    states := StartedRun();
    var s := STARTED.(stack := [] + [Handler(L4, Entered, 0, 0)]);
    EnterNext(STARTED, s, L4);
    states := Extend(states, s);
    var n := s.(stack := [] + [FIRST_FRAME], frame := QUIET.(passes := [] + [NotYet]));
    CheckNext(s, n, [], L4);
    states := Extend(states, n);
    s := n.(stack := [FIRST_FRAME] + [Handler(L6, Entered, 0, 0)]);
    EnterNext(n, s, L6);
    states := Extend(states, s);
    n := s.(stack := [FIRST_FRAME] + [Handler(L6, Checked, 0, 0)], sensor := QUIET.(passes := [] + [NotYet]));
    CheckNext(s, n, [FIRST_FRAME], L6);
    states := Extend(states, n);
    LatchNext(n, INTERRUPTED, [FIRST_FRAME], [], L6, 2_500_000);
    states := Extend(states, INTERRUPTED);
  }

  /** A frame handler nested in the sensor handler reads the clock and finishes, then the
      sensor handler does; the first frame handler goes on. */
  const RESUMED := STARTED.(now := 2_600_000, stack := [FIRST_FRAME],
    frame := Channel(1, 2_600_000, 1, 2_600_000, [NotYet, ReadAt(2_600_000)], false),
    sensor := Channel(1, 2_500_000, 1, 2_500_000, [ReadAt(2_500_000)], false))

  lemma ResumedRun() returns (states: seq<State>)
    ensures states != [] && Run(states) && Last(states) == RESUMED
  {
    hide Run, Next, Own;
    OwnOfInterrupted();
    states := InterruptedRun();
    states := HandlerRun(states, L4, 2_600_000);
    var s := Last(states);
    assert s == RESUMED.(stack := [FIRST_FRAME] + [SENSOR_IN_FRAME], sensor := QUIET.(passes := [ReadAt(2_500_000)]));
    var n := s.(stack := [FIRST_FRAME] + [SENSOR_IN_FRAME.(pc := Stored)],
                sensor := s.sensor.(ticks := 2_500_000, capAt := 2_500_000));
    StoreNext(s, n, [FIRST_FRAME], SENSOR_IN_FRAME);
    states := Extend(states, n);
    FinishNext(n, RESUMED, [FIRST_FRAME], SENSOR_IN_FRAME.(pc := Stored));
    states := Extend(states, RESUMED);
  }

  const OVERTAKEN := STARTED.(now := 2_700_000,
    frame := Channel(1, 2_700_000, 1, 2_700_000, [ReadAt(2_700_000), ReadAt(2_600_000)], false),
    sensor := RESUMED.sensor)

  lemma OvertakenClosedRun() returns (states: seq<State>)
    ensures states != [] && Run(states) && Last(states) == OVERTAKEN
  {
    hide Run, Next, Own;
    states := ResumedRun();
    var h := Handler(L4, Latched, 0, 2_700_000);
    var s := RESUMED.(now := 2_700_000, stack := [] + [h], frame := RESUMED.frame.(passes := [ReadAt(2_700_000), ReadAt(2_600_000)]));
    OuterLatch(s);
    states := Extend(states, s);
    var n := s.(stack := [] + [h.(pc := Stored)], frame := s.frame.(ticks := 2_700_000, capAt := 2_700_000));
    StoreNext(s, n, [], h);
    states := Extend(states, n);
    FinishNext(n, OVERTAKEN, [], h.(pc := Stored));
    states := Extend(states, OVERTAKEN);
  }

  lemma OuterLatch(s: State)
    requires s == RESUMED.(now := 2_700_000, stack := [] + [Handler(L4, Latched, 0, 2_700_000)],
                           frame := RESUMED.frame.(passes := [ReadAt(2_700_000), ReadAt(2_600_000)]))
    ensures Next(RESUMED, s)
  {
    TopOf(RESUMED, [], FIRST_FRAME);
    assert RESUMED.frame.passes[0 := ReadAt(2_700_000)] == s.frame.passes;
    assert Latch(RESUMED, s);
  }

  /** The first frame handler is overtaken by one nested inside a sensor handler: its stamp,
      not re-entered, is later than another frame read. The round counts as missing. */
  lemma OvertakenRun() returns (states: seq<State>)
    ensures Run(states) && |states| >= 2 && Compare(states[|states| - 2], states[|states| - 1])
    ensures var s := states[|states| - 2];
      && s.frame.passes == [ReadAt(2_700_000), ReadAt(2_600_000)] && s.frame.capAt == 2_700_000 && !s.frame.reentered
      && s.sensor.passes == [ReadAt(2_500_000)]
      && states[|states| - 1].missed == 1 && states[|states| - 1].recorded == []
  {
    hide Run;
    states := OvertakenClosedRun();
    states := PollIntoRound(states, MIN_SAMPLE_TICKS);
    states := MissingRun(states);
  }
}
