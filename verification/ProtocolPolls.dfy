/** What a poll does, in every interleaving with interrupt handlers: its outcome by phase and
    elapsed time, the limits within which a phase may last, and that nothing gets stuck. The
    limits are written out: 2,000,000 ticks are 200 ms, 5,000,000 are 500 ms. */
module ProtocolPolls {
  import opened Words
  import opened Protocol

  // ------------------------------------------------------------- how long a phase lasts

  /** Between two polls: a round that is still open was last polled no more than 500 ms after
      it began, and the screen that is still being cleared less than 200 ms. */
  ghost predicate Limits(s: State) {
    && (s.pc.Idle? && s.phase.WaitSample? && s.pollAt > s.lastStart ==> Elapsed(s.pollAt, s.lastStart) <= 5_000_000)
    && (s.pc.Idle? && s.phase.WaitClear? && s.pollAt > s.startAt ==> Elapsed(s.pollAt, s.startAt) < 2_000_000)
    && (s.pc.Idle? && (s.phase.Clear? || s.phase.StartSample?) ==> s.pollAt <= s.startAt)
    && (s.pc.Starting? ==> s.pollAt <= s.lastStart)
    && (PastEnd(s.pc) ==> s.pollAt <= s.startAt)
  }

  predicate HandlerStepped(s: State, s': State) {
    Enter(s, s', L4) || Enter(s, s', L6) || Check(s, s') || Latch(s, s') || Store(s, s') || Finish(s, s')
  }

  predicate MainStepped(s: State, s': State) {
    || Dispatch(s, s') || NewRound(s, s') || TestSensor(s, s') || EndRound(s, s') || LoadFrame(s, s') || Compare(s, s')
    || LoadSensor(s, s') || Record(s, s')
  }

  lemma StepKinds(s: State, s': State)
    requires Next(s, s')
    ensures HandlerStepped(s, s') || Poll(s, s') || MainStepped(s, s')
  {
    hide Enter, Check, Latch, Store, Finish, Poll, Dispatch, NewRound, TestSensor, EndRound, LoadFrame, Compare, LoadSensor, Record;
  }

  /** A handler leaves the main program's own state alone. */
  lemma HandlerLeaves(s: State, s': State)
    requires HandlerStepped(s, s')
    ensures s'.pc == s.pc && s'.phase == s.phase && s'.startAt == s.startAt && s'.pollAt == s.pollAt && s'.lastStart == s.lastStart
    ensures s'.starts == s.starts && s'.round == s.round && s'.recorded == s.recorded && s'.missed == s.missed
    ensures s.frame.seqNo == SampleSeq(s) ==> s'.frame.seqNo == SampleSeq(s)
    ensures s.sensor.seqNo == SampleSeq(s) ==> s'.sensor.seqNo == SampleSeq(s)
  {
    hide Own, InWindow;
  }

  lemma LimitsMain(s: State, s': State)
    requires Spacing(s) && PollInv(s) && Limits(s) && (Poll(s, s') || MainStepped(s, s'))
    ensures Limits(s')
  {
    hide Own, Elapsed;
  }

  lemma LimitsStep(s: State, s': State)
    requires Inv(s) && Limits(s) && Next(s, s')
    ensures Limits(s')
  {
    StepKinds(s, s');
    hide HandlerStepped, MainStepped, Poll, Spacing, PollInv, ChannelsInv, Accounts, Elapsed;
    if HandlerStepped(s, s') {
      HandlerLeaves(s, s');
    } else {
      hide Limits;
      LimitsMain(s, s');
    }
  }

  /** In every run no round stays open beyond the first poll later than 500 ms, and no
      clearing beyond the first poll at 200 ms. */
  lemma {:induction false} LimitsRun(states: seq<State>, i: nat)
    requires Run(states) && i < |states|
    ensures Limits(states[i])
  {
    hide Inv, Next, Limits;
    if i == 0 {
      LimitsInit(states[0]);
    } else {
      LimitsRun(states, i - 1);
      RunInv(states, i - 1);
      assert Next(states[i - 1], states[i - 1 + 1]);
      LimitsStep(states[i - 1], states[i]);
    }
  }

  lemma LimitsInit(s: State)
    requires Init(s)
    ensures Limits(s)
  {
  }

  // ------------------------------------------------------------- the outcome of a poll

  /** Nothing has been counted, recorded or started. */
  predicate SameCounts(s: State, n: State) {
    n.recorded == s.recorded && n.missed == s.missed && n.starts == s.starts && n.round == s.round
  }

  predicate Untouched(s: State, n: State) { SameCounts(s, n) && n.phase == s.phase && n.startAt == s.startAt }

  /** One sample more, recorded or missing, and the screen is cleared next. */
  predicate Closed(s: State, n: State) {
    && n.phase.Clear? && n.starts == s.starts && n.round == s.round
    && ((n.missed == s.missed + 1 && n.recorded == s.recorded)
        || (n.missed == s.missed && |n.recorded| == |s.recorded| + 1 && n.recorded[..|s.recorded|] == s.recorded))
  }

  predicate BothCurrent(s: State) { s.frame.seqNo == SampleSeq(s) && s.sensor.seqNo == SampleSeq(s) }

  /** What a poll that read `e` ticks since its phase began in state s has done when it is over
      in state n. */
  predicate Outcome(s: State, e: nat, n: State) {
    match s.phase
    case Clear => SameCounts(s, n) && n.phase.WaitClear?
    case WaitClear => if e >= 2_000_000 then SameCounts(s, n) && n.phase.StartSample? else Untouched(s, n)
    case StartSample =>
      && n.recorded == s.recorded && n.missed == s.missed && n.phase.WaitSample?
      && n.starts == s.starts + 1 && n.round == s.round + 1
    case WaitSample =>
      if e < 2_000_000 then Untouched(s, n)
      else if e > 5_000_000 then Closed(s, n) && n.missed == s.missed + 1
      else if BothCurrent(s) then Closed(s, n)
      else Untouched(s, n) || Closed(s, n)
  }

  /** A number that is current stays so for the rest of the poll. */
  predicate StaysCurrent(s: State, n: State) {
    n.round == s.round ==>
      && (s.frame.seqNo == SampleSeq(s) ==> n.frame.seqNo == SampleSeq(n))
      && (s.sensor.seqNo == SampleSeq(s) ==> n.sensor.seqNo == SampleSeq(n))
  }

  predicate InLimits(s: State, e: nat) { s.phase.WaitSample? && 2_000_000 <= e <= 5_000_000 }

  /** Where a poll that began its dispatch in s can stand. */
  predicate Reached(s: State, e: nat, n: State) {
    && StaysCurrent(s, n)
    && match n.pc
       case Idle => Outcome(s, e, n)
       case Switch(t) => t == e && Untouched(s, n)
       case Starting =>
         && s.phase.StartSample? && n.phase.WaitSample? && n.starts == s.starts + 1
         && n.round == s.round && n.recorded == s.recorded && n.missed == s.missed
       case SawFrame => InLimits(s, e) && Untouched(s, n)
       case SawBoth => InLimits(s, e) && Untouched(s, n)
       case _ => InLimits(s, e) && SameCounts(s, n) && n.phase.Clear?
  }

  lemma HandlerReached(s: State, e: nat, n: State, n': State)
    requires Reached(s, e, n) && !n.pc.Idle? && HandlerStepped(n, n')
    ensures Reached(s, e, n')
  {
    HandlerLeaves(n, n');
    hide HandlerStepped;
  }

  lemma MainReached(s: State, e: nat, n: State, n': State)
    requires Reached(s, e, n) && MainStepped(n, n')
    ensures Reached(s, e, n')
  {
  }

  lemma ReachedStep(s: State, e: nat, n: State, n': State)
    requires Reached(s, e, n) && !n.pc.Idle? && Next(n, n')
    ensures Reached(s, e, n')
  {
    StepKinds(n, n');
    hide Reached, HandlerStepped, MainStepped;
    if HandlerStepped(n, n') {
      HandlerReached(s, e, n, n');
    } else {
      MainReached(s, e, n, n');
    }
  }

  lemma {:induction false} PollReaches(states: seq<State>, i: nat, j: nat)
    requires Run(states) && i <= j < |states| && states[i].pc.Switch?
    requires forall k | i <= k < j :: !states[k].pc.Idle?
    ensures Reached(states[i], states[i].pc.stateTicks, states[j])
    decreases j
  {
    hide Next;
    if i < j {
      hide Reached;
      PollReaches(states, i, j - 1);
      assert Next(states[j - 1], states[j - 1 + 1]);
      ReachedStep(states[i], states[i].pc.stateTicks, states[j - 1], states[j]);
    }
  }

  /** Every poll, whatever interrupts it: from its clock read to its end it does what its phase
      and the time since the phase began ask for. A round polled later than 500 ms is given up;
      between 200 ms and 500 ms it is closed if both sequence numbers are current; the screen
      is cleared for at least 200 ms and no poll longer. */
  lemma PollOutcome(states: seq<State>, i: nat, j: nat)
    requires Run(states) && i + 1 < j < |states| && Poll(states[i], states[i + 1]) && states[j].pc.Idle?
    requires forall k | i < k < j :: !states[k].pc.Idle?
    ensures Outcome(states[i + 1], Elapsed(states[i + 1].pollAt, states[i].startAt), states[j])
  {
    hide Next, Outcome, Elapsed;
    PollReaches(states, i + 1, j);
  }

  // ------------------------------------------------------------- progress

  function HandlerRank(pc: HandlerPc): nat {
    match pc
    case Entered => 4
    case Checked => 3
    case Latched => 2
    case Stored => 1
  }

  function StackRank(stack: seq<Handler>): nat {
    if stack == [] then 0 else StackRank(stack[..|stack| - 1]) + HandlerRank(stack[|stack| - 1].pc)
  }

  function MainRank(pc: MainPc): nat {
    match pc
    case Idle => 0
    case Starting => 1
    case GotSensor(_) => 1
    case Later => 2
    case GotFrame(_) => 3
    case Ended => 4
    case SawBoth => 5
    case SawFrame => 6
    case Switch(_) => 7
  }

  /** Steps that are left until the poll is over, if no further interrupt comes. */
  function Rank(s: State): nat { StackRank(s.stack) + MainRank(s.pc) }

  lemma RankPush(stack: seq<Handler>, h: Handler)
    ensures StackRank(stack + [h]) == StackRank(stack) + HandlerRank(h.pc)
  {
    assert (stack + [h])[..|stack|] == stack;
  }

  lemma HandlerEnds(s: State, s': State)
    requires Check(s, s') || Latch(s, s') || Store(s, s') || Finish(s, s')
    ensures StackRank(s'.stack) < StackRank(s.stack) && s'.pc == s.pc
  {
    hide Own, InWindow, StackRank;
    assert s.stack == Below(s) + [Top(s)];
    RankPush(Below(s), Top(s));
    if |s'.stack| == |s.stack| {
      assert s'.stack == Below(s) + [Top(s')];
      RankPush(Below(s), Top(s'));
    } else {
      assert s'.stack == Below(s);
    }
  }

  lemma MainEnds(s: State, s': State)
    requires MainStepped(s, s')
    ensures MainRank(s'.pc) < MainRank(s.pc) && s'.stack == s.stack
  {
  }

  /** Every step of a handler or of the poll brings the end of the poll nearer. */
  lemma StepsEnd(s: State, s': State)
    requires Next(s, s') && !Enter(s, s', L4) && !Enter(s, s', L6) && !Poll(s, s')
    ensures Rank(s') < Rank(s)
  {
    StepKinds(s, s');
    hide Next, Enter, Check, Latch, Store, Finish, Poll, MainStepped, StackRank, MainRank;
    if MainStepped(s, s') {
      MainEnds(s, s');
    } else {
      HandlerEnds(s, s');
    }
  }

  /** No reachable state is stuck: the innermost handler, or the main program if there is none,
      can take its next step. */
  lemma Progress(states: seq<State>, i: nat) returns (n: State)
    requires Run(states) && i < |states|
    ensures Next(states[i], n) && |n.stack| <= |states[i].stack|
  {
    RunInv(states, i);
    var s := states[i];
    if s.stack != [] {
      n := HandlerStep(s);
    } else {
      n := MainStep(s);
    }
  }

  lemma HandlerStep(s: State) returns (n: State)
    requires Inv(s) && s.stack != []
    ensures Next(s, n) && |n.stack| <= |s.stack|
  {
    var h := Top(s);
    var c := Chan(s, h.level);
    match h.pc
    case Entered =>
      n := if c.seqNo == SampleSeq(s) then s.(stack := Below(s))
           else SetChan(s, h.level, c.(passes := c.passes + [NotYet],
                        reentered := c.reentered || InWindow(Own(s.stack, h.level))))
                  .(stack := Below(s) + [Handler(h.level, Checked, |c.passes|, 0)]);
      hide Inv, Own;
      assert Check(s, n);
    case Checked =>
      KnownPass(s);
      n := SetChan(s, h.level, c.(passes := c.passes[h.id := ReadAt(s.now + 1)]))
             .(stack := Below(s) + [h.(pc := Latched, at := s.now + 1)], now := s.now + 1);
      hide Inv;
      assert Latch(s, n);
    case Latched =>
      n := SetChan(s, h.level, c.(ticks := Wrap32(h.at), capAt := h.at)).(stack := Below(s) + [h.(pc := Stored)]);
      hide Inv;
      assert Store(s, n);
    case Stored =>
      n := SetChan(s, h.level, c.(seqNo := SampleSeq(s), capRound := s.round)).(stack := Below(s));
      hide Inv;
      assert Finish(s, n);
  }

  /** A handler past its test has a place among the round's reads. */
  lemma KnownPass(s: State)
    requires Inv(s) && s.stack != [] && Top(s).pc.Checked?
    ensures Top(s).id < |Chan(s, Top(s).level).passes|
  {
    OwnPop(s, Top(s).level);
    hide Own, Times, Settled, Pending, Accounts, Spacing, PollInv;
  }

  lemma MainStep(s: State) returns (n: State)
    requires s.stack == []
    ensures Next(s, n) && n.stack == []
  {
    var t := s.now + 1;
    match s.pc
    case Idle =>
      n := s.(now := t, pollAt := t, disturbed := false, pc := Switch(Elapsed(t, s.startAt)));
      assert Poll(s, n);
    case Switch(e) =>
      n := match s.phase
        case Clear => SetPhase(s, WaitClear, t).(pc := Idle)
        case WaitClear => if e >= WAIT_CLEAR_TICKS then SetPhase(s, StartSample, t).(pc := Idle) else s.(pc := Idle)
        case StartSample => SetPhase(s, WaitSample, t).(pc := Starting, lastStart := t, starts := s.starts + 1)
        case WaitSample =>
          if e < MIN_SAMPLE_TICKS then s.(pc := Idle)
          else if e > MAX_SAMPLE_TICKS then SetPhase(s, Clear, t).(pc := Idle, missed := s.missed + 1)
          else s.(pc := if SampleSeq(s) == s.frame.seqNo then SawFrame else Idle);
      assert Dispatch(s, n);
    case Starting =>
      n := s.(round := s.round + 1, pc := Idle, frame := s.frame.(passes := [], reentered := false),
              sensor := s.sensor.(passes := [], reentered := false));
      assert NewRound(s, n);
    case SawFrame =>
      n := s.(pc := if SampleSeq(s) == s.sensor.seqNo then SawBoth else Idle);
      assert TestSensor(s, n);
    case SawBoth =>
      n := SetPhase(s, Clear, t).(pc := Ended);
      assert EndRound(s, n);
    case Ended =>
      n := s.(pc := GotFrame(s.frame.ticks));
      assert LoadFrame(s, n);
    case GotFrame(f) =>
      n := if f >= s.sensor.ticks then s.(pc := Idle, missed := s.missed + 1) else s.(pc := Later);
      assert Compare(s, n);
    case Later =>
      n := s.(pc := GotSensor(s.sensor.ticks));
      assert LoadSensor(s, n);
    case GotSensor(g) =>
      n := s.(pc := Idle, recorded := s.recorded + [Wrap32(g - s.frame.ticks)]);
      assert Record(s, n);
  }
}
