/** What a run of the measurement protocol guarantees about its samples. */
module ProtocolTheorems {
  import opened Words
  import opened Protocol
  import opened ProtocolOrder

  /** The 16-bit sequence number has not gone around since the channel's last capture. */
  predicate Fresh(c: Channel, round: nat) { round - c.capRound < 0x1_0000 }

  /** Which wrap of the 32-bit tick counter a time falls into. */
  function Epoch(t: nat): nat { t / 0x1_0000_0000 }

  /** A sequence number equal to the current one means a capture in the current round
      exactly when fewer than 65536 rounds lie between. */
  lemma SequenceMeansCurrent(c: Channel, own: seq<Handler>, round: nat, now: nat, base: nat)
    requires ChannelInv(c, own, round, now, base) && c.seqNo == round % 0x1_0000
    ensures c.capRound == round <==> Fresh(c, round)
  {
  }

  /** The stamp of a channel whose capture is current and complete: it was read in this
      round, and it is the read of the handler that first found the round fresh if and
      only if no other did so between that handler's two stores. */
  ghost predicate Stamped(c: Channel, start: nat) {
    && c.passes != [] && c.passes[0].ReadAt?
    && start < c.passes[0].at <= c.capAt
    && (c.capAt == c.passes[0].at <==> !c.reentered)
  }

  lemma ClosedChannel(c: Channel, round: nat, now: nat, base: nat)
    requires ChannelInv(c, [], round, now, base) && c.seqNo == round % 0x1_0000 && Fresh(c, round) && round > 0
    ensures c.capRound == round && Stamped(c, base)
  {
  }

  /** The word difference is the true difference exactly within one wrap of the counter. */
  lemma EpochDifference(f: nat, s: nat)
    requires f % 0x1_0000_0000 < s % 0x1_0000_0000
    ensures s % 0x1_0000_0000 - f % 0x1_0000_0000 == s - f <==> Epoch(f) == Epoch(s)
    ensures Epoch(f) == Epoch(s) ==> f < s
  {
  }

  /** No read of the round is before t. */
  ghost predicate Earliest(c: Channel, t: nat) {
    forall k | 0 <= k < |c.passes| :: c.passes[k].ReadAt? ==> t <= c.passes[k].at
  }

  /** A sample is about to be recorded, with sequence numbers that mean the current round. */
  ghost predicate Recording(states: seq<State>, i: nat) {
    && Run(states) && i + 1 < |states| && Record(states[i], states[i + 1])
    && Fresh(states[i].frame, states[i].round) && Fresh(states[i].sensor, states[i].round)
  }

  lemma RecordedStamps(states: seq<State>, i: nat)
    requires Recording(states, i)
    ensures var s := states[i];
      var f, g := s.frame.capAt, s.sensor.capAt;
      && Stamped(s.frame, s.lastStart) && Stamped(s.sensor, s.lastStart)
      && f % 0x1_0000_0000 < g % 0x1_0000_0000
      && states[i + 1].recorded[|s.recorded|] == g % 0x1_0000_0000 - f % 0x1_0000_0000
  {
    RunInv(states, i);
    var s := states[i];
    assert Own(s.stack, L4) == [] && Own(s.stack, L6) == [];
    ClosedChannel(s.frame, s.round, s.now, s.lastStart);
    ClosedChannel(s.sensor, s.round, s.now, s.lastStart);
  }

  /** The sensor stamp of a recorded sample is the earliest sensor read of the round if
      and only if the first handler was not re-entered between its stores. */
  lemma EarliestSensorRead(states: seq<State>, i: nat)
    requires Recording(states, i)
    ensures var c := states[i].sensor;
      && c.passes != [] && c.passes[0].ReadAt? && Earliest(c, c.passes[0].at)
      && (Earliest(c, c.capAt) <==> !c.reentered)
  {
    hide Inv, Next;
    RecordedStamps(states, i);
    SensorOrderRun(states, i);
  }

  /** The same of the frame stamp, whenever it is before the sensor's. A frame handler can
      be overtaken before its clock read by one nested inside a sensor handler, but then
      all sensor reads of the round are earlier. */
  lemma EarliestFrameRead(states: seq<State>, i: nat)
    requires Recording(states, i) && states[i].frame.capAt < states[i].sensor.capAt
    ensures var c := states[i].frame;
      && c.passes != [] && c.passes[0].ReadAt? && Earliest(c, c.passes[0].at)
      && (Earliest(c, c.capAt) <==> !c.reentered)
  {
    hide Inv, Next, Nesting, Waits;
    RecordedStamps(states, i);
    FrameOrderRun(states, i);
    var c := states[i].frame;
    assert !Overtaken(c.passes);
  }

  /** In every interleaving of polls and nested handlers, a sample recorded while both
      sequence numbers are fresh is positive, is made of two stamps read in the current
      round, and equals the true time between them if and only if the tick counter did
      not wrap between them. Then the stamps are the round's earliest frame read and
      earliest sensor read, and the sample is the time between these, as long as neither
      first handler was re-entered between its stores; if exactly one was, it is not. */
  lemma RecordedSample(states: seq<State>, i: nat)
    requires Recording(states, i)
    ensures var s := states[i];
      var v := states[i + 1].recorded[|s.recorded|];
      && Stamped(s.frame, s.lastStart) && Stamped(s.sensor, s.lastStart)
      && 0 < v
      && (v == s.sensor.capAt - s.frame.capAt <==> Epoch(s.frame.capAt) == Epoch(s.sensor.capAt))
      && (Epoch(s.frame.capAt) == Epoch(s.sensor.capAt) ==>
            && Earliest(s.frame, s.frame.passes[0].at) && Earliest(s.sensor, s.sensor.passes[0].at)
            && (Earliest(s.frame, s.frame.capAt) <==> !s.frame.reentered)
            && (Earliest(s.sensor, s.sensor.capAt) <==> !s.sensor.reentered)
            && (!s.frame.reentered && !s.sensor.reentered ==> v == s.sensor.passes[0].at - s.frame.passes[0].at)
            && (s.frame.reentered != s.sensor.reentered ==> v != s.sensor.passes[0].at - s.frame.passes[0].at))
  {
    hide Run, Inv, Next, Earliest;
    var s := states[i];
    RecordedStamps(states, i);
    EpochDifference(s.frame.capAt, s.sensor.capAt);
    if Epoch(s.frame.capAt) == Epoch(s.sensor.capAt) {
      EarliestFrameRead(states, i);
      EarliestSensorRead(states, i);
    }
  }

  /** Both stamps were read less than one wrap of the counter, less 500 ms, after the round
      began. */
  predicate Near(s: State) {
    && s.frame.capAt - s.lastStart + MAX_SAMPLE_TICKS < 0x1_0000_0000
    && s.sensor.capAt - s.lastStart + MAX_SAMPLE_TICKS < 0x1_0000_0000
  }

  /** A poll less than one wrap of the counter after the round began. Without an interrupt in
      it, the poll records at most 500 ms if and only if the counter did not wrap between the
      two stamps. In any poll a wrap between them makes the sample longer than 500 ms, and
      without one the excess over 500 ms is at most the time by which the sensor stamp is later
      than the poll's own clock read. */
  lemma SampleBound(states: seq<State>, i: nat)
    requires Recording(states, i) && states[i].pollAt - states[i].lastStart < 0x1_0000_0000
    requires states[i].disturbed ==> Near(states[i])
    ensures var s := states[i];
      var v, wrapped := states[i + 1].recorded[|s.recorded|], Epoch(s.frame.capAt) != Epoch(s.sensor.capAt);
      && (!s.disturbed ==> (v <= MAX_SAMPLE_TICKS <==> !wrapped))
      && (wrapped ==> v > MAX_SAMPLE_TICKS)
      && (!wrapped ==> v <= MAX_SAMPLE_TICKS + Max(0, s.sensor.capAt - s.pollAt))
      && (v <= MAX_SAMPLE_TICKS <==>
            !wrapped && (s.sensor.capAt <= s.pollAt || s.sensor.capAt <= s.frame.capAt + MAX_SAMPLE_TICKS))
  {
    RecordedStamps(states, i);
    RunInv(states, i);
    var s := states[i];
    ElapsedBound(s.pollAt, s.lastStart);
    assert s.pollAt - s.lastStart <= MAX_SAMPLE_TICKS;
    assert !s.disturbed ==> s.frame.capAt <= s.pollAt && s.sensor.capAt <= s.pollAt;
    hide Run, Inv, Recording, Stamped;
    BoundArithmetic(s.frame.capAt, s.sensor.capAt, s.lastStart, s.pollAt);
    EpochDifference(s.frame.capAt, s.sensor.capAt);
  }

  lemma BoundArithmetic(f: nat, s: nat, start: nat, poll: nat)
    requires f % 0x1_0000_0000 < s % 0x1_0000_0000
    requires start < f && start < s && poll - start <= MAX_SAMPLE_TICKS
    requires f - start + MAX_SAMPLE_TICKS < 0x1_0000_0000 && s - start + MAX_SAMPLE_TICKS < 0x1_0000_0000
    ensures s % 0x1_0000_0000 - f % 0x1_0000_0000 <= MAX_SAMPLE_TICKS
       <==> Epoch(f) == Epoch(s) && (s <= poll || s <= f + MAX_SAMPLE_TICKS)
  {
    EpochDifference(f, s);
    if Epoch(f) != Epoch(s) {
      WrappedDifference(f, s);
    }
  }

  /** Stamps in different wraps, less than one wrap apart. */
  lemma WrappedDifference(f: nat, s: nat)
    requires f % 0x1_0000_0000 < s % 0x1_0000_0000 && Epoch(f) != Epoch(s)
    requires f - s < 0x1_0000_0000 - MAX_SAMPLE_TICKS && s - f < 0x1_0000_0000
    ensures s % 0x1_0000_0000 - f % 0x1_0000_0000 > MAX_SAMPLE_TICKS
  {
  }

  /** The outcome of a closed round is the right one: missing exactly when the sensor did not
      fire after the frame began. */
  predicate RightOutcome(s: State, s': State) { s'.missed == s.missed + 1 <==> s.sensor.capAt <= s.frame.capAt }

  /** The other outcome. A closed round is judged rightly if and only if the time between the
      two stamps is as long as all the wraps of the counter it crosses; for stamps less than
      one wrap apart, if and only if the counter did not wrap between them. A wrap after the
      frame loses the sample, one after the sensor makes one up. */
  lemma MissingSample(states: seq<State>, i: nat)
    requires Run(states) && i + 1 < |states| && Compare(states[i], states[i + 1])
    ensures var s := states[i];
      var f, g := s.frame.capAt, s.sensor.capAt;
      && (RightOutcome(s, states[i + 1]) <==>
            if g <= f then f - g >= 0x1_0000_0000 * (Epoch(f) - Epoch(g)) else g - f > 0x1_0000_0000 * (Epoch(g) - Epoch(f)))
      && (-0x1_0000_0000 < f - g < 0x1_0000_0000 ==>
            && (RightOutcome(s, states[i + 1]) <==> Epoch(f) == Epoch(g))
            && (Epoch(f) < Epoch(g) ==> states[i + 1].missed == s.missed + 1)
            && (Epoch(f) > Epoch(g) ==> states[i + 1].missed == s.missed))
  {
    RunInv(states, i);
    var s := states[i];
    assert s.frame.ticks == s.frame.capAt % 0x1_0000_0000 && s.sensor.ticks == s.sensor.capAt % 0x1_0000_0000;
    assert states[i + 1].missed == s.missed + 1 <==> s.frame.ticks >= s.sensor.ticks;
    hide Run, Inv, Compare;
    WordOrder(s.frame.capAt, s.sensor.capAt);
  }

  /** When two times compare as their 32-bit words do. */
  lemma WordOrder(f: nat, g: nat)
    ensures (f % 0x1_0000_0000 >= g % 0x1_0000_0000 <==> g <= f) <==>
      if g <= f then f - g >= 0x1_0000_0000 * (Epoch(f) - Epoch(g)) else g - f > 0x1_0000_0000 * (Epoch(g) - Epoch(f))
    ensures g - f < 0x1_0000_0000 && Epoch(f) < Epoch(g) ==> f % 0x1_0000_0000 >= g % 0x1_0000_0000
    ensures f - g < 0x1_0000_0000 && Epoch(f) > Epoch(g) ==> f % 0x1_0000_0000 < g % 0x1_0000_0000
  {
  }

  /** From the sequence check to the end of the poll no step of any handler changes a
      stamp, a sequence number or the first reads. */
  lemma {:induction false} StampsFrozen(states: seq<State>, i: nat, j: nat)
    requires Run(states) && i <= j < |states|
    requires forall k | i <= k <= j :: PastSensor(states[k].pc)
    ensures states[j].frame == states[i].frame && states[j].sensor == states[i].sensor
    ensures states[j].round == states[i].round
    decreases j
  {
    hide Inv, Next, PastSensor;
    if i < j {
      assert PastSensor(states[j].pc) && PastSensor(states[j - 1].pc);
      StampsFrozen(states, i, j - 1);
      RunInv(states, j - 1);
      assert Next(states[j - 1], states[j - 1 + 1]);
      FrozenStep(states[j - 1], states[j]);
    }
  }

  lemma FrozenStep(s: State, s': State)
    requires Inv(s) && Next(s, s') && PastSensor(s.pc) && PastSensor(s'.pc)
    ensures s'.frame == s.frame && s'.sensor == s.sensor && s'.round == s.round
  {
    hide ChannelInv, Own;
    if s.stack != [] {
      OwnPop(s, L4);
      OwnPop(s, L6);
    }
  }

  /** Every round ends in exactly one outcome; between polls exactly the round that
      waits for its sample is open. */
  lemma OneOutcomePerRound(states: seq<State>, i: nat)
    requires Run(states) && i < |states| && states[i].pc.Idle?
    ensures var s := states[i];
      s.round == s.starts == |s.recorded| + s.missed + if s.phase.WaitSample? then 1 else 0
  {
    RunInv(states, i);
  }

  /** Two rounds start at least 4,000,000 true ticks apart, however often the counter
      wraps and however long polling is suspended. */
  lemma StartsApart(states: seq<State>, i: nat)
    requires Run(states) && i + 1 < |states|
    requires states[i].starts > 0 && states[i + 1].starts == states[i].starts + 1
    ensures states[i + 1].lastStart >= states[i].lastStart + 4_000_000
  {
    hide Inv, Next;
    RunInv(states, i);
    assert Next(states[i], states[i + 1]);
    StartStep(states[i], states[i + 1]);
  }

  lemma StartStep(s: State, s': State)
    requires Inv(s) && Next(s, s') && s.starts > 0 && s'.starts == s.starts + 1
    ensures s'.lastStart >= s.lastStart + 4_000_000
  {
    hide ChannelsInv, PollInv, InWindow, Own;
    assert Dispatch(s, s') && s.phase.StartSample?;
  }
}
