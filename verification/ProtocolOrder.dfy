/** In which order the handlers of a round read the clock. */
module ProtocolOrder {
  import opened Protocol

  // ------------------------------------------------------------- the sensor

  /** Nothing interrupts a sensor handler before it has read the clock: mask 6 admits
      no other. So the sensor's reads happen in the order in which the handlers found
      the round fresh. */
  ghost predicate SensorOrder(s: State) {
    var p := s.sensor.passes;
    && (forall j | 0 <= j < |s.stack| - 1 :: s.stack[j].level.L6? ==> s.stack[j].pc.Latched? || s.stack[j].pc.Stored?)
    && (forall i | 0 <= i < |p| - 1 :: p[i].ReadAt?)
    && (forall i, j | 0 <= i < j < |p| :: p[j].ReadAt? ==> p[i].at < p[j].at)
    && (s.stack != [] && Top(s).level.L6? && Top(s).pc.Checked? ==> Top(s).id == |p| - 1)
    && (p != [] && p[|p| - 1].NotYet? ==> s.stack != [] && Top(s).level.L6? && Top(s).pc.Checked?)
  }

  lemma SensorOrderStep(s: State, s': State)
    requires Inv(s) && SensorOrder(s) && Next(s, s')
    ensures SensorOrder(s')
  {
    hide Inv, SensorOrder, Enter, Check, Latch, Store, Finish;
    if
    case Enter(s, s', L4) => SensorOrderHandler(s, s');
    case Enter(s, s', L6) => SensorOrderHandler(s, s');
    case Check(s, s') || Latch(s, s') || Store(s, s') || Finish(s, s') => SensorOrderHandler(s, s');
    case !(Enter(s, s', L4) || Enter(s, s', L6) || Check(s, s') || Latch(s, s') || Store(s, s') || Finish(s, s')) =>
      SensorOrderMain(s, s');
  }

  lemma SensorOrderMain(s: State, s': State)
    requires SensorOrder(s) && s'.stack == s.stack && (s'.sensor == s.sensor || s'.sensor.passes == [])
    requires s.stack == []
    ensures SensorOrder(s')
  {
  }

  lemma SensorOrderHandler(s: State, s': State)
    requires Inv(s) && SensorOrder(s)
    requires Enter(s, s', L4) || Enter(s, s', L6) || Check(s, s') || Latch(s, s') || Store(s, s') || Finish(s, s')
    ensures SensorOrder(s')
  {
    hide SensorOrder, Enter, Check, Latch, Store, Finish, Own, Accounts, Spacing, PollInv, Numbered, Pending, Settled;
    if
    case Enter(s, s', L4) => OrderAfterEnter(s, s', L4);
    case Enter(s, s', L6) => OrderAfterEnter(s, s', L6);
    case Check(s, s') => OrderAfterCheck(s, s');
    case Latch(s, s') => OrderAfterLatch(s, s');
    case Store(s, s') || Finish(s, s') => OrderAfterStores(s, s');
  }

  lemma OrderAfterEnter(s: State, s': State, l: Level)
    requires SensorOrder(s) && Enter(s, s', l)
    ensures SensorOrder(s')
  {
  }

  lemma OrderAfterCheck(s: State, s': State)
    requires SensorOrder(s) && Check(s, s')
    ensures SensorOrder(s')
  {
    hide InWindow, Own;
    assert forall j | 0 <= j < |s'.stack| - 1 :: s'.stack[j] == s.stack[j];
  }

  lemma OrderAfterLatch(s: State, s': State)
    requires SensorOrder(s) && Latch(s, s')
    requires forall i | 0 <= i < |s.sensor.passes| :: s.sensor.passes[i].ReadAt? ==> s.sensor.passes[i].at <= s.now
    ensures SensorOrder(s')
  {
    assert forall j | 0 <= j < |s'.stack| - 1 :: s'.stack[j] == s.stack[j];
  }

  lemma OrderAfterStores(s: State, s': State)
    requires SensorOrder(s) && (Store(s, s') || Finish(s, s'))
    ensures SensorOrder(s')
  {
    assert forall j | 0 <= j < |s'.stack| - 1 :: s'.stack[j] == s.stack[j];
  }

  lemma {:induction false} SensorOrderRun(states: seq<State>, i: nat)
    requires Run(states) && i < |states|
    ensures SensorOrder(states[i])
  {
    hide Inv, Next;
    if i > 0 {
      SensorOrderRun(states, i - 1);
      RunInv(states, i - 1);
      assert Next(states[i - 1], states[i - 1 + 1]);
      SensorOrderStep(states[i - 1], states[i]);
    }
  }

  // ------------------------------------------------------------- the frame

  predicate HasRead(h: Handler) { h.pc.Latched? || h.pc.Stored? }

  /** A later frame handler has read the clock before the one that first found the round
      fresh. */
  ghost predicate Overtaken(p: seq<Read>) {
    p != [] && p[0].ReadAt? && exists k | 0 < k < |p| :: p[k].ReadAt? && p[k].at < p[0].at
  }

  /** The sensor's part of the round is over but for stores of stamps before time t. */
  ghost predicate SensorBefore(s: State, t: nat) {
    && s.sensor.seqNo == SampleSeq(s) && s.sensor.capAt < t
    && forall j | 0 <= j < |s.stack| :: s.stack[j].level.L6? ==> s.stack[j].pc.Entered? || (HasRead(s.stack[j]) && s.stack[j].at < t)
  }

  /** Only a sensor handler can interrupt a frame handler that has not read the clock. */
  ghost predicate Nesting(s: State) {
    && (forall j | 0 <= j < |s.stack| - 1 :: s.stack[j].level.L4? && !HasRead(s.stack[j]) ==> s.stack[j + 1].level.L6?)
    && (forall j | 0 <= j < |s.stack| :: HasRead(s.stack[j]) ==> s.stack[j].at <= s.now)
  }

  /** The first frame handler waits at position j while others have found the round fresh:
      above it is a sensor handler that has read the clock, or the sensor's number is
      current already. */
  ghost predicate Waits(s: State, j: nat)
    requires j < |s.stack|
  {
    s.stack[j].level.L4? && s.stack[j].pc.Checked? && s.stack[j].id == 0 && |s.frame.passes| > 1 ==>
      || s.sensor.seqNo == SampleSeq(s)
      || (j + 1 < |s.stack| && s.stack[j + 1].level.L6? && HasRead(s.stack[j + 1]))
  }

  /** If a frame read overtakes the first, every sensor read of the round is earlier still. */
  ghost predicate FrameOrder(s: State) {
    && Nesting(s)
    && (forall j | 0 <= j < |s.stack| :: Waits(s, j))
    && (Overtaken(s.frame.passes) ==> SensorBefore(s, s.frame.passes[0].at))
  }

  /** What a step needs of the invariants before it. */
  ghost predicate ReadsPast(s: State) {
    && s.sensor.capAt <= s.now
    && forall k | 0 <= k < |s.frame.passes| :: s.frame.passes[k].ReadAt? ==> s.frame.passes[k].at <= s.now
  }

  lemma FrameAfterEnter(s: State, s': State, l: Level)
    requires FrameOrder(s) && Enter(s, s', l)
    ensures FrameOrder(s')
  {
    var top := |s.stack|;
    assert forall j | 0 <= j < top :: s'.stack[j] == s.stack[j];
    forall j | 0 <= j < |s'.stack| ensures Waits(s', j) {
      if j < top {
        assert Waits(s, j);
      }
    }
  }

  /** Two states whose stacks agree below the top handler of the first. */
  ghost predicate SameBelow(s: State, s': State) {
    && s.stack != [] && |s.stack| - 1 <= |s'.stack| <= |s.stack|
    && forall j | 0 <= j < |s.stack| - 1 :: s'.stack[j] == s.stack[j]
  }

  lemma FrameAfterCheck(s: State, s': State)
    requires FrameOrder(s) && SensorOrder(s) && Check(s, s')
    ensures FrameOrder(s')
  {
    hide InWindow, Own;
    assert SameBelow(s, s');
    var top := |s.stack| - 1;
    forall j | 0 <= j < |s'.stack| ensures Waits(s', j) {
      if j < top {
        assert Waits(s, j) && s'.stack[j] == s.stack[j];
        if j + 1 < top {
          assert s'.stack[j + 1] == s.stack[j + 1];
        }
      }
    }
    assert Overtaken(s'.frame.passes) ==> Overtaken(s.frame.passes);
  }

  /** A clock read at a later time than all reads before it overtakes nothing unless it is
      the first handler's own. */
  lemma LatchOvertakes(p: seq<Read>, id: nat, t: nat)
    requires id < |p| && forall k | 0 <= k < |p| :: p[k].ReadAt? ==> p[k].at < t
    ensures id > 0 && Overtaken(p[id := ReadAt(t)]) ==> Overtaken(p)
    ensures Overtaken(p[id := ReadAt(t)]) ==> |p| > 1
  {
    var q := p[id := ReadAt(t)];
    if id > 0 && Overtaken(q) {
      var k :| 0 < k < |q| && q[k].ReadAt? && q[k].at < q[0].at;
      assert k != id && p[k] == q[k] && p[0] == q[0];
    }
  }

  lemma FrameAfterLatch(s: State, s': State)
    requires FrameOrder(s) && SensorOrder(s) && ReadsPast(s) && Latch(s, s')
    ensures FrameOrder(s')
  {
    assert SameBelow(s, s');
    var top, h := |s.stack| - 1, Top(s);
    forall j | 0 <= j < |s'.stack| ensures Waits(s', j) {
      if j < top {
        assert Waits(s, j) && s'.stack[j] == s.stack[j];
        if j + 1 < top {
          assert s'.stack[j + 1] == s.stack[j + 1];
        }
      }
    }
    assert Nesting(s');
    if h.level.L4? {
      LatchOvertakes(s.frame.passes, h.id, s'.now);
      assert Waits(s, top);
    }
  }

  lemma FrameAfterStores(s: State, s': State)
    requires FrameOrder(s) && (Store(s, s') || Finish(s, s'))
    ensures FrameOrder(s')
  {
    assert SameBelow(s, s');
    var top := |s.stack| - 1;
    forall j | 0 <= j < |s'.stack| ensures Waits(s', j) {
      if j < top {
        assert Waits(s, j) && s'.stack[j] == s.stack[j];
        if j + 1 < top {
          assert s'.stack[j + 1] == s.stack[j + 1];
        }
      }
    }
  }

  lemma FrameMain(s: State, s': State)
    requires FrameOrder(s) && s.stack == s'.stack == []
    requires s'.frame.passes == [] || (s'.frame == s.frame && s'.sensor == s.sensor && s'.round == s.round)
    ensures FrameOrder(s')
  {
  }

  lemma FrameOrderHandler(s: State, s': State)
    requires Inv(s) && SensorOrder(s) && FrameOrder(s)
    requires Enter(s, s', L4) || Enter(s, s', L6) || Check(s, s') || Latch(s, s') || Store(s, s') || Finish(s, s')
    ensures FrameOrder(s')
  {
    assert ReadsPast(s) by { hide Own, Numbered, Pending, Settled; }
    hide Inv, SensorOrder, FrameOrder, ReadsPast, Enter, Check, Latch, Store, Finish;
    if
    case Enter(s, s', L4) => FrameAfterEnter(s, s', L4);
    case Enter(s, s', L6) => FrameAfterEnter(s, s', L6);
    case Check(s, s') => FrameAfterCheck(s, s');
    case Latch(s, s') => FrameAfterLatch(s, s');
    case Store(s, s') || Finish(s, s') => FrameAfterStores(s, s');
  }

  lemma FrameOrderStep(s: State, s': State)
    requires Inv(s) && SensorOrder(s) && FrameOrder(s) && Next(s, s')
    ensures FrameOrder(s')
  {
    hide Inv, SensorOrder, FrameOrder, Enter, Check, Latch, Store, Finish;
    if
    case Enter(s, s', L4) || Enter(s, s', L6) => FrameOrderHandler(s, s');
    case Check(s, s') || Latch(s, s') || Store(s, s') || Finish(s, s') => FrameOrderHandler(s, s');
    case !(Enter(s, s', L4) || Enter(s, s', L6) || Check(s, s') || Latch(s, s') || Store(s, s') || Finish(s, s')) =>
      FrameMain(s, s');
  }

  lemma FrameOrderInit(s: State)
    requires Init(s)
    ensures FrameOrder(s)
  {
  }

  /** In every run: a round whose first frame handler is overtaken has all its sensor reads
      before that handler's own. */
  lemma {:induction false} FrameOrderRun(states: seq<State>, i: nat)
    requires Run(states) && i < |states|
    ensures FrameOrder(states[i])
  {
    hide Inv, Next, FrameOrder, SensorOrder;
    if i == 0 {
      FrameOrderInit(states[0]);
    } else {
      FrameOrderRun(states, i - 1);
      SensorOrderRun(states, i - 1);
      RunInv(states, i - 1);
      assert Next(states[i - 1], states[i - 1 + 1]);
      FrameOrderStep(states[i - 1], states[i]);
    }
  }
}
