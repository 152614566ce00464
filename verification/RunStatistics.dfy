/** From the measurement to the status display: the samples a run of the protocol has recorded,
    in the ring and its statistics. */
module RunStatistics {
  import opened Words
  import opened Protocol
  import opened ProtocolTheorems
  import R = SampleRing

  /** A recording that SampleBound bounds: sequence numbers that mean the current round, a poll
      without an interrupt less than one wrap of the counter after the round began, and no
      wrap between the stamps. */
  ghost predicate Orderly(s: State) {
    && Fresh(s.frame, s.round) && Fresh(s.sensor, s.round)
    && !s.disturbed && s.pollAt - s.lastStart < 0x1_0000_0000
    && Epoch(s.frame.capAt) == Epoch(s.sensor.capAt)
  }

  /** Every recording up to state i is orderly. */
  ghost predicate OrderlyUpTo(states: seq<State>, i: nat) {
    forall j | 0 <= j < i && j + 1 < |states| && Record(states[j], states[j + 1]) :: Orderly(states[j])
  }

  lemma RecordedGrows(s: State, s': State)
    requires Next(s, s')
    ensures s'.recorded == s.recorded || Record(s, s')
  {
    hide Own, InWindow, Elapsed;
  }

  /** Every sample of such a run is positive and at most 500 ms. */
  lemma {:induction false} SamplesBounded(states: seq<State>, i: nat)
    requires Run(states) && i < |states| && OrderlyUpTo(states, i)
    ensures forall x | x in states[i].recorded :: 0 < x <= MAX_SAMPLE_TICKS
  {
    if i > 0 {
      var s, s' := states[i - 1], states[i];
      assert Next(s, states[i - 1 + 1]);
      RecordedGrows(s, s');
      hide Next, Orderly;
      SamplesBounded(states, i - 1);
      if Record(s, s') {
        assert Orderly(states[i - 1]) by { assert Record(states[i - 1], states[i - 1 + 1]); }
        NextSample(states, i - 1);
      }
    }
  }

  lemma NextSample(states: seq<State>, i: nat)
    requires Run(states) && i + 1 < |states| && Record(states[i], states[i + 1]) && Orderly(states[i])
    ensures |states[i + 1].recorded| == |states[i].recorded| + 1
    ensures states[i + 1].recorded[..|states[i].recorded|] == states[i].recorded
    ensures 0 < states[i + 1].recorded[|states[i].recorded|] <= MAX_SAMPLE_TICKS
  {
    hide Run, Next;
    RecordedSample(states, i);
    SampleBound(states, i);
  }

  /** The statistics of such a run are about at most sixteen samples of at most 500 ms: the
      32-bit total never overflows, and the mean lies between any bounds on the samples looked
      at, hence between their minimum and maximum. */
  lemma RunStatistics(states: seq<State>, i: nat, low: u32, high: u32)
    requires Run(states) && i < |states| && OrderlyUpTo(states, i)
    requires forall x | x in R.Live(states[i].recorded) :: low <= x <= high
    ensures var live := R.Live(states[i].recorded);
      && R.Sum(live) < 0x1_0000_0000
      && (forall x | x in live :: 0 < x <= MAX_SAMPLE_TICKS)
      && (live != [] ==> low <= R.Mean(R.Sum(live), |live|) <= high)
  {
    hide Run, R.Sum, R.Mean, R.Live, R.Cells;
    var history := states[i].recorded;
    SamplesBounded(states, i);
    R.LiveFromHistory(history);
    R.TotalNeverOverflows(history);
    if R.Live(history) != [] {
      R.MeanBetween(R.Live(history), low, high);
    }
  }

  /** The status update over the ring that holds a run's samples. */
  method UpdateStatus(history: R.History, ghost states: seq<State>, ghost i: nat)
      returns (minTicks: u32, maxTicks: u32, meanTicks: u32)
    requires history.Valid() && history.sampleIdx != 0
    requires Run(states) && i < |states| && OrderlyUpTo(states, i) && history.recorded == states[i].recorded
    ensures 0 < minTicks <= meanTicks <= maxTicks <= MAX_SAMPLE_TICKS
  {
    minTicks, maxTicks, meanTicks := history.Statistics();
    hide Run, R.Sum, R.Mean, R.Live, R.Cells;
    RunStatistics(states, i, minTicks, maxTicks);
  }
}
