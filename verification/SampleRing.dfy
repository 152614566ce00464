/** The history ring of main.c: record_new_sample and the statistics of
    update_sample_status. */
module SampleRing {
  import opened Words

  const HISTORY_SIZE: nat := 16

  /** The cell of the n-th sample. */
  function Slot(n: nat): (i: nat)
    ensures i < HISTORY_SIZE
  {
    n % 16
  }

  // ------------------------------------------------------------- the cells

  /** The sixteen cells after all of `history` has been recorded, from the cleared ring. */
  function Cells(history: seq<u32>): (cells: seq<u32>)
    ensures |cells| == HISTORY_SIZE
  {
    if history == [] then [0, 0, 0, 0, 0, 0, 0, 0, 0, 0, 0, 0, 0, 0, 0, 0]
    else
      var n := |history| - 1;
      Cells(history[..n])[Slot(n) := history[n]]
  }

  /** The cells update_sample_status looks at: the index is a 32-bit counter. */
  function Live(history: seq<u32>): seq<u32> {
    Cells(history)[..Min(|history| % 0x1_0000_0000, HISTORY_SIZE)]
  }

  /** The last (at most sixteen) samples, oldest first. */
  function Recent(history: seq<u32>): (recent: seq<u32>)
    ensures |recent| == Min(|history|, HISTORY_SIZE)
  {
    history[Max(0, |history| - HISTORY_SIZE)..]
  }

  lemma CellsPush(history: seq<u32>, x: u32)
    ensures Cells(history + [x]) == Cells(history)[Slot(|history|) := x]
  {
    assert (history + [x])[..|history|] == history;
  }

  /** The wrapped counter addresses the same cell and goes on counting. */
  lemma IndexIsCount(n: nat)
    ensures Slot(n % 0x1_0000_0000) == Slot(n)
    ensures Wrap32(n % 0x1_0000_0000 + 1) == (n + 1) % 0x1_0000_0000
  {
  }

  /** Cell i holds the latest sample whose number is i modulo sixteen. */
  lemma {:induction false} CellIs(history: seq<u32>, i: nat, k: nat)
    requires i < HISTORY_SIZE && k < |history| && Slot(k) == i && |history| - HISTORY_SIZE <= k
    ensures Cells(history)[i] == history[k]
    decreases |history|
  {
    var n := |history| - 1;
    if k < n {
      OtherSlot(n, k);
      hide Slot;
      CellIs(history[..n], i, k);
    }
  }

  lemma OtherSlot(n: nat, k: nat)
    requires k < n < k + HISTORY_SIZE
    ensures Slot(n) != Slot(k)
  {
  }

  lemma Remainder(q: int, i: nat)
    requires i < HISTORY_SIZE
    ensures (16 * q + i) % 16 == i
  {
  }

  function Rotated(c: seq<u32>, r: nat): seq<u32>
    requires r <= |c|
  {
    c[r..] + c[..r]
  }

  /** Once the ring is full its cells are the last sixteen samples, rotated. */
  lemma FullRing(history: seq<u32>, q: nat, r: nat)
    requires q >= 1 && |history| == 16 * q + r && r < HISTORY_SIZE
    ensures Rotated(Cells(history), r) == Recent(history)
  {
    hide Cells, Rotated, Recent;
    forall j | 0 <= j < HISTORY_SIZE
      ensures j < HISTORY_SIZE - r ==> Recent(history)[j] == Cells(history)[r + j]
      ensures j >= HISTORY_SIZE - r ==> Recent(history)[j] == Cells(history)[r + j - HISTORY_SIZE]
    {
      RotatedCell(history, j, q, r);
    }
    Rotation(Cells(history), r, Recent(history));
  }

  lemma Rotation(c: seq<u32>, r: nat, tail: seq<u32>)
    requires |c| == |tail| == HISTORY_SIZE && r < HISTORY_SIZE
    requires forall j | 0 <= j < HISTORY_SIZE :: j < HISTORY_SIZE - r ==> tail[j] == c[r + j]
    requires forall j | 0 <= j < HISTORY_SIZE :: j >= HISTORY_SIZE - r ==> tail[j] == c[r + j - HISTORY_SIZE]
    ensures Rotated(c, r) == tail
  {
  }

  lemma RotatedCell(history: seq<u32>, j: nat, q: nat, r: nat)
    requires j < HISTORY_SIZE <= |history| == 16 * q + r && r < HISTORY_SIZE
    ensures j < HISTORY_SIZE - r ==> Recent(history)[j] == Cells(history)[r + j]
    ensures j >= HISTORY_SIZE - r ==> Recent(history)[j] == Cells(history)[r + j - HISTORY_SIZE]
  {
    hide Cells;
    var k := |history| - HISTORY_SIZE + j;
    assert Recent(history)[j] == history[k];
    if j < HISTORY_SIZE - r {
      Remainder(q - 1, r + j);
      CellIs(history, r + j, k);
    } else {
      Remainder(q, r + j - HISTORY_SIZE);
      CellIs(history, r + j - HISTORY_SIZE, k);
    }
  }

  /** Before that the first cells are the samples in order. */
  lemma PartialRing(history: seq<u32>)
    requires |history| <= HISTORY_SIZE
    ensures Cells(history)[..|history|] == history
  {
    hide Cells;
    forall i | 0 <= i < |history|
      ensures Cells(history)[i] == history[i]
    {
      CellIs(history, i, i);
    }
  }

  /** The live part of the ring is the multiset of the last min(n, HISTORY_SIZE) samples, if and
      only if the 32-bit index has not just wrapped around. */
  lemma LiveIsRecent(history: seq<u32>)
    ensures multiset(Live(history)) == multiset(Recent(history))
       <==> |history| < 0x1_0000_0000 || |history| % 0x1_0000_0000 >= HISTORY_SIZE
  {
    hide Cells;
    var n, live, recent := |history|, Live(history), Recent(history);
    if n <= HISTORY_SIZE {
      PartialRing(history);
      assert n < 0x1_0000_0000 && live == recent == history;
    } else if n < 0x1_0000_0000 || n % 0x1_0000_0000 >= HISTORY_SIZE {
      FullRing(history, n / 16, n % 16);
      var r, c := n % 16, Cells(history);
      assert live == c;
      assert c == c[..r] + c[r..];
      assert multiset(c) == multiset(c[..r]) + multiset(c[r..]);
      assert multiset(recent) == multiset(c[r..]) + multiset(c[..r]);
    } else {
      assert |multiset(live)| == |live| < HISTORY_SIZE == |recent| == |multiset(recent)|;
    }
  }

  // ------------------------------------------------------------- statistics

  function Sum(s: seq<u32>): nat {
    if s == [] then 0 else Sum(s[..|s| - 1]) + s[|s| - 1]
  }

  lemma SumEmpty(s: seq<u32>)
    ensures Sum(s[..0]) == 0
  {
  }

  lemma SumPush(s: seq<u32>, x: u32)
    ensures Wrap32(Wrap32(Sum(s)) + x) == Wrap32(Sum(s + [x]))
  {
    assert (s + [x])[..|s|] == s;
    WrapAdd(Sum(s), x);
  }

  /** The sum lies between the number of samples times any bounds on them. */
  lemma {:induction false} SumBounds(s: seq<u32>, low: nat, high: nat)
    requires forall x | x in s :: low <= x <= high
    ensures |s| * low <= Sum(s) <= |s| * high
  {
    if s != [] {
      var t := s[..|s| - 1];
      assert forall x | x in t :: x in s;
      assert s[|s| - 1] in s;
      SumBounds(t, low, high);
      MulSucc(|t|, low);
      MulSucc(|t|, high);
    }
  }

  /** Sixteen samples below 2^28 do not overflow the 32-bit total. */
  lemma NoOverflow(s: seq<u32>)
    requires |s| <= HISTORY_SIZE && forall x | x in s :: x < 0x1000_0000
    ensures Sum(s) < 0x1_0000_0000
  {
    SumBounds(s, 0, 0xfff_ffff);
    assert |s| * 0xfff_ffff <= 16 * 0xfff_ffff;
  }

  /** The statistics are about samples that were recorded. */
  lemma LiveFromHistory(history: seq<u32>)
    ensures forall x | x in Live(history) :: x in history
  {
    hide Cells;
    var c := Cells(history);
    if |history| <= HISTORY_SIZE {
      PartialRing(history);
      assert c[..|history|] == history;
    } else {
      var r := |history| % 16;
      FullRing(history, |history| / 16, r);
      forall x | x in Live(history) ensures x in history {
        assert x in c[r..] + c[..r];
        assert x in Recent(history);
      }
    }
  }

  /** So if every sample ever recorded is below 2^28, the total never overflows. */
  lemma TotalNeverOverflows(history: seq<u32>)
    requires forall x | x in history :: x < 0x1000_0000
    ensures Sum(Live(history)) < 0x1_0000_0000
  {
    hide Cells, Sum;
    LiveFromHistory(history);
    NoOverflow(Live(history));
  }

  /** Unsigned division of a 32-bit total by the number of samples. */
  function Mean(total: u32, count: nat): (m: u32)
    requires count > 0
  {
    MulStep(total, 0, count);
    DivBounds(total, count, 0, total);
    total / count
  }

  /** The mean is rounded down. */
  lemma MeanRoundsDown(total: u32, count: nat)
    requires count > 0
    ensures count * Mean(total, count) <= total < count * (Mean(total, count) + 1)
  {
    var m, r := total / count, total % count;
    assert total == count * m + r;
    assert count * (m + 1) == count * m + count;
  }

  /** The mean of a total that did not overflow lies between the extremes. */
  lemma MeanBetween(s: seq<u32>, low: u32, high: u32)
    requires s != [] && forall x | x in s :: low <= x <= high
    requires Sum(s) < 0x1_0000_0000
    ensures low <= Mean(Sum(s), |s|) <= high
  {
    SumBounds(s, low, high);
    DivBounds(Sum(s), |s|, low, high);
  }

  lemma DivBounds(a: nat, d: nat, low: nat, high: nat)
    requires d > 0 && d * low <= a <= d * high
    ensures low <= a / d <= high
  {
    var q: nat := a / d;
    if q < low {
      MulStep(d, q, low);
    } else if q > high {
      MulStep(d, high, q);
    }
  }

  lemma {:induction false} MulStep(d: nat, x: nat, y: nat)
    requires x < y
    ensures d * y >= d * x + d
    decreases y
  {
    if y > x + 1 {
      MulStep(d, x, y - 1);
    }
    assert d * y == d * (y - 1) + d;
  }

  class History {
    var samples: array<u32>
    var sampleIdx: u32
    var latestSample: u32
    /** Every sample ever recorded, oldest first. */
    ghost var recorded: seq<u32>

    ghost predicate Valid()
      reads this, samples
    {
      && samples.Length == HISTORY_SIZE && samples[..] == Cells(recorded)
      && sampleIdx == |recorded| % 0x1_0000_0000
      && (recorded != [] ==> latestSample == recorded[|recorded| - 1])
    }

    constructor ()
      ensures Valid() && recorded == [] && fresh(samples)
    {
      samples := new u32[HISTORY_SIZE](_ => 0);
      sampleIdx := 0;
      latestSample := 0;
      recorded := [];
      new;
      assert samples[..] == Cells([]);
    }

    /** record_new_sample. */
    method RecordNewSample(ticks: u32)
      requires Valid()
      modifies this, samples
      ensures Valid() && samples == old(samples) && recorded == old(recorded) + [ticks]
    {
      hide Cells;
      IndexIsCount(|recorded|);
      CellsPush(recorded, ticks);
      latestSample := ticks;
      samples[Slot(sampleIdx)] := ticks;
      sampleIdx := Wrap32(sampleIdx + 1);
      recorded := recorded + [ticks];
    }

    /** The loop of update_sample_status. The index is zero only before the first sample
        and when it has wrapped around; the source then divides by zero. */
    method Statistics() returns (minTicks: u32, maxTicks: u32, meanTicks: u32)
      requires Valid() && sampleIdx != 0
      ensures var live := Live(recorded);
        && live != []
        && minTicks in live && maxTicks in live
        && (forall x | x in live :: minTicks <= x <= maxTicks)
        && meanTicks == Mean(Wrap32(Sum(live)), |live|)
        && (Sum(live) < 0x1_0000_0000 ==> minTicks <= meanTicks <= maxTicks)
    {
      hide Cells, Mean, Sum;
      minTicks, maxTicks := 0xffff_ffff, 0;
      var total: u32 := 0;
      var historyLen := if HISTORY_SIZE > sampleIdx then sampleIdx else HISTORY_SIZE;
      ghost var live := Live(recorded);
      assert historyLen == |live| && Sum(live[..0]) == 0 by { SumEmpty(live); }
      var i := 0;
      while i < historyLen
        invariant 0 <= i <= historyLen
        invariant total == Wrap32(Sum(live[..i]))
        invariant forall x | x in live[..i] :: minTicks <= x <= maxTicks
        invariant i > 0 ==> minTicks in live && maxTicks in live
        invariant i == 0 ==> minTicks == 0xffff_ffff && maxTicks == 0
      {
        var ticks := samples[i];
        assert ticks == live[i] && live[..i + 1] == live[..i] + [ticks];
        SumPush(live[..i], ticks);
        total := Wrap32(total + ticks);
        if ticks > maxTicks {
          maxTicks := ticks;
        }
        if ticks < minTicks {
          minTicks := ticks;
        }
        i := i + 1;
      }
      assert live[..i] == live;
      meanTicks := Mean(total, historyLen);
      if Sum(live) < 0x1_0000_0000 {
        MeanBetween(live, minTicks, maxTicks);
      }
    }
  }

  lemma WrapAdd(a: nat, b: nat)
    ensures Wrap32(Wrap32(a) + b) == Wrap32(a + b)
  {
  }
}
