/**
 The trend series: a ring of 1024 timed samples, summarised in slot order. Once the
 ring has wrapped, slot order is no longer the order of arrival. The window averages
 and the rate of change do not mind; the exponentially weighted average does.
 */
module TrendSeries {
  import opened Sequences

  const CAPACITY := 1024
  const SEVEN_DAYS: nat := 604800000
  const THIRTY_DAYS: nat := 2592000000

  datatype Sample = Sample(timestampMs: nat, value: real)

  const BLANK := Sample(0, 0.0)

  datatype TrendResult = TrendResult(
    sampleCount: nat, sevenDayAverage: real, thirtyDayAverage: real,
    exponentiallyWeightedAverage: real, rateOfChange: real, statisticallyMeaningful: bool)

  // ------------------------------------------------------------------ summaries

  predicate Past(s: Sample, nowMs: nat) { s.timestampMs <= nowMs }

  predicate InWindow(s: Sample, nowMs: nat, span: nat) { Past(s, nowMs) && nowMs - s.timestampMs <= span }

  function WindowSum(samples: seq<Sample>, nowMs: nat, span: nat): real {
    if samples == [] then 0.0
    else
      var last := samples[|samples| - 1];
      WindowSum(samples[..|samples| - 1], nowMs, span) + (if InWindow(last, nowMs, span) then last.value else 0.0)
  }

  function WindowCount(samples: seq<Sample>, nowMs: nat, span: nat): nat {
    if samples == [] then 0
    else
      WindowCount(samples[..|samples| - 1], nowMs, span)
      + (if InWindow(samples[|samples| - 1], nowMs, span) then 1 else 0)
  }

  function Average(sum: real, count: nat): real { if count == 0 then 0.0 else sum / count as real }

  // A zero average counts as none and is replaced.
  function Blend(ewma: real, value: real): real { if ewma == 0.0 then value else 0.2 * value + 0.8 * ewma }

  function Ewma(samples: seq<Sample>, nowMs: nat): real {
    if samples == [] then 0.0
    else
      var before, last := Ewma(samples[..|samples| - 1], nowMs), samples[|samples| - 1];
      if Past(last, nowMs) then Blend(before, last.value) else before
  }

  // The earliest and the latest sample seen, as the loop tracks them.
  datatype Ends = Ends(oldest: Sample, newest: Sample)

  function EndsOf(samples: seq<Sample>, nowMs: nat): Ends {
    if samples == [] then Ends(Sample(nowMs, 0.0), BLANK)
    else
      var before, last := EndsOf(samples[..|samples| - 1], nowMs), samples[|samples| - 1];
      if !Past(last, nowMs) then before
      else Ends(if last.timestampMs < before.oldest.timestampMs then last else before.oldest,
                if last.timestampMs >= before.newest.timestampMs then last else before.newest)
  }

  function Rate(ends: Ends): real {
    if ends.newest.timestampMs > ends.oldest.timestampMs then
      (ends.newest.value - ends.oldest.value) / (ends.newest.timestampMs - ends.oldest.timestampMs) as real
    else 0.0
  }

  function Summary(samples: seq<Sample>, nowMs: nat): TrendResult {
    var count, rate := WindowCount(samples, nowMs, THIRTY_DAYS), Rate(EndsOf(samples, nowMs));
    TrendResult(
      count,
      Average(WindowSum(samples, nowMs, SEVEN_DAYS), WindowCount(samples, nowMs, SEVEN_DAYS)),
      Average(WindowSum(samples, nowMs, THIRTY_DAYS), count),
      Ewma(samples, nowMs), rate,
      count >= 10 && (rate > 0.000001 || rate < -0.000001))
  }

  // ------------------------------------------------------------------- the class

  datatype Ring = Ring(stored: seq<Sample>, next: nat)

  ghost predicate ValidRing(r: Ring) {
    |r.stored| <= CAPACITY && r.next < CAPACITY && (|r.stored| < CAPACITY ==> r.next == |r.stored|)
  }

  function Added(r: Ring, s: Sample): (after: Ring)
    requires ValidRing(r)
    ensures ValidRing(after)
  {
    Ring(if |r.stored| < CAPACITY then r.stored + [s] else r.stored[r.next := s], (r.next + 1) % CAPACITY)
  }

  class TrendSeries {
    const samples: array<Sample>
    var next: nat
    var count: nat

    ghost predicate Valid()
      reads this, samples
    {
      samples.Length == CAPACITY && count <= CAPACITY && ValidRing(Ring(samples[..count], next))
    }

    ghost function Now(): Ring
      requires Valid()
      reads this, samples
    {
      Ring(samples[..count], next)
    }

    constructor ()
      ensures Valid() && fresh(samples) && Now() == Ring([], 0)
    {
      samples := new Sample[CAPACITY](i => BLANK);
      next, count := 0, 0;
    }

    method Add(timestampMs: nat, value: real)
      requires Valid()
      modifies this, samples
      ensures Valid() && Now() == Added(old(Now()), Sample(timestampMs, value))
    {
      samples[next] := Sample(timestampMs, value);
      next := (next + 1) % CAPACITY;
      if count < CAPACITY { count := count + 1; }
    }

    method Evaluate(nowMs: nat) returns (result: TrendResult)
      requires Valid()
      ensures result == Summary(Now().stored, nowMs)
    {
      ghost var stored := samples[..count];
      var sevenSum, thirtySum, ewma, sevenCount, thirtyCount := 0.0, 0.0, 0.0, 0, 0;
      var oldest, newest := Sample(nowMs, 0.0), BLANK;
      for i := 0 to count
        invariant sevenSum == WindowSum(stored[..i], nowMs, SEVEN_DAYS)
        invariant sevenCount == WindowCount(stored[..i], nowMs, SEVEN_DAYS)
        invariant thirtySum == WindowSum(stored[..i], nowMs, THIRTY_DAYS)
        invariant thirtyCount == WindowCount(stored[..i], nowMs, THIRTY_DAYS)
        invariant ewma == Ewma(stored[..i], nowMs)
        invariant Ends(oldest, newest) == EndsOf(stored[..i], nowMs)
      {
        assert stored[..i + 1][..i] == stored[..i] && stored[..i + 1][i] == samples[i];
        var sample := samples[i];
        if sample.timestampMs > nowMs { continue; }
        var age := nowMs - sample.timestampMs;
        if age <= THIRTY_DAYS { thirtySum, thirtyCount := thirtySum + sample.value, thirtyCount + 1; }
        if age <= SEVEN_DAYS { sevenSum, sevenCount := sevenSum + sample.value, sevenCount + 1; }
        if sample.timestampMs < oldest.timestampMs { oldest := sample; }
        if sample.timestampMs >= newest.timestampMs { newest := sample; }
        ewma := if ewma == 0.0 then sample.value else 0.2 * sample.value + 0.8 * ewma;
      }
      assert stored[..count] == stored;
      var rate := Rate(Ends(oldest, newest));
      return TrendResult(
        thirtyCount, Average(sevenSum, sevenCount), Average(thirtySum, thirtyCount), ewma, rate,
        thirtyCount >= 10 && (rate > 0.000001 || rate < -0.000001));
    }
  }

  // ------------------------------------------------- what the ring holds after a history

  type History = seq<Sample>

  function After(h: History): (r: Ring)
    ensures ValidRing(r)
  {
    if h == [] then Ring([], 0) else Added(After(h[..|h| - 1]), h[|h| - 1])
  }

  function Newest(h: History): History { if |h| <= CAPACITY then h else h[|h| - CAPACITY..] }

  // The samples of the current turn, and those left from the turn before.
  function ThisTurn(h: History): History { h[|h| - |h| % CAPACITY..] }

  function TurnBefore(h: History): History
    requires |h| >= CAPACITY
  {
    h[|h| - CAPACITY..|h| - |h| % CAPACITY]
  }

  lemma {:induction false} NextTurn(n: nat)
    requires n > 0
    ensures n % CAPACITY == if (n - 1) % CAPACITY == CAPACITY - 1 then 0 else (n - 1) % CAPACITY + 1
  {}

  // Slot by slot: which sample of the history lies where.
  function SampleAt(n: nat, i: nat): int
    requires i < CAPACITY
  {
    if i < n % CAPACITY then n - n % CAPACITY + i else n - n % CAPACITY - CAPACITY + i
  }

  lemma {:induction false} SampleAtStep(n: nat, i: nat)
    requires i < CAPACITY
    ensures SampleAt(n + 1, i) == if i == n % CAPACITY then n else SampleAt(n, i)
  {
    NextTurn(n + 1);
  }

  lemma {:induction false} PositionHolds(h: History)
    ensures After(h).next == |h| % CAPACITY
    ensures |After(h).stored| == if |h| < CAPACITY then |h| else CAPACITY
  {
    if h != [] {
      PositionHolds(h[..|h| - 1]);
      NextTurn(|h|);
    }
  }

  lemma {:induction false} NothingStored()
    ensures After([]) == Ring([], 0)
  {}

  lemma {:induction false} FirstTurnHolds(h: History)
    requires |h| <= CAPACITY
    ensures After(h).stored == h
    decreases |h|
  {
    hide *;
    if h == [] {
      NothingStored();
    } else {
      var before, last := h[..|h| - 1], h[|h| - 1];
      FirstTurnHolds(before);
      AfterLast(h);
      AddedWrites(After(before), last);
      assert before + [last] == h;
    }
  }

  lemma {:induction false} AfterLast(h: History)
    requires h != []
    ensures After(h) == Added(After(h[..|h| - 1]), h[|h| - 1])
  {}

  lemma {:induction false} AddedWrites(r: Ring, s: Sample)
    requires ValidRing(r)
    ensures |r.stored| < CAPACITY ==> Added(r, s).stored == r.stored + [s]
    ensures |r.stored| == CAPACITY ==> Added(r, s).stored == r.stored[r.next := s]
  {}

  lemma {:induction false} SlotsHold(h: History, i: nat)
    requires i < CAPACITY <= |h|
    ensures |After(h).stored| == CAPACITY
    ensures 0 <= SampleAt(|h|, i) < |h| && After(h).stored[i] == h[SampleAt(|h|, i)]
    decreases |h|
  {
    hide After;
    hide Added;
    PositionHolds(h);
    if |h| == CAPACITY {
      FirstTurnHolds(h);
    } else {
      hide SampleAt;
      var before, last := h[..|h| - 1], h[|h| - 1];
      SlotsHold(before, i);
      PositionHolds(before);
      AfterLast(h);
      AddedWrites(After(before), last);
      WriteHolds(h, After(before).stored, i);
    }
  }

  lemma {:induction false} WriteHolds(h: History, stored: seq<Sample>, i: nat)
    requires |stored| == CAPACITY < |h| && i < CAPACITY
    requires var n := |h| - 1; 0 <= SampleAt(n, i) < n && stored[i] == h[..n][SampleAt(n, i)]
    ensures var n := |h| - 1;
      0 <= SampleAt(|h|, i) < |h| && stored[n % CAPACITY := h[n]][i] == h[SampleAt(|h|, i)]
  {
    SampleAtStep(|h| - 1, i);
    hide SampleAt;
  }

  lemma {:induction false} RingHolds(h: History)
    ensures After(h).next == |h| % CAPACITY
    ensures After(h).stored == if |h| < CAPACITY then h else ThisTurn(h) + TurnBefore(h)
  {
    PositionHolds(h);
    if |h| < CAPACITY {
      FirstTurnHolds(h);
    } else {
      forall i | 0 <= i < CAPACITY ensures After(h).stored[i] == (ThisTurn(h) + TurnBefore(h))[i] {
        SlotsHold(h, i);
      }
    }
    hide After;
  }

  lemma {:induction false} NewestTurns(h: History)
    requires |h| >= CAPACITY
    ensures Newest(h) == TurnBefore(h) + ThisTurn(h)
  {}

  // ------------------------------------------------------------------ order does not matter

  lemma {:induction false} WindowConcat(x: History, y: History, nowMs: nat, span: nat)
    ensures WindowSum(x + y, nowMs, span) == WindowSum(x, nowMs, span) + WindowSum(y, nowMs, span)
    ensures WindowCount(x + y, nowMs, span) == WindowCount(x, nowMs, span) + WindowCount(y, nowMs, span)
  {
    hide InWindow;
    if y == [] {
      Unit(x);
    } else {
      assert (x + y)[..|x + y| - 1] == x + y[..|y| - 1];
      WindowConcat(x, y[..|y| - 1], nowMs, span);
    }
  }

  // The main result on windows: they sum and count the newest 1024 samples, wherever
  // in the ring those have come to lie.
  lemma {:induction false} WindowsAreRecent(h: History, nowMs: nat, span: nat)
    ensures WindowSum(After(h).stored, nowMs, span) == WindowSum(Newest(h), nowMs, span)
    ensures WindowCount(After(h).stored, nowMs, span) == WindowCount(Newest(h), nowMs, span)
  {
    RingHolds(h);
    hide After;
    if |h| >= CAPACITY {
      NewestTurns(h);
      hide Newest;
      WindowConcat(ThisTurn(h), TurnBefore(h), nowMs, span);
      WindowConcat(TurnBefore(h), ThisTurn(h), nowMs, span);
    }
  }

  // The ends of the trend are an earliest and a latest sample not in the future.
  ghost predicate Earliest(samples: History, nowMs: nat, s: Sample) {
    && s in samples && s.timestampMs <= nowMs
    && forall t :: t in samples && t.timestampMs <= nowMs ==> s.timestampMs <= t.timestampMs
  }

  ghost predicate Latest(samples: History, nowMs: nat, s: Sample) {
    && s in samples && s.timestampMs <= nowMs
    && forall t :: t in samples && t.timestampMs <= nowMs ==> t.timestampMs <= s.timestampMs
  }

  // No two samples up to now differ in time.
  ghost predicate AllAtOnce(samples: History, nowMs: nat) {
    forall s, t :: s in samples && t in samples && s.timestampMs <= nowMs && t.timestampMs <= nowMs ==>
      s.timestampMs == t.timestampMs
  }

  lemma {:induction false} EndsBound(samples: History, nowMs: nat)
    ensures var ends := EndsOf(samples, nowMs);
      && ends.oldest.timestampMs <= nowMs
      && (forall t :: t in samples && Past(t, nowMs) ==>
            ends.oldest.timestampMs <= t.timestampMs <= ends.newest.timestampMs)
      && (ends.oldest.timestampMs < nowMs ==> ends.oldest in samples)
      && (ends.newest == BLANK || (ends.newest in samples && Past(ends.newest, nowMs)))
  {
    if samples != [] {
      var before := samples[..|samples| - 1];
      EndsBound(before, nowMs);
      assert samples == before + [samples[|samples| - 1]];
    }
  }

  predicate Rises(s: Sample, t: Sample, rate: real) {
    s.timestampMs < t.timestampMs && rate == (t.value - s.value) / (t.timestampMs - s.timestampMs) as real
  }

  // The slope between an earliest and a latest sample, zero if all are at one moment.
  ghost predicate IsSlope(samples: History, nowMs: nat, rate: real) {
    || (exists s, t :: Earliest(samples, nowMs, s) && Latest(samples, nowMs, t) && Rises(s, t, rate))
    || (rate == 0.0 && AllAtOnce(samples, nowMs))
  }

  lemma {:induction false} EndsGiveSlope(samples: History, nowMs: nat)
    ensures IsSlope(samples, nowMs, Rate(EndsOf(samples, nowMs)))
  {
    EndsBound(samples, nowMs);
    hide EndsOf;
    var ends := EndsOf(samples, nowMs);
    if ends.newest.timestampMs > ends.oldest.timestampMs {
      assert Rises(ends.oldest, ends.newest, Rate(ends));
      assert Earliest(samples, nowMs, ends.oldest) && Latest(samples, nowMs, ends.newest);
      hide Earliest;
      hide Latest;
    } else {
      assert AllAtOnce(samples, nowMs);
    }
  }

  lemma {:induction false} SlopeOfSameSamples(x: History, y: History, nowMs: nat, rate: real)
    requires IsSlope(x, nowMs, rate) && forall s :: s in x <==> s in y
    ensures IsSlope(y, nowMs, rate)
  {
    hide Rises;
    if s, t :| Earliest(x, nowMs, s) && Latest(x, nowMs, t) && Rises(s, t, rate) {
      assert Earliest(y, nowMs, s) && Latest(y, nowMs, t);
    } else {
      assert AllAtOnce(y, nowMs);
    }
  }

  // The rate of change is the slope between an earliest and a latest sample of the
  // newest 1024, and zero unless two of them differ in time.
  lemma {:induction false} RateIsSlope(h: History, nowMs: nat)
    ensures IsSlope(Newest(h), nowMs, Rate(EndsOf(After(h).stored, nowMs)))
  {
    hide *;
    SameSamples(h);
    EndsGiveSlope(After(h).stored, nowMs);
    SlopeOfSameSamples(After(h).stored, Newest(h), nowMs, Rate(EndsOf(After(h).stored, nowMs)));
  }

  lemma {:induction false} SameSamples(h: History)
    ensures forall s :: s in After(h).stored <==> s in Newest(h)
  {
    RingHolds(h);
    hide After;
    if |h| >= CAPACITY {
      NewestTurns(h);
      hide Newest;
      hide ThisTurn;
      hide TurnBefore;
    }
  }

  // -------------------------------------------------------------------- order that matters

  function ZeroSamples(n: nat): (h: History)
    ensures |h| == n && forall i :: 0 <= i < n ==> h[i] == BLANK
  {
    seq(n, i => BLANK)
  }

  lemma {:induction false} ZerosAverage(n: nat)
    ensures Ewma(ZeroSamples(n), 0) == 0.0
  {
    if n > 0 {
      assert ZeroSamples(n)[..n - 1] == ZeroSamples(n - 1);
      ZerosAverage(n - 1);
    }
  }

  // Zeros after the last set sample wear the average down.
  lemma {:induction false} ZerosWear(h: History, n: nat)
    requires Ewma(h, 0) > 0.0
    ensures n == 0 ==> Ewma(h + ZeroSamples(n), 0) == Ewma(h, 0)
    ensures n > 0 ==> 0.0 < Ewma(h + ZeroSamples(n), 0) < Ewma(h, 0)
  {
    if n == 0 {
      assert h + ZeroSamples(n) == h;
    } else {
      var all := h + ZeroSamples(n);
      assert all[..|all| - 1] == h + ZeroSamples(n - 1) && all[|all| - 1] == BLANK;
      ZerosWear(h, n - 1);
    }
  }

  lemma {:induction false} OneAfterZeros(n: nat)
    ensures Ewma(ZeroSamples(n) + [Sample(0, 1.0)], 0) == 1.0
  {
    var h := ZeroSamples(n) + [Sample(0, 1.0)];
    assert h[..|h| - 1] == ZeroSamples(n);
    ZerosAverage(n);
  }

  lemma {:induction false} WrappedTurns(n: nat)
    requires n > CAPACITY && n % CAPACITY != 0
    ensures var h, r := ZeroSamples(n - 1) + [Sample(0, 1.0)], n % CAPACITY;
      && ThisTurn(h) == ZeroSamples(r - 1) + [Sample(0, 1.0)]
      && TurnBefore(h) == ZeroSamples(CAPACITY - r)
      && Newest(h) == ZeroSamples(CAPACITY - 1) + [Sample(0, 1.0)]
  {}

  lemma {:induction false} WrappedDiffers(n: nat)
    requires n > CAPACITY && n % CAPACITY != 0
    ensures var h := ZeroSamples(n - 1) + [Sample(0, 1.0)];
      Ewma(After(h).stored, 0) < 1.0 == Ewma(Newest(h), 0)
  {
    var h := ZeroSamples(n - 1) + [Sample(0, 1.0)];
    var r := n % CAPACITY;
    WrappedTurns(n);
    RingHolds(h);
    OneAfterZeros(r - 1);
    ZerosWear(ThisTurn(h), CAPACITY - r);
    OneAfterZeros(CAPACITY - 1);
    hide After;
    hide Ewma;
    hide Newest;
    hide ThisTurn;
    hide TurnBefore;
    hide ZeroSamples;
  }

  lemma {:induction false} UnwrappedAgrees(h: History, nowMs: nat)
    requires |h| <= CAPACITY || |h| % CAPACITY == 0
    ensures After(h).stored == Newest(h)
  {
    RingHolds(h);
    hide After;
    if |h| >= CAPACITY {
      NewestTurns(h);
      assert ThisTurn(h) == [];
      Unit(TurnBefore(h));
    }
  }

  // Exactly when the weighted average weighs samples by recency: until the ring wraps,
  // and then only when a turn has just been completed.
  lemma {:induction false} EwmaChronologicalIff(n: nat)
    ensures (forall h: History, nowMs: nat :: |h| == n ==> Ewma(After(h).stored, nowMs) == Ewma(Newest(h), nowMs))
      <==> n <= 1024 || n % 1024 == 0
  {
    if n <= CAPACITY || n % CAPACITY == 0 {
      forall h: History, nowMs: nat | |h| == n ensures Ewma(After(h).stored, nowMs) == Ewma(Newest(h), nowMs) {
        UnwrappedAgrees(h, nowMs);
      }
    } else {
      WrappedDiffers(n);
    }
  }

  // ---------------------------------------------------------------------- what is reported

  // A sample counts for a window if it is neither in the future nor older than the span;
  // with WindowConcat this says what every window sums and counts.
  lemma {:induction false} WindowOfOne(s: Sample, nowMs: nat, span: nat)
    ensures var counts := s.timestampMs <= nowMs <= s.timestampMs + span;
      && WindowSum([s], nowMs, span) == (if counts then s.value else 0.0)
      && WindowCount([s], nowMs, span) == if counts then 1 else 0
  {
    assert [s][..0] == [];
  }

  // A sample from the future changes nothing.
  lemma {:induction false} FutureIgnored(h: History, s: Sample, nowMs: nat)
    requires s.timestampMs > nowMs
    ensures Summary(h + [s], nowMs) == Summary(h, nowMs)
  {
    assert (h + [s])[..|h|] == h;
    hide Average;
    hide Rate;
  }

  // Which summary goes into which field, with seven and thirty days in milliseconds.
  lemma {:induction false} SummarySays(h: History, nowMs: nat)
    ensures var report, newest := Summary(After(h).stored, nowMs), Newest(h);
      var seven, thirty := WindowCount(newest, nowMs, 604800000), WindowCount(newest, nowMs, 2592000000);
      && report.sampleCount == thirty
      && (if seven == 0 then report.sevenDayAverage == 0.0
          else report.sevenDayAverage * seven as real == WindowSum(newest, nowMs, 604800000))
      && (if thirty == 0 then report.thirtyDayAverage == 0.0
          else report.thirtyDayAverage * thirty as real == WindowSum(newest, nowMs, 2592000000))
      && report.exponentiallyWeightedAverage == Ewma(After(h).stored, nowMs)
      && report.rateOfChange == Rate(EndsOf(After(h).stored, nowMs))
      && (report.statisticallyMeaningful <==>
            thirty >= 10 && (report.rateOfChange > 0.000001 || report.rateOfChange < -0.000001))
  {
    WindowsAreRecent(h, nowMs, SEVEN_DAYS);
    WindowsAreRecent(h, nowMs, THIRTY_DAYS);
    hide After;
    hide Newest;
    hide WindowSum;
    hide WindowCount;
    hide Ewma;
    hide EndsOf;
    hide Rate;
    AverageOf(WindowSum(After(h).stored, nowMs, SEVEN_DAYS), WindowCount(After(h).stored, nowMs, SEVEN_DAYS));
    AverageOf(WindowSum(After(h).stored, nowMs, THIRTY_DAYS), WindowCount(After(h).stored, nowMs, THIRTY_DAYS));
    hide Average;
  }

  lemma {:induction false} AverageOf(sum: real, count: nat)
    ensures count == 0 ==> Average(sum, count) == 0.0
    ensures count > 0 ==> Average(sum, count) * count as real == sum
  {}

  // How much a sample n places before the latest one weighs.
  function Weight(n: nat): real { if n == 0 then 0.2 else 0.8 * Weight(n - 1) }

  // The first sample carries its weight and all of what would have come before it.
  function WeightedSum(h: History, n: nat): real
    requires n <= |h|
  {
    if n == 0 then 0.0
    else WeightedSum(h, n - 1) + (if n == 1 then 5.0 else 1.0) * Weight(|h| - n) * h[n - 1].value
  }

  lemma {:induction false} WeightedSumFades(h: History, n: nat)
    requires h != [] && n < |h|
    ensures WeightedSum(h, n) == 0.8 * WeightedSum(h[..|h| - 1], n)
  {
    if n > 0 {
      WeightedSumFades(h, n - 1);
      assert h[n - 1] == h[..|h| - 1][n - 1];
      Fades(if n == 1 then 5.0 else 1.0, Weight(|h| - 1 - n), h[n - 1].value);
    }
  }

  lemma {:induction false} Fades(a: real, w: real, v: real)
    ensures a * (0.8 * w) * v == 0.8 * (a * w * v)
  {}

  // The exponentially weighted average in closed form, in slot order: each sample weighs
  // 0.8 times what the next one weighs, and the latest 0.2. Positive values keep clear of
  // the code's reading of a zero average as none.
  lemma {:induction false} EwmaWeights(h: History, nowMs: nat)
    requires forall i :: 0 <= i < |h| ==> h[i].timestampMs <= nowMs && h[i].value > 0.0
    ensures Ewma(h, nowMs) == WeightedSum(h, |h|)
    ensures h != [] ==> Ewma(h, nowMs) > 0.0
  {
    if h != [] {
      var before, last := h[..|h| - 1], |h| - 1;
      assert forall i :: 0 <= i < last ==> before[i] == h[i];
      EwmaWeights(before, nowMs);
      WeightedSumFades(h, last);
      assert Weight(0) == 0.2;
      if last == 0 { assert WeightedSum(h, 0) == 0.0 && WeightedSum(before, 0) == 0.0; }
    }
  }
}
