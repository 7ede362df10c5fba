/**
 Fault persistence with hysteresis: three 8-bit thresholds, three saturating 8-bit
 counters and two flags. The flags turn out to be a plain function of the history.
 */
module FaultPersistence {
  const LIMIT: nat := 255

  type Threshold = t: nat | t <= 255

  datatype Thresholds = Thresholds(warning: Threshold, fault: Threshold, recovery: Threshold)

  datatype Monitor = Monitor(
    abnormalCount: nat, consecutiveAbnormal: nat, consecutiveHealthy: nat, warning: bool, fault: bool)

  const START := Monitor(0, 0, 0, false, false)

  function Bump(count: nat): nat { if count < LIMIT then count + 1 else count }

  function Observed(t: Thresholds, m: Monitor, abnormal: bool): Monitor {
    var counted :=
      if abnormal then
        m.(abnormalCount := Bump(m.abnormalCount), consecutiveAbnormal := Bump(m.consecutiveAbnormal),
           consecutiveHealthy := 0)
      else
        var healthy := Bump(m.consecutiveHealthy);
        Monitor(0, 0, healthy, m.warning && healthy < t.recovery, m.fault && healthy < t.recovery);
    counted.(warning := counted.warning || counted.abnormalCount >= t.warning,
             fault := counted.fault || counted.consecutiveAbnormal >= t.fault)
  }

  class FaultPersistence {
    const thresholds: Thresholds
    var abnormalCount: nat
    var consecutiveAbnormal: nat
    var consecutiveHealthy: nat
    var warningActive: bool
    var faultActive: bool

    ghost function Now(): Monitor
      reads this
    {
      Monitor(abnormalCount, consecutiveAbnormal, consecutiveHealthy, warningActive, faultActive)
    }

    constructor (thresholds: Thresholds)
      ensures this.thresholds == thresholds && Now() == START
    {
      this.thresholds := thresholds;
      abnormalCount, consecutiveAbnormal, consecutiveHealthy := 0, 0, 0;
      warningActive, faultActive := false, false;
    }

    method Observe(abnormal: bool) returns (flipped: bool)
      modifies this
      ensures Now() == Observed(thresholds, old(Now()), abnormal)
      ensures flipped == (old(warningActive) != warningActive)
    {
      var oldWarning := warningActive;
      if abnormal {
        if abnormalCount < 255 { abnormalCount := abnormalCount + 1; }
        if consecutiveAbnormal < 255 { consecutiveAbnormal := consecutiveAbnormal + 1; }
        consecutiveHealthy := 0;
      } else {
        abnormalCount := 0;
        consecutiveAbnormal := 0;
        if consecutiveHealthy < 255 { consecutiveHealthy := consecutiveHealthy + 1; }
        if consecutiveHealthy >= thresholds.recovery {
          warningActive := false;
          faultActive := false;
        }
      }
      if abnormalCount >= thresholds.warning { warningActive := true; }
      if consecutiveAbnormal >= thresholds.fault { faultActive := true; }
      return oldWarning != warningActive;
    }
  }

  // ---------------------------------------------------------------- what history says

  type History = seq<bool>

  function After(t: Thresholds, h: History): Monitor {
    if h == [] then START else Observed(t, After(t, h[..|h| - 1]), h[|h| - 1])
  }

  // The n samples before position `end` all have this value.
  ghost predicate RunEndsAt(h: History, value: bool, n: nat, end: nat) {
    n <= end <= |h| && forall i :: end - n <= i < end ==> h[i] == value
  }

  // A recovery threshold of zero acts as one: it is only looked at on a healthy sample.
  function Recovery(t: Thresholds): nat { if t.recovery == 0 then 1 else t.recovery }

  // Some run of n abnormal samples has ended, and no recovery run has ended after it.
  ghost predicate Persists(t: Thresholds, h: History, n: nat) {
    exists i :: 1 <= i <= |h| && RunEndsAt(h, true, n, i) && !RecoveredAfter(t, h, i)
  }

  ghost predicate RecoveredAfter(t: Thresholds, h: History, i: nat) {
    exists j :: i < j <= |h| && RunEndsAt(h, false, Recovery(t), j)
  }

  // The length of the run of equal samples at the end.
  function Tail(h: History, value: bool): (n: nat)
    ensures n <= |h|
  {
    if h == [] || h[|h| - 1] != value then 0 else 1 + Tail(h[..|h| - 1], value)
  }

  lemma {:induction false} TailMeaning(h: History, value: bool, n: nat)
    ensures RunEndsAt(h, value, n, |h|) <==> n <= Tail(h, value)
  {
    if h != [] && n > 0 {
      var before := h[..|h| - 1];
      TailMeaning(before, value, n - 1);
      assert forall i :: 0 <= i < |before| ==> before[i] == h[i];
      if RunEndsAt(h, value, n, |h|) {
        assert h[|h| - 1] == value;
        assert RunEndsAt(before, value, n - 1, |before|);
      }
    }
  }

  function Capped(n: nat): nat { if n <= 255 then n else 255 }

  lemma {:induction false} CountersAreTails(t: Thresholds, h: History)
    ensures After(t, h).abnormalCount == After(t, h).consecutiveAbnormal == Capped(Tail(h, true))
    ensures After(t, h).consecutiveHealthy == Capped(Tail(h, false))
  {
    if h != [] { CountersAreTails(t, h[..|h| - 1]); }
  }

  // A flag with its threshold, as the code updates it.
  lemma {:induction false} FlagStep(t: Thresholds, h: History)
    requires h != []
    ensures var before, after := After(t, h[..|h| - 1]), After(t, h);
      && after.warning == (t.warning <= Tail(h, true) || (before.warning && Tail(h, false) < Recovery(t)))
      && after.fault == (t.fault <= Tail(h, true) || (before.fault && Tail(h, false) < Recovery(t)))
  {
    CountersAreTails(t, h);
    CountersAreTails(t, h[..|h| - 1]);
  }

  lemma {:induction false} RunPrefix(h: History, value: bool, n: nat, end: nat)
    requires h != [] && end < |h|
    ensures RunEndsAt(h, value, n, end) <==> RunEndsAt(h[..|h| - 1], value, n, end)
  {
    assert forall i :: 0 <= i < end ==> h[..|h| - 1][i] == h[i];
  }

  lemma {:induction false} PersistsStep(t: Thresholds, h: History, n: nat)
    requires h != []
    ensures Persists(t, h, n) <==>
      n <= Tail(h, true) || (Persists(t, h[..|h| - 1], n) && Tail(h, false) < Recovery(t))
  {
    var before := h[..|h| - 1];
    TailMeaning(h, true, n);
    TailMeaning(h, false, Recovery(t));
    forall value: bool, m: nat, end: nat | end < |h|
      ensures RunEndsAt(h, value, m, end) <==> RunEndsAt(before, value, m, end)
    {
      RunPrefix(h, value, m, end);
    }
    if n <= Tail(h, true) {
      assert RunEndsAt(h, true, n, |h|) && !RecoveredAfter(t, h, |h|);
    }
    if Persists(t, h, n) && n > Tail(h, true) {
      var i :| 1 <= i <= |h| && RunEndsAt(h, true, n, i) && !RecoveredAfter(t, h, i);
      assert i < |h|;
      assert RunEndsAt(before, true, n, i) && !RecoveredAfter(t, before, i);
    }
    if Persists(t, before, n) && Tail(h, false) < Recovery(t) {
      var i :| 1 <= i <= |before| && RunEndsAt(before, true, n, i) && !RecoveredAfter(t, before, i);
      assert RunEndsAt(h, true, n, i) && !RecoveredAfter(t, h, i);
    }
  }

  // The main result on persistence, for all thresholds and despite the 8-bit counters:
  // each flag is active exactly when its run of abnormal samples has been seen and no
  // recovery run has ended since.
  lemma {:induction false} FlagsFromHistory(t: Thresholds, h: History)
    ensures After(t, h).warning <==> Persists(t, h, t.warning)
    ensures After(t, h).fault <==> Persists(t, h, t.fault)
  {
    if h != [] {
      FlagsFromHistory(t, h[..|h| - 1]);
      FlagStep(t, h);
      PersistsStep(t, h, t.warning);
      PersistsStep(t, h, t.fault);
    }
  }

  // ------------------------------------------------------------- warning before fault

  lemma {:induction false} FaultImpliesWarning(t: Thresholds, h: History)
    requires t.warning <= t.fault
    ensures After(t, h).fault ==> After(t, h).warning
  {
    if h != [] {
      FaultImpliesWarning(t, h[..|h| - 1]);
      FlagStep(t, h);
    }
  }

  function Repeat(value: bool, n: nat): (h: History)
    ensures |h| == n && forall i :: 0 <= i < n ==> h[i] == value
  {
    seq(n, i => value)
  }

  // A fault never shows without a warning exactly when the warning threshold is not
  // the larger of the two.
  lemma {:induction false} FaultImpliesWarningIff(t: Thresholds)
    ensures (forall h: History :: After(t, h).fault ==> After(t, h).warning) <==> t.warning <= t.fault
  {
    if t.warning <= t.fault {
      forall h: History ensures After(t, h).fault ==> After(t, h).warning { FaultImpliesWarning(t, h); }
    } else {
      var h := if t.fault == 0 then Repeat(false, 1) else Repeat(true, t.fault);
      FlagsFromHistory(t, h);
      assert RunEndsAt(h, true, t.fault, |h|) && !RecoveredAfter(t, h, |h|);
      assert !Persists(t, h, t.warning);
    }
  }

  // ------------------------------------------------------------------------ flip rate

  function Flips(t: Thresholds, h: History): nat {
    if h == [] then 0
    else
      var before := h[..|h| - 1];
      Flips(t, before) + (if After(t, h).warning != After(t, before).warning then 1 else 0)
  }

  // The fewest samples that k flips can take.
  function FewestSamples(t: Thresholds, k: nat): nat {
    ((k + 1) / 2) * t.warning + (k / 2) * Recovery(t)
  }

  lemma {:induction false} FewestSamplesStep(t: Thresholds, k: nat)
    ensures FewestSamples(t, k + 1) == FewestSamples(t, k) + if k % 2 == 0 then t.warning else Recovery(t)
  {
    if k % 2 == 0 {
      assert (k + 2) / 2 == (k + 1) / 2 + 1 && (k + 1) / 2 == k / 2;
      AddOne((k + 1) / 2, t.warning);
    } else {
      assert (k + 2) / 2 == (k + 1) / 2 && (k + 1) / 2 == k / 2 + 1;
      AddOne(k / 2, Recovery(t));
    }
  }

  lemma {:induction false} AddOne(n: nat, m: nat)
    ensures (n + 1) * m == n * m + m
  {}

  // Samples already spent on the next flip.
  function Progress(t: Thresholds, h: History): nat {
    if After(t, h).warning then Tail(h, false) else Tail(h, true)
  }

  lemma {:induction false} NoFlipsYet(t: Thresholds)
    ensures !After(t, []).warning && Flips(t, []) == 0
    ensures FewestSamples(t, Flips(t, [])) + Progress(t, []) == 0
  {}

  // k flips of the warning take at least ceil(k/2) warning runs and floor(k/2)
  // recovery runs of samples.
  lemma {:induction false} FlipsTakeTime(t: Thresholds, h: History)
    ensures Flips(t, h) % 2 == (if After(t, h).warning then 1 else 0)
    ensures FewestSamples(t, Flips(t, h)) + Progress(t, h) <= |h|
  {
    hide After;
    hide FewestSamples;
    if h == [] {
      NoFlipsYet(t);
    } else {
      FlipsTakeTime(t, h[..|h| - 1]);
      FlagStep(t, h);
      if |h| > 1 { FlagStep(t, h[..|h| - 1]); }
      FewestSamplesStep(t, Flips(t, h[..|h| - 1]));
    }
  }
}
