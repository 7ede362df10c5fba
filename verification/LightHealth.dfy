/**
 The rule-based health score, over real numbers. The score of a light after any
 history is the tightest of its past targets, each relaxed by the recovery steps taken
 since; in particular it drops to a new target at once, never gradually.
 */
module LightHealth {
  datatype Observation = Observation(
    present: bool, commandedOn: bool, lampFailure: bool, gearFailure: bool,
    thermalWarning: bool, thermalCritical: bool, currentDrift: bool, powerDrift: bool,
    intermittentFault: bool, poorCommunication: bool)

  datatype Scoring = Scoring(
    confirmedLampFailure: real, confirmedGearFailure: real, deviceMissing: real, criticalTemperature: real,
    intermittentFailure: real, currentDeviation: real, powerDeviation: real, thermalWarning: real,
    poorCommunication: real, recoveryStep: real)
  {
    // Weights and the recovery step as they are meant, though nothing enforces it.
    predicate Valid() {
      && confirmedLampFailure >= 0.0 && confirmedGearFailure >= 0.0 && deviceMissing >= 0.0
      && criticalTemperature >= 0.0 && intermittentFailure >= 0.0 && currentDeviation >= 0.0
      && powerDeviation >= 0.0 && thermalWarning >= 0.0 && poorCommunication >= 0.0 && recoveryStep >= 0.0
    }

    // No weight deducts anything.
    predicate OnlyRewards() {
      && confirmedLampFailure <= 0.0 && confirmedGearFailure <= 0.0 && deviceMissing <= 0.0
      && criticalTemperature <= 0.0 && intermittentFailure <= 0.0 && currentDeviation <= 0.0
      && powerDeviation <= 0.0 && thermalWarning <= 0.0 && poorCommunication <= 0.0
    }
  }

  const ALL_CLEAR := Observation(true, false, false, false, false, false, false, false, false, false)

  datatype LightState = OffCommanded | OnHealthy | Warning | ServiceRequired | Failed | MissingLight

  datatype Evaluation = Evaluation(healthScore: real, state: LightState, activeFaultFlags: nat)

  function When(condition: bool, amount: real): real { if condition then amount else 0.0 }

  function FaultDeductions(c: Scoring, o: Observation): real {
    When(o.lampFailure, c.confirmedLampFailure) + When(o.gearFailure, c.confirmedGearFailure)
    + When(!o.present, c.deviceMissing)
    + (if o.thermalCritical then c.criticalTemperature else When(o.thermalWarning, c.thermalWarning))
  }

  function DriftDeductions(c: Scoring, o: Observation): real {
    When(o.intermittentFault, c.intermittentFailure) + When(o.currentDrift, c.currentDeviation)
    + When(o.powerDrift, c.powerDeviation) + When(o.poorCommunication, c.poorCommunication)
  }

  function Deductions(c: Scoring, o: Observation): real {
    FaultDeductions(c, o) + DriftDeductions(c, o)
  }

  function Flags(o: Observation): nat {
    (if o.lampFailure then 1 else 0) + (if o.gearFailure then 2 else 0) + (if !o.present then 4 else 0)
    + (if o.thermalCritical then 8 else if o.thermalWarning then 16 else 0)
  }

  function Max(x: real, y: real): real { if x < y then y else x }

  function Min(x: real, y: real): real { if y < x then y else x }

  function Target(c: Scoring, o: Observation): real { Max(0.0, 100.0 - Deductions(c, o)) }

  function Rescored(c: Scoring, score: real, o: Observation): real {
    if score > Target(c, o) then Max(Target(c, o), score - Deductions(c, o))
    else if score < 100.0 && Deductions(c, o) == 0.0 then Min(100.0, score + c.recoveryStep)
    else score
  }

  function StateFor(c: Scoring, score: real, o: Observation): LightState {
    if !o.present then MissingLight
    else if o.lampFailure || o.gearFailure then Failed
    else if o.thermalCritical || score < 20.0 then Failed
    else if score < 50.0 then ServiceRequired
    else if Deductions(c, o) > 0.0 then Warning
    else if !o.commandedOn then OffCommanded
    else OnHealthy
  }

  class LightHealthEngine {
    const config: Scoring
    var score: real

    constructor (config: Scoring)
      ensures this.config == config && score == 100.0
    {
      this.config := config;
      score := 100.0;
    }

    // The deductions and flags of outright faults.
    method AssessFaults(o: Observation) returns (deductions: real, flags: nat)
      ensures deductions == FaultDeductions(config, o) && flags == Flags(o)
    {
      deductions, flags := 0.0, 0;
      if o.lampFailure { deductions, flags := deductions + config.confirmedLampFailure, flags + 1; }
      if o.gearFailure { deductions, flags := deductions + config.confirmedGearFailure, flags + 2; }
      if !o.present { deductions, flags := deductions + config.deviceMissing, flags + 4; }
      if o.thermalCritical {
        deductions, flags := deductions + config.criticalTemperature, flags + 8;
      } else if o.thermalWarning {
        deductions, flags := deductions + config.thermalWarning, flags + 16;
      }
    }

    // The deductions of everything that is out of line but no fault yet.
    method AssessDrifts(o: Observation) returns (deductions: real)
      ensures deductions == DriftDeductions(config, o)
    {
      deductions := 0.0;
      if o.intermittentFault { deductions := deductions + config.intermittentFailure; }
      if o.currentDrift { deductions := deductions + config.currentDeviation; }
      if o.powerDrift { deductions := deductions + config.powerDeviation; }
      if o.poorCommunication { deductions := deductions + config.poorCommunication; }
    }

    method Evaluate(o: Observation) returns (evaluation: Evaluation)
      modifies this
      ensures score == Rescored(config, old(score), o)
      ensures evaluation == Evaluation(score, StateFor(config, score, o), Flags(o))
    {
      hide FaultDeductions;
      hide DriftDeductions;
      hide Flags;
      var faults, flags := AssessFaults(o);
      var drifts := AssessDrifts(o);
      var deductions := faults + drifts;
      var target := Max(0.0, 100.0 - deductions);
      if score > target {
        score := Max(target, score - deductions);
      } else if score < 100.0 && deductions == 0.0 {
        score := Min(100.0, score + config.recoveryStep);
      }
      var state := OnHealthy;
      if !o.present { state := MissingLight; }
      else if o.lampFailure || o.gearFailure { state := Failed; }
      else if o.thermalCritical || score < 20.0 { state := Failed; }
      else if score < 50.0 { state := ServiceRequired; }
      else if deductions > 0.0 { state := Warning; }
      else if !o.commandedOn { state := OffCommanded; }
      return Evaluation(score, state, flags);
    }
  }

  // ---------------------------------------------------------------- over a history

  type History = seq<Observation>

  function ScoreAfter(c: Scoring, h: History): real {
    if h == [] then 100.0 else Rescored(c, ScoreAfter(c, h[..|h| - 1]), h[|h| - 1])
  }

  // Recovery earned by the observations from position i on: one step for each that
  // called for no deduction.
  function RecoveryFrom(c: Scoring, h: History, i: nat): (r: real)
    requires i <= |h|
  {
    if i == |h| then 0.0
    else RecoveryFrom(c, h[..|h| - 1], i) + When(Deductions(c, h[|h| - 1]) == 0.0, c.recoveryStep)
  }

  // One step from a score of at most 100, whatever the weights. The gradual branch of
  // the code always lands on the target; a negative balance of weights changes nothing.
  lemma {:induction false} DropsAtOnce(c: Scoring, score: real, o: Observation)
    requires score <= 100.0
    ensures Rescored(c, score, o) <= 100.0
    ensures Deductions(c, o) > 0.0 ==> Rescored(c, score, o) == Min(score, Target(c, o))
    ensures Target(c, o) == if Deductions(c, o) > 100.0 then 0.0 else 100.0 - Deductions(c, o)
    ensures Deductions(c, o) < 0.0 ==> Rescored(c, score, o) == score
    ensures Deductions(c, o) == 0.0 ==>
      Rescored(c, score, o) == if score < 100.0 then Min(100.0, score + c.recoveryStep) else score
    ensures Deductions(c, o) == 0.0 && c.recoveryStep >= 0.0 ==>
      Rescored(c, score, o) == Min(100.0, score + c.recoveryStep)
    ensures score >= 0.0 && c.recoveryStep >= 0.0 ==> Rescored(c, score, o) >= 0.0
    ensures c.Valid() ==> Deductions(c, o) >= 0.0
  {
    if c.Valid() { DeductionsNonNegative(c, o); }
    hide Deductions;
  }

  lemma {:induction false} DeductionsNonNegative(c: Scoring, o: Observation)
    requires c.Valid()
    ensures Deductions(c, o) >= 0.0
  {}

  lemma {:induction false} ScoreInRange(c: Scoring, h: History)
    ensures ScoreAfter(c, h) <= 100.0
    ensures c.recoveryStep >= 0.0 || c.OnlyRewards() ==> ScoreAfter(c, h) >= 0.0
    ensures c.OnlyRewards() ==> ScoreAfter(c, h) == 100.0
  {
    if h != [] {
      var before, o := h[..|h| - 1], h[|h| - 1];
      ScoreInRange(c, before);
      DropsAtOnce(c, ScoreAfter(c, before), o);
      if c.OnlyRewards() { DeductionsNotPositive(c, o); }
      hide Rescored;
      hide Deductions;
    }
  }

  lemma {:induction false} DeductionsNotPositive(c: Scoring, o: Observation)
    requires c.OnlyRewards()
    ensures Deductions(c, o) <= 0.0
  {}

  // An observation that brings a positive weight to bear alone.
  function Singled(c: Scoring): (o: Observation)
    requires !c.OnlyRewards()
    ensures Deductions(c, o) > 0.0
  {
    var clear := ALL_CLEAR;
    if c.confirmedLampFailure > 0.0 then clear.(lampFailure := true)
    else if c.confirmedGearFailure > 0.0 then clear.(gearFailure := true)
    else if c.deviceMissing > 0.0 then clear.(present := false)
    else if c.criticalTemperature > 0.0 then clear.(thermalCritical := true)
    else if c.intermittentFailure > 0.0 then clear.(intermittentFault := true)
    else if c.currentDeviation > 0.0 then clear.(currentDrift := true)
    else if c.powerDeviation > 0.0 then clear.(powerDrift := true)
    else if c.thermalWarning > 0.0 then clear.(thermalWarning := true)
    else clear.(poorCommunication := true)
  }

  // One deduction, then nothing amiss n times.
  function Recovering(c: Scoring, n: nat): (h: History)
    requires !c.OnlyRewards()
  {
    if n == 0 then [Singled(c)] else Recovering(c, n - 1) + [ALL_CLEAR]
  }

  // What n steps add up to.
  function Drift(step: real, n: nat): real { if n == 0 then 0.0 else Drift(step, n - 1) + step }

  lemma {:induction false} DriftFalls(step: real, n: nat)
    requires step <= 0.0
    ensures Drift(step, n) <= 0.0
  {
    if n > 0 { DriftFalls(step, n - 1); }
  }

  lemma {:induction false} DriftIsProduct(step: real, n: nat)
    ensures Drift(step, n) == 0.0 - n as real * (0.0 - step)
  {
    if n > 0 { DriftIsProduct(step, n - 1); }
  }

  lemma {:induction false} SinksFar(start: real, step: real) returns (n: nat)
    requires step < 0.0 && start >= 0.0
    ensures start + Drift(step, n) < 0.0
  {
    var ratio := start / (0.0 - step);
    assert ratio * (0.0 - step) == start;
    n := ratio.Floor + 1;
    StrictlyMore(n as real, ratio, 0.0 - step);
    DriftIsProduct(step, n);
    hide Drift;
  }

  lemma {:induction false} ClearDeductsNothing(c: Scoring)
    ensures Deductions(c, ALL_CLEAR) == 0.0
  {}

  lemma {:induction false} NegativeRecoverySinks(c: Scoring, n: nat)
    requires !c.OnlyRewards() && c.recoveryStep < 0.0
    ensures var start := Target(c, Singled(c));
      start < 100.0 && ScoreAfter(c, Recovering(c, n)) == start + Drift(c.recoveryStep, n)
  {
    hide Rescored;
    hide Deductions;
    hide Target;
    hide Singled;
    hide Scoring.OnlyRewards;
    var h, start := Recovering(c, n), Target(c, Singled(c));
    TargetBelow(c, Singled(c));
    ClearDeductsNothing(c);
    if n == 0 {
      assert h[..0] == [] && ScoreAfter(c, []) == 100.0;
      DropsAtOnce(c, 100.0, Singled(c));
    } else {
      assert h[..|h| - 1] == Recovering(c, n - 1) && h[|h| - 1] == ALL_CLEAR;
      NegativeRecoverySinks(c, n - 1);
      DriftFalls(c.recoveryStep, n - 1);
      DropsAtOnce(c, start + Drift(c.recoveryStep, n - 1), ALL_CLEAR);
    }
  }

  lemma {:induction false} StrictlyMore(x: real, y: real, factor: real)
    requires x > y && factor > 0.0
    ensures x * factor > y * factor
  {}

  // Exactly when the score stays within 0 and 100 over every history.
  lemma {:induction false} ScoreInRangeIff(c: Scoring)
    ensures (forall h: History :: 0.0 <= ScoreAfter(c, h) <= 100.0) <==> c.recoveryStep >= 0.0 || c.OnlyRewards()
  {
    hide Target;
    hide Deductions;
    hide Singled;
    hide Scoring.OnlyRewards;
    hide ScoreAfter;
    if c.recoveryStep >= 0.0 || c.OnlyRewards() {
      forall h: History ensures 0.0 <= ScoreAfter(c, h) <= 100.0 { ScoreInRange(c, h); }
    } else {
      var start := Target(c, Singled(c));
      TargetBelow(c, Singled(c));
      var n := SinksFar(start, c.recoveryStep);
      NegativeRecoverySinks(c, n);
      assert ScoreAfter(c, Recovering(c, n)) < 0.0;
    }
  }

  lemma {:induction false} TargetBelow(c: Scoring, o: Observation)
    ensures Target(c, o) >= 0.0
    ensures Target(c, o) < 100.0 <==> Deductions(c, o) > 0.0
  {
    hide Deductions;
  }

  // What position i still allows at the end: its target plus the recovery since.
  function Allowance(c: Scoring, h: History, i: nat): real
    requires i < |h|
  {
    Target(c, h[i]) + RecoveryFrom(c, h, i + 1)
  }

  lemma {:induction false} RecoverySign(c: Scoring, h: History, i: nat)
    requires i <= |h|
    ensures c.recoveryStep >= 0.0 ==> RecoveryFrom(c, h, i) >= 0.0
    ensures c.recoveryStep <= 0.0 ==> RecoveryFrom(c, h, i) <= 0.0
    decreases |h|
  {
    hide Deductions;
    if i < |h| { RecoverySign(c, h[..|h| - 1], i); }
  }

  lemma {:induction false} AllowanceMoves(c: Scoring, h: History, i: nat)
    requires i < |h| - 1
    ensures var before, o := h[..|h| - 1], h[|h| - 1];
      Allowance(c, h, i) == Allowance(c, before, i) + When(Deductions(c, o) == 0.0, c.recoveryStep)
  {
    hide Deductions;
    hide Target;
    assert h[i] == h[..|h| - 1][i];
  }

  // An allowance that held before one more observation still holds after it.
  lemma {:induction false} AllowanceHolds(c: Scoring, h: History, i: nat)
    requires i < |h| - 1
    requires Deductions(c, h[i]) > 0.0 || c.recoveryStep >= 0.0
    requires ScoreAfter(c, h[..|h| - 1]) <= Allowance(c, h[..|h| - 1], i)
    ensures ScoreAfter(c, h) <= Allowance(c, h, i)
  {
    var before, o := h[..|h| - 1], h[|h| - 1];
    AllowanceMoves(c, h, i);
    ScoreInRange(c, before);
    DropsAtOnce(c, ScoreAfter(c, before), o);
    RecoverySign(c, before, i + 1);
    assert before[i] == h[i];
    TargetBelow(c, h[i]);
    hide Deductions;
    hide Rescored;
    hide Target;
    hide RecoveryFrom;
  }

  // The main result on the score, for all weights and recovery steps: it is the least of
  // 100 and of what every deduction in the past still allows.
  lemma {:induction false} ScoreIsTightestAllowance(c: Scoring, h: History)
    ensures ScoreAfter(c, h) <= 100.0
    ensures forall i :: 0 <= i < |h| && Deductions(c, h[i]) > 0.0 ==> ScoreAfter(c, h) <= Allowance(c, h, i)
    ensures c.recoveryStep >= 0.0 ==> forall i :: 0 <= i < |h| ==> ScoreAfter(c, h) <= Allowance(c, h, i)
    ensures ScoreAfter(c, h) == 100.0
      || exists i :: 0 <= i < |h| && Deductions(c, h[i]) > 0.0 && ScoreAfter(c, h) == Allowance(c, h, i)
  {
    hide Deductions;
    hide Rescored;
    hide RecoveryFrom;
    hide Target;
    hide Allowance;
    if h != [] {
      var before, o, last := h[..|h| - 1], h[|h| - 1], |h| - 1;
      ScoreIsTightestAllowance(c, before);
      ScoreInRange(c, before);
      DropsAtOnce(c, ScoreAfter(c, before), o);
      AllowanceOfLast(c, h);
      TargetBelow(c, o);
      forall i | 0 <= i < last && (Deductions(c, h[i]) > 0.0 || c.recoveryStep >= 0.0)
        ensures ScoreAfter(c, h) <= Allowance(c, h, i)
      {
        assert before[i] == h[i];
        AllowanceHolds(c, h, i);
      }
      var score, was := ScoreAfter(c, h), ScoreAfter(c, before);
      if Deductions(c, o) > 0.0 && score == Target(c, o) {
        assert score == Allowance(c, h, last);
      } else if score != 100.0 {
        var i :| 0 <= i < last && Deductions(c, before[i]) > 0.0 && was == Allowance(c, before, i);
        AllowanceMoves(c, h, i);
        assert h[i] == before[i];
        assert score == Allowance(c, h, i);
      }
    }
  }

  lemma {:induction false} AllowanceOfLast(c: Scoring, h: History)
    requires h != []
    ensures Allowance(c, h, |h| - 1) == Target(c, h[|h| - 1])
  {
    hide Target;
  }

  // ------------------------------------------------------------------- what is reported

  // The state can be read back: which of the seven it is says where the score stands
  // and what was observed, and nothing in good order is ever reported as trouble.
  lemma {:induction false} StateMeaning(c: Scoring, score: real, o: Observation)
    ensures var state := StateFor(c, score, o);
      && (state.MissingLight? <==> !o.present)
      && (state.Failed? <==>
            o.present && (o.lampFailure || o.gearFailure || o.thermalCritical || score < 20.0))
      && (state.OnHealthy? || state.OffCommanded? ==>
            && score >= 50.0 && Flags(o) % 16 == 0 && Deductions(c, o) <= 0.0
            && (state.OnHealthy? <==> o.commandedOn) && (c.Valid() ==> Deductions(c, o) == 0.0))
      && (state.Warning? ==> score >= 50.0 && Deductions(c, o) > 0.0)
      && (state.ServiceRequired? ==> 20.0 <= score < 50.0)
      && (state.ServiceRequired? || state.Warning? || state.OnHealthy? || state.OffCommanded? ==>
            o.present && !o.lampFailure && !o.gearFailure && !o.thermalCritical)
  {
    if c.Valid() { DeductionsNonNegative(c, o); }
    hide Deductions;
  }

  // Which weight goes with which observation: each adds its own, whatever else is
  // observed, except that a critical temperature takes the place of the thermal warning.
  lemma {:induction false} WeightsAdd(c: Scoring, o: Observation)
    ensures Deductions(c, ALL_CLEAR) == 0.0
    ensures var d := Deductions(c, o);
      && d == Deductions(c, o.(lampFailure := false)) + When(o.lampFailure, c.confirmedLampFailure)
      && d == Deductions(c, o.(gearFailure := false)) + When(o.gearFailure, c.confirmedGearFailure)
      && d == Deductions(c, o.(present := true)) + When(!o.present, c.deviceMissing)
      && d == Deductions(c, o.(thermalWarning := false, thermalCritical := false))
              + (if o.thermalCritical then c.criticalTemperature else When(o.thermalWarning, c.thermalWarning))
      && d == Deductions(c, o.(intermittentFault := false)) + When(o.intermittentFault, c.intermittentFailure)
      && d == Deductions(c, o.(currentDrift := false)) + When(o.currentDrift, c.currentDeviation)
      && d == Deductions(c, o.(powerDrift := false)) + When(o.powerDrift, c.powerDeviation)
      && d == Deductions(c, o.(poorCommunication := false)) + When(o.poorCommunication, c.poorCommunication)
      && d == Deductions(c, o.(commandedOn := !o.commandedOn))
  {
    ClearDeductsNothing(c);
    FaultWeightsAdd(c, o);
    FaultsAreFaults(c, o);
    DriftWeightsAdd(c, o);
    hide FaultDeductions;
    hide DriftDeductions;
    hide When;
  }

  lemma {:induction false} FaultWeightsAdd(c: Scoring, o: Observation)
    ensures var d := FaultDeductions(c, o);
      && d == FaultDeductions(c, o.(lampFailure := false)) + When(o.lampFailure, c.confirmedLampFailure)
      && d == FaultDeductions(c, o.(gearFailure := false)) + When(o.gearFailure, c.confirmedGearFailure)
      && d == FaultDeductions(c, o.(present := true)) + When(!o.present, c.deviceMissing)
      && d == FaultDeductions(c, o.(thermalWarning := false, thermalCritical := false))
              + (if o.thermalCritical then c.criticalTemperature else When(o.thermalWarning, c.thermalWarning))
  {}

  lemma {:induction false} FaultsAreFaults(c: Scoring, o: Observation)
    ensures var d := FaultDeductions(c, o);
      && d == FaultDeductions(c, o.(intermittentFault := false)) == FaultDeductions(c, o.(currentDrift := false))
      && d == FaultDeductions(c, o.(powerDrift := false)) == FaultDeductions(c, o.(poorCommunication := false))
      && d == FaultDeductions(c, o.(commandedOn := !o.commandedOn))
  {}

  lemma {:induction false} DriftWeightsAdd(c: Scoring, o: Observation)
    ensures var d := DriftDeductions(c, o);
      && d == DriftDeductions(c, o.(intermittentFault := false)) + When(o.intermittentFault, c.intermittentFailure)
      && d == DriftDeductions(c, o.(currentDrift := false)) + When(o.currentDrift, c.currentDeviation)
      && d == DriftDeductions(c, o.(powerDrift := false)) + When(o.powerDrift, c.powerDeviation)
      && d == DriftDeductions(c, o.(poorCommunication := false)) + When(o.poorCommunication, c.poorCommunication)
      && d == DriftDeductions(c, o.(lampFailure := false)) == DriftDeductions(c, o.(gearFailure := false))
      && d == DriftDeductions(c, o.(present := true)) == DriftDeductions(c, o.(commandedOn := !o.commandedOn))
      && d == DriftDeductions(c, o.(thermalWarning := false, thermalCritical := false))
  {}

  // Each flag bit stands for one observation, except that a critical temperature hides
  // the thermal warning.
  lemma {:induction false} FlagsDecode(o: Observation)
    ensures var flags := Flags(o);
      && (flags % 2 == 1 <==> o.lampFailure)
      && (flags / 2 % 2 == 1 <==> o.gearFailure)
      && (flags / 4 % 2 == 1 <==> !o.present)
      && (flags / 8 % 2 == 1 <==> o.thermalCritical)
      && (flags / 16 % 2 == 1 <==> o.thermalWarning && !o.thermalCritical)
      && flags < 32
  {}
}
