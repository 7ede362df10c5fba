/**
 The readings that probing fills in, over whole runs: device type, version and physical
 minimum each hold the value and the time of the latest answer to their own probes, and
 nothing before there is one.
 */
module Readings {
  import Sequences
  import Transaction

  import opened Wrappers
  import opened DaliBus
  import opened Pipeline
  import opened Presence
  import opened DeviceManager
  import opened Discovery
  import opened Capabilities
  import opened DeviceRuns

  // Basic status, the first probe, fills in nothing.
  type Measure = f: nat | 1 <= f < 4 witness 1

  function Field(record: DeviceRecord, f: Measure): Reading {
    if f == 1 then record.deviceType else if f == 2 then record.version else record.physicalMinimum
  }

  function ReadingAt(s: ScanState, address: ShortAddress, f: Measure): Option<Reading>
    requires |s.slots| == ADDRESSES
  {
    var record := s.slots[address].record;
    if record.None? then None else Some(Field(record.value, f))
  }

  // What a history of probe results says: its latest answer.
  function LatestReading(h: History): Reading {
    if !Known(h) then NO_READING
    else Reading(h[LastAnswer(h)].result.response.value, ValidReading, h[LastAnswer(h)].nowMs)
  }

  function Updated(reading: Reading, o: Observation): Reading {
    if KindOf(o.result).Answer? then Reading(o.result.response.value, ValidReading, o.nowMs) else reading
  }

  function ReadingWith(reading: Option<Reading>, learned: Option<Observation>): Option<Reading> {
    if reading.None? || learned.None? then reading else Some(Updated(reading.value, learned.value))
  }

  lemma {:induction false} LatestReadingGrows(h: History, o: Observation)
    ensures LatestReading(h + [o]) == Updated(LatestReading(h), o)
  {
    var grown := h + [o];
    assert AllBut(grown) == h && Last(grown) == o;
    AnswersStep(grown);
    hide KindOf;
    hide KindAt;
    hide LastAnswer;
    hide FirstAnswer;
    if Known(h) && !KindOf(o.result).Answer? { assert grown[LastAnswer(h)] == h[LastAnswer(h)]; }
  }

  lemma {:induction false} NothingRead()
    ensures LatestReading([]) == NO_READING
  {
    NoAnswers();
    hide Known;
  }

  // ------------------------------------------------------------------ one probe

  lemma {:induction false} ProbedField(
      record: DeviceRecord, feature: nat, result: QueryResult, nowMs: nat, f: Measure)
    requires feature < FEATURES
    ensures Field(ProbedRecord(record, feature, result, nowMs), f)
      == if feature == f then Updated(Field(record, f), Observation(result, nowMs)) else Field(record, f)
  {
    hide ProbedEntry;
  }

  lemma {:induction false} ProbeOneReading(
      env: Environment, s: ScanState, a: ShortAddress, k: nat, nowMs: nat, b: ShortAddress, f: Measure)
    requires |s.slots| == ADDRESSES && k < |PROBES|
    ensures var next, reading := ProbeOne(env, s, a, PROBES[k], nowMs), ReadingAt(s, b, f);
      ReadingAt(next, b, f) ==
        if b != a || f != k || !Open(Entry(s, b, f)) then reading
        else ReadingWith(reading, Some(Observation(Ask(env, s, a, PROBES[k].command).1, nowMs)))
  {
    ProbeNumber(k);
    hide Ask;
    hide ProbedRecord;
    hide Updated;
    hide Field;
    var record := s.slots[a].record;
    if Open(Entry(s, a, k)) {
      ProbedField(record.value, k, Ask(env, s, a, PROBES[k].command).1, nowMs, f);
    } else {
      UnsupportedIsSilent(env, s, a, PROBES[k], nowMs);
    }
  }

  lemma {:induction false} ProbeUpToReading(
      env: Environment, s: ScanState, a: ShortAddress, k: nat, nowMs: nat, b: ShortAddress, f: Measure)
    requires |s.slots| == ADDRESSES && k <= |PROBES|
    ensures ReadingAt(ProbeUpTo(env, s, a, k, nowMs), b, f)
      == if b == a && f < k then ReadingWith(ReadingAt(s, b, f), Learned(env, s, a, f, nowMs))
         else ReadingAt(s, b, f)
  {
    hide ProbeOne;
    hide Ask;
    hide Entry;
    hide Updated;
    hide ReadingAt;
    if k > 0 {
      ProbeUpToReading(env, s, a, k - 1, nowMs, b, f);
      ProbeOneReading(env, ProbeUpTo(env, s, a, k - 1, nowMs), a, k - 1, nowMs, b, f);
    }
  }

  // ------------------------------------------------------------------- one call

  lemma {:induction false} ScanStepKeepsReadings(
      slot: Slot, address: ShortAddress, result: QueryResult, nowMs: nat, f: Measure)
    ensures var after := ScanStep(slot, address, result, nowMs).0;
      && (slot.record.Some? ==> after.record.Some? && Field(after.record.value, f) == Field(slot.record.value, f))
      && (slot.record.None? && after.record.Some? ==> Field(after.record.value, f) == NO_READING)
  {}

  lemma {:induction false} CallReading(
      env: Environment, s: ScanState, call: DeviceRuns.Call, a: ShortAddress, f: Measure)
    requires |s.slots| == ADDRESSES
    ensures var reading, after := ReadingAt(s, a, f), ReadingAt(CallStep(env, s, call), a, f);
      || after == ReadingWith(reading, LearnedBy(env, s, call, a, f))
      || (reading == None && after == Some(NO_READING))
  {
    hide Field;
    hide Updated;
    hide ScanFrom;
    hide ScanStep;
    hide Answers;
    hide ProbeFrom;
    hide Learned;
    var start := s.(changes := []);
    match call
    case ScanCall(nowMs) =>
      ScanIsPointwise(env, start, 0, nowMs, a);
      ScanStepKeepsReadings(s.slots[a], a, Answers(env, start, 0, nowMs)[a], nowMs, f);
    case DetectCall(b, nowMs) =>
      ProbeFromMiddle(env, start, b, 0, nowMs);
      ProbeUpToReading(env, start, b, |PROBES|, nowMs, a, f);
  }

  // ------------------------------------------------------------------ whole runs

  // The main result on readings: in any interleaving of scans and probing calls, over any
  // bus, each reading is the latest answer to its own probes.
  lemma {:induction false} ReadingsFollowHistories(
      env: Environment, s: ScanState, calls: seq<DeviceRuns.Call>, a: ShortAddress, f: Measure)
    requires Fresh(s)
    ensures var record := Calls(env, s, calls).slots[a].record;
      record.Some? ==> Field(record.value, f) == LatestReading(ProbeHistory(env, s, calls, a, f))
  {
    hide CallStep;
    hide LearnedBy;
    hide Updated;
    hide LatestReading;
    hide Field;
    if calls != [] {
      var before, call := calls[..|calls| - 1], calls[|calls| - 1];
      var state, h := Calls(env, s, before), ProbeHistory(env, s, before, a, f);
      ReadingsFollowHistories(env, s, before, a, f);
      EntriesFollowHistories(env, s, before, a, f);
      CallEffect(env, state, call, a, f);
      CallReading(env, state, call, a, f);
      var learned := LearnedBy(env, state, call, a, f);
      if learned.Some? { LatestReadingGrows(h, learned.value); }
      Sequences.Unit(h);
      NothingRead();
    }
  }

  // ------------------------------------------------------------ where readings come from

  // At some moment the bus delivered this value in answer to this frame.
  ghost predicate Delivered(trace: Trace, frame: nat, value: nat) {
    exists n :: 0 <= n <= |trace| && Transaction.EndsDelivered(trace[..n], frame, value)
  }

  lemma {:induction false} DeliveredStays(x: Trace, y: Trace, frame: nat, value: nat)
    requires Delivered(x, frame, value)
    ensures Delivered(x + y, frame, value)
  {
    hide Transaction.EndsDelivered;
    var n :| 0 <= n <= |x| && Transaction.EndsDelivered(x[..n], frame, value);
    assert (x + y)[..n] == x[..n];
  }

  lemma {:induction false} AskDelivers(env: Environment, s: ScanState, a: ShortAddress, command: nat)
    requires s.pipeline.queue == []
    ensures var (after, result) := Ask(env, s, a, command);
      IsValidResponse(result) ==> Delivered(after.trace, ShortCommandFrame(a, command), result.response.value)
  {
    var request := QueryRequest(a, command, HIGH, s.client.timeoutMs, s.client.retries, s.client.sequence);
    CallOnEmpty(env, s.pipeline, request);
    Transaction.StatusMeaning(env, s.pipeline.trace, request);
    if Transaction.ValidRequest(request) {
      var events := QueryOutcomeMeaning(env, s.pipeline.trace, request);
      var all := s.pipeline.trace + events;
      assert all[..|all|] == all;
    }
    hide Transaction.Execution;
  }

  // What a probing call learns about a measure has come over the bus by its end.
  lemma {:induction false} ProbesDeliver(
      env: Environment, s: ScanState, a: ShortAddress, k: nat, nowMs: nat, f: Measure)
    returns (events: Trace)
    requires |s.slots| == ADDRESSES && k <= |PROBES| && s.pipeline.queue == []
    ensures var after, learned := ProbeUpTo(env, s, a, k, nowMs), Learned(env, s, a, f, nowMs);
      && after.pipeline.queue == [] && after.pipeline.trace == s.pipeline.trace + events
      && (f < k && learned.Some? && KindOf(learned.value.result).Answer? ==>
            Delivered(after.pipeline.trace, 256 * (2 * a + 1) + CommandOf(f), learned.value.result.response.value))
  {
    hide Ask;
    hide ProbedRecord;
    hide ShortCommandFrame;
    hide Delivered;
    hide CommandOf;
    if k == 0 {
      events := [];
    } else {
      var here := ProbeUpTo(env, s, a, k - 1, nowMs);
      var first := ProbesDeliver(env, s, a, k - 1, nowMs, f);
      var rest := ProbeEvents(env, here, a, k - 1, nowMs);
      events := first + rest;
      Sequences.Associative(s.pipeline.trace, first, rest);
      var learned := Learned(env, s, a, f, nowMs);
      if learned.Some? && KindOf(learned.value.result).Answer? {
        var value, frame := learned.value.result.response.value, 256 * (2 * a + 1) + CommandOf(f);
        ProbeFrame(a, f);
        if f < k - 1 {
          DeliveredStays(here.pipeline.trace, rest, frame, value);
        } else if f == k - 1 {
          AskDelivers(env, here, a, PROBES[f].command);
          ProbeNumber(f);
        }
      }
    }
  }

  lemma {:induction false} ProbeEvents(env: Environment, s: ScanState, a: ShortAddress, k: nat, nowMs: nat)
    returns (events: Trace)
    requires |s.slots| == ADDRESSES && k < |PROBES| && s.pipeline.queue == []
    ensures var after := ProbeOne(env, s, a, PROBES[k], nowMs);
      after.pipeline.queue == [] && after.pipeline.trace == s.pipeline.trace + events
  {
    hide ProbeOne;
    events := OneProbeSilent(env, s, a, k, nowMs, if a == 0 then 1 else 0, 0);
  }

  lemma {:induction false} CallDelivers(
      env: Environment, s: ScanState, call: DeviceRuns.Call, a: ShortAddress, f: Measure)
    returns (events: Trace)
    requires |s.slots| == ADDRESSES && s.pipeline.queue == []
    ensures var after, learned := CallStep(env, s, call), LearnedBy(env, s, call, a, f);
      && after.pipeline.queue == [] && after.pipeline.trace == s.pipeline.trace + events
      && (learned.Some? && KindOf(learned.value.result).Answer? ==>
            Delivered(after.pipeline.trace, 256 * (2 * a + 1) + CommandOf(f), learned.value.result.response.value))
  {
    hide Delivered;
    hide CommandOf;
    hide ProbeFrom;
    hide ScanFrom;
    hide KindOf;
    hide Silent;
    if call.DetectCall? {
      var start := s.(changes := []);
      ProbeFromMiddle(env, start, call.address, 0, call.nowMs);
      NoProbes(env, start, call.address, call.nowMs);
      hide ProbeUpTo;
      hide Learned;
      events := ProbesDeliver(env, start, call.address, |PROBES|, call.nowMs, f);
    } else {
      events := CallSilent(env, s, call, 0, 0);
    }
  }

  // The latest answer of every history of probes has come over the bus.
  lemma {:induction false} AnswersDelivered(
      env: Environment, s: ScanState, calls: seq<DeviceRuns.Call>, a: ShortAddress, f: Measure)
    requires |s.slots| == ADDRESSES && s.pipeline.queue == []
    ensures Calls(env, s, calls).pipeline.queue == []
    ensures var after, h := Calls(env, s, calls), ProbeHistory(env, s, calls, a, f);
      Known(h) ==>
        Delivered(after.pipeline.trace, 256 * (2 * a + 1) + CommandOf(f), LatestReading(h).value)
  {
    hide CallStep;
    hide LearnedBy;
    hide Delivered;
    hide CommandOf;
    hide KindOf;
    hide LatestReading;
    hide Known;
    hide ProbeHistory;
    ProbeHistoryGrows(env, s, calls, a, f);
    if calls == [] {
      NoAnswers();
    } else {
      var before, call := calls[..|calls| - 1], calls[|calls| - 1];
      var state := Calls(env, s, before);
      AnswersDelivered(env, s, before, a, f);
      var events := CallDelivers(env, state, call, a, f);
      OneMoreDelivered(ProbeHistory(env, s, before, a, f), LearnedBy(env, state, call, a, f),
                       state.pipeline.trace, events, 256 * (2 * a + 1) + CommandOf(f));
    }
  }

  lemma {:induction false} ProbeHistoryGrows(
      env: Environment, s: ScanState, calls: seq<DeviceRuns.Call>, a: ShortAddress, f: Measure)
    requires |s.slots| == ADDRESSES
    ensures ProbeHistory(env, s, calls, a, f) ==
      if calls == [] then []
      else var before := calls[..|calls| - 1];
        var learned := LearnedBy(env, Calls(env, s, before), calls[|calls| - 1], a, f);
        WithLearned(ProbeHistory(env, s, before, a, f), learned)
  {
    hide LearnedBy;
    hide Calls;
  }

  function WithLearned(h: History, learned: Option<Observation>): History {
    h + (if learned.Some? then [learned.value] else [])
  }

  lemma {:induction false} OneMoreDelivered(
      h: History, learned: Option<Observation>, x: Trace, events: Trace, frame: nat)
    requires Known(h) ==> Delivered(x, frame, LatestReading(h).value)
    requires learned.Some? && KindOf(learned.value.result).Answer? ==>
      Delivered(x + events, frame, learned.value.result.response.value)
    ensures var grown := WithLearned(h, learned);
      Known(grown) ==> Delivered(x + events, frame, LatestReading(grown).value)
  {
    hide Delivered;
    hide KindOf;
    hide LatestReading;
    hide Known;
    if Known(h) { DeliveredStays(x, events, frame, LatestReading(h).value); }
    if learned.Some? {
      LatestReadingGrows(h, learned.value);
      KnownStepOf(h, learned.value);
    } else {
      Sequences.Unit(h);
    }
  }

  // So a reading that has a value is a byte the bus delivered, in answer to the very
  // command that asks for it, sent to the very address it is stored under.
  lemma {:induction false} ReadingsDelivered(
      env: Environment, s: ScanState, calls: seq<DeviceRuns.Call>, a: ShortAddress, f: Measure)
    requires Fresh(s) && s.pipeline.queue == []
    ensures var record := Calls(env, s, calls).slots[a].record;
      record.Some? && Field(record.value, f) != Reading(0, Unknown, 0) ==>
        Delivered(Calls(env, s, calls).pipeline.trace, 256 * (2 * a + 1) + CommandOf(f), Field(record.value, f).value)
  {
    hide Delivered;
    hide CommandOf;
    hide LatestReading;
    hide ProbeHistory;
    hide Calls;
    hide Field;
    hide Known;
    AnswersDelivered(env, s, calls, a, f);
    ReadingsFollowHistories(env, s, calls, a, f);
    UnknownReading(ProbeHistory(env, s, calls, a, f));
  }

  lemma {:induction false} KnownStepOf(h: History, o: Observation)
    ensures Known(h + [o]) <==> Known(h) || KindOf(o.result).Answer?
  {
    var grown := h + [o];
    assert AllBut(grown) == h && Last(grown) == o;
    KnownStep(grown);
    hide Known;
    hide KindOf;
  }

  lemma {:induction false} UnknownReading(h: History)
    ensures !Known(h) ==> LatestReading(h) == Reading(0, Unknown, 0)
  {
    hide Known;
  }
}
