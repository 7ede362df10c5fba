/**
 What a history of probes says about one capability of one device: it is given up for
 good once two probes in a row, not counting collisions and bus failures, go
 unanswered; until then it is supported exactly when it has ever answered.
 */
module Capabilities {
  import opened Wrappers
  import opened DaliBus
  import opened Pipeline
  import opened Presence
  import opened DeviceManager

  // The entry after a history of probe results; once unsupported it is not probed.
  function EntryAfter(h: History): CapabilityEntry {
    if h == [] then UNPROBED
    else
      var entry := EntryAfter(AllBut(h));
      if entry.state.UnsupportedCapability? then entry else ProbedEntry(entry, Last(h).result)
  }

  // At some moment there had been two misses since the latest answer.
  ghost predicate GaveUp(h: History) {
    exists n :: 0 <= n <= |h| && Misses(h[..n]) >= 2
  }

  lemma {:induction false} GaveUpStep(h: History)
    requires h != []
    ensures GaveUp(h) <==> GaveUp(AllBut(h)) || Misses(h) >= 2
  {
    hide Misses;
    assert h[..|h|] == h;
    if GaveUp(AllBut(h)) {
      var n :| 0 <= n <= |h| - 1 && Misses(AllBut(h)[..n]) >= 2;
      assert AllBut(h)[..n] == h[..n];
    }
    if GaveUp(h) {
      var n :| 0 <= n <= |h| && Misses(h[..n]) >= 2;
      if n < |h| { assert h[..n] == AllBut(h)[..n]; }
    }
  }

  lemma {:induction false} KnownStep(h: History)
    requires h != []
    ensures Known(h) <==> Known(AllBut(h)) || KindOf(Last(h).result).Answer?
  {
    AnswersStep(h);
    hide FirstAnswer;
    hide LastAnswer;
  }

  // What an entry should hold, given what its history says.
  ghost predicate EntryTells(entry: CapabilityEntry, gaveUp: bool, known: bool, misses: nat) {
    && (entry.state.UnsupportedCapability? <==> gaveUp)
    && (entry.state.Supported? <==> !gaveUp && known)
    && (!gaveUp ==> entry.consecutiveNoResponses == misses < 2)
  }

  lemma {:induction false} EntryStep(
      entry: CapabilityEntry, gaveUp: bool, known: bool, misses: nat, result: QueryResult)
    requires EntryTells(entry, gaveUp, known, misses)
    ensures var next := if entry.state.UnsupportedCapability? then entry else ProbedEntry(entry, result);
      var kind := KindOf(result);
      var misses' := if kind.Answer? then 0 else misses + (if kind.Miss? then 1 else 0);
      EntryTells(next, gaveUp || misses' >= 2, known || kind.Answer?, misses')
  {}

  // The main result on capabilities.
  lemma {:induction false} CapabilityFromHistory(h: History)
    ensures EntryTells(EntryAfter(h), GaveUp(h), Known(h), Misses(h))
  {
    hide GaveUp;
    hide Misses;
    hide Known;
    hide EntryTells;
    hide ProbedEntry;
    hide KindOf;
    hide KindAt;
    hide LastAnswer;
    hide FirstAnswer;
    hide SinceAnswer;
    hide Count;
    if h == [] {
      NeverProbed();
    } else {
      var before := AllBut(h);
      CapabilityFromHistory(before);
      GaveUpStep(h);
      CountsStep(h);
      KnownStep(h);
      EntryStep(EntryAfter(before), GaveUp(before), Known(before), Misses(before), Last(h).result);
    }
  }

  lemma {:induction false} NeverProbed()
    ensures EntryTells(UNPROBED, GaveUp([]), Known([]), Misses([]))
  {
    NoAnswers();
    hide Misses;
    hide Known;
    var h: History := [];
    assert h[..0] == h;
  }

  lemma {:induction false} NoAnswers()
    ensures !Known([]) && Misses([]) == 0
  {
    hide KindAt;
    hide KindOf;
    assert LastAnswer([]) == -1;
    assert SinceAnswer([]) == [];
  }

  // Probing an unsupported capability, or a device never seen, does nothing at all.
  lemma {:induction false} UnsupportedIsSilent(
      env: Environment, s: ScanState, address: ShortAddress, probe: Probe, nowMs: nat)
    requires |s.slots| == ADDRESSES && probe.feature < FEATURES
    requires var record := s.slots[address].record;
      record.Some? ==> record.value.capabilities[probe.feature].state.UnsupportedCapability?
    ensures ProbeOne(env, s, address, probe, nowMs) == s
  {}

  lemma {:induction false} ProbedRecordShape(record: DeviceRecord, feature: nat, result: QueryResult, nowMs: nat)
    requires feature < FEATURES
    ensures var probed := ProbedRecord(record, feature, result, nowMs);
      && probed.capabilities == record.capabilities[feature := ProbedEntry(record.capabilities[feature], result)]
      && probed == record.(capabilities := probed.capabilities, deviceType := probed.deviceType,
                           version := probed.version, physicalMinimum := probed.physicalMinimum)
  {
    hide ProbedEntry;
  }

  // Otherwise it touches one record only, leaving its presence state alone, and moves
  // exactly one capability entry.
  lemma {:induction false} ProbeMovesOneEntry(
      env: Environment, s: ScanState, address: ShortAddress, probe: Probe, nowMs: nat)
    returns (probed: DeviceRecord)
    requires |s.slots| == ADDRESSES && probe.feature < FEATURES && s.slots[address].record.Some?
    requires !s.slots[address].record.value.capabilities[probe.feature].state.UnsupportedCapability?
    ensures ProbeOne(env, s, address, probe, nowMs).slots
      == s.slots[address := s.slots[address].(record := Some(probed))]
    ensures var record, answer := s.slots[address].record.value, Ask(env, s, address, probe.command).1;
      && probed.capabilities
        == record.capabilities[probe.feature := ProbedEntry(record.capabilities[probe.feature], answer)]
      && probed == record.(capabilities := probed.capabilities, deviceType := probed.deviceType,
                           version := probed.version, physicalMinimum := probed.physicalMinimum)
  {
    hide Ask;
    hide ProbedEntry;
    var record, answer := s.slots[address].record.value, Ask(env, s, address, probe.command).1;
    probed := ProbedRecord(record, probe.feature, answer, nowMs);
    ProbedRecordShape(record, probe.feature, answer, nowMs);
    hide ProbedRecord;
  }
}
