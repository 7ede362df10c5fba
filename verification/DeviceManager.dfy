/**
 The device manager: a registry of 64 addresses, the presence scan over all of them,
 and the probing of core capabilities, each talking to the bus through the query client.
 */
module DeviceManager {
  import opened Wrappers
  import opened DaliBus
  import opened CommandQueue
  import opened Pipeline
  import opened Presence

  const ADDRESSES := 64
  const PRESENT_QUERY := 0x91
  const HIGH: Priority := 1

  datatype Change = Change(changeType: ChangeType, address: ShortAddress, uptimeMs: nat)

  const NO_CHANGE := Change(Discovered, 0, 0)

  // A change that does not fit is dropped.
  function WithChange(changes: seq<Change>, change: Change): seq<Change> {
    if |changes| == ADDRESSES then changes else changes + [change]
  }

  class DiscoveryBatch {
    const changes: array<Change>
    var size: nat

    ghost predicate Valid()
      reads this
    {
      changes.Length == ADDRESSES && size <= ADDRESSES
    }

    ghost function Contents(): (contents: seq<Change>)
      requires Valid()
      reads this, changes
    {
      changes[..size]
    }

    constructor ()
      ensures Valid() && fresh(changes) && Contents() == []
    {
      changes := new Change[ADDRESSES](i => NO_CHANGE);
      size := 0;
    }

    method Add(change: Change) returns (ok: bool)
      requires Valid()
      modifies this, changes
      ensures Valid() && ok == (|old(Contents())| < ADDRESSES)
      ensures Contents() == WithChange(old(Contents()), change)
    {
      if size == ADDRESSES { return false; }
      changes[size] := change;
      size := size + 1;
      return true;
    }
  }

  // -------------------------------------------------------------------- a scan as a value

  datatype ScanState = ScanState(slots: seq<Slot>, pipeline: State, client: Caller, changes: seq<Change>)

  // One query of the client.
  function Ask(env: Environment, s: ScanState, address: ShortAddress, command: nat): (State, QueryResult) {
    var request := QueryRequest(address, command, HIGH, s.client.timeoutMs, s.client.retries, s.client.sequence);
    var (after, processed) := AfterCall(env, s.pipeline, request);
    (after, QueryReply(processed))
  }

  function ScanOne(env: Environment, s: ScanState, address: ShortAddress, nowMs: nat): ScanState
    requires |s.slots| == ADDRESSES
  {
    var (after, result) := Ask(env, s, address, PRESENT_QUERY);
    var (slot, change) := ScanStep(s.slots[address], address, result, nowMs);
    ScanState(
      s.slots[address := slot], after, s.client.(sequence := NextSequence(s.client.sequence)),
      if change.None? then s.changes else WithChange(s.changes, Change(change.value, address, nowMs)))
  }

  function ScanFrom(env: Environment, s: ScanState, raw: nat, nowMs: nat): (after: ScanState)
    requires |s.slots| == ADDRESSES && raw <= ADDRESSES
    ensures |after.slots| == ADDRESSES
    decreases ADDRESSES - raw
  {
    if raw == ADDRESSES then s else ScanFrom(env, ScanOne(env, s, raw, nowMs), raw + 1, nowMs)
  }

  // ------------------------------------------------------------ capability probing

  datatype Probe = Probe(feature: nat, command: nat)

  // Basic status, device type, version, physical minimum, in this order.
  const PROBES: seq<Probe> := [Probe(0, 0x90), Probe(1, 0x99), Probe(2, 0x97), Probe(3, 0x9A)]

  function ProbedEntry(entry: CapabilityEntry, result: QueryResult): CapabilityEntry {
    if IsValidResponse(result) then CapabilityEntry(Supported, 0)
    else if IsBusFailure(result) || result.outcome.Collided? then entry
    else
      var misses :=
        if entry.consecutiveNoResponses < 2 then entry.consecutiveNoResponses + 1 else entry.consecutiveNoResponses;
      CapabilityEntry(if misses >= 2 then UnsupportedCapability else entry.state, misses)
  }

  // The reading a probe fills in; basic status fills in none.
  function ProbedRecord(record: DeviceRecord, feature: nat, result: QueryResult, nowMs: nat): DeviceRecord
    requires feature < FEATURES
  {
    var entry := ProbedEntry(record.capabilities[feature], result);
    var probed := record.(capabilities := record.capabilities[feature := entry]);
    var reading := Reading(result.response.value, ValidReading, nowMs);
    if !IsValidResponse(result) then probed
    else if feature == 1 then probed.(deviceType := reading)
    else if feature == 2 then probed.(version := reading)
    else if feature == 3 then probed.(physicalMinimum := reading)
    else probed
  }

  // An unsupported capability is not asked about again.
  function ProbeOne(env: Environment, s: ScanState, address: ShortAddress, probe: Probe, nowMs: nat): (after: ScanState)
    requires |s.slots| == ADDRESSES && probe.feature < FEATURES
    ensures |after.slots| == ADDRESSES
  {
    var slot := s.slots[address];
    if slot.record.None? || slot.record.value.capabilities[probe.feature].state.UnsupportedCapability? then s
    else
      var (after, result) := Ask(env, s, address, probe.command);
      var record := ProbedRecord(slot.record.value, probe.feature, result, nowMs);
      ScanState(s.slots[address := slot.(record := Some(record))], after,
                s.client.(sequence := NextSequence(s.client.sequence)), s.changes)
  }

  function ProbeFrom(env: Environment, s: ScanState, address: ShortAddress, k: nat, nowMs: nat): (after: ScanState)
    requires |s.slots| == ADDRESSES && k <= |PROBES|
    ensures |after.slots| == ADDRESSES
    decreases |PROBES| - k
  {
    if k == |PROBES| then s
    else ProbeFrom(env, ProbeOne(env, s, address, PROBES[k], nowMs), address, k + 1, nowMs)
  }

  // How many addresses have a record.
  function Registered(slots: seq<Slot>): nat {
    if slots == [] then 0 else (if slots[0].record.Some? then 1 else 0) + Registered(slots[1..])
  }

  lemma {:induction false} RegisteredUpdate(slots: seq<Slot>, i: nat, slot: Slot)
    requires i < |slots|
    ensures Registered(slots[i := slot]) == Registered(slots)
      - (if slots[i].record.Some? then 1 else 0) + (if slot.record.Some? then 1 else 0)
  {
    if i > 0 {
      assert slots[i := slot][1..] == slots[1..][i - 1 := slot];
      RegisteredUpdate(slots[1..], i - 1, slot);
    } else {
      assert slots[i := slot][1..] == slots[1..];
    }
  }

  lemma {:induction false} NoneRegistered(slots: seq<Slot>)
    requires forall i :: 0 <= i < |slots| ==> slots[i].record.None?
    ensures Registered(slots) == 0
  {
    if slots != [] { NoneRegistered(slots[1..]); }
  }

  class DaliDeviceManager {
    const client: PipelineQueryClient
    const records: array<Option<DeviceRecord>>
    const duplicateReported: array<bool>
    var count: nat

    ghost predicate Shape()
      reads client.pipeline.queue
    {
      records.Length == ADDRESSES && duplicateReported.Length == ADDRESSES && client.pipeline.Valid()
    }

    ghost function Slots(): (slots: seq<Slot>)
      requires Shape()
      reads client.pipeline.queue, records, duplicateReported
      ensures |slots| == ADDRESSES
    {
      seq(ADDRESSES, i requires 0 <= i < ADDRESSES && Shape() reads client.pipeline.queue, records, duplicateReported =>
        Slot(records[i], duplicateReported[i]))
    }

    ghost predicate Valid()
      reads this, client.pipeline.queue, records, duplicateReported
    {
      Shape() && count == Registered(Slots())
    }

    ghost function Now(batch: DiscoveryBatch): ScanState
      requires Shape() && batch.Valid()
      reads client, client.pipeline.queue, client.pipeline.Repr(), records, duplicateReported, batch, batch.changes
    {
      ScanState(Slots(), client.pipeline.Now(), Caller(client.timeoutMs, client.maximumRetries, client.nextSequence),
                batch.Contents())
    }

    constructor (client: PipelineQueryClient)
      requires client.pipeline.Valid()
      ensures Valid() && fresh(records) && fresh(duplicateReported)
      ensures this.client == client && Slots() == seq(ADDRESSES, i => EMPTY_SLOT)
    {
      this.client := client;
      records := new Option<DeviceRecord>[ADDRESSES](i => None);
      duplicateReported := new bool[ADDRESSES](i => false);
      count := 0;
      new;
      NoneRegistered(Slots());
    }

    // The registry's insert-or-touch.
    method Upsert(address: ShortAddress, nowMs: nat)
      requires Shape()
      modifies this, records
      ensures Shape() && (old(Valid()) ==> Valid())
      ensures records[address] == Some(
        if old(records[address]).None? then NewRecord(address, nowMs)
        else old(records[address]).value.(lastSeenUptimeMs := nowMs))
      ensures forall i :: 0 <= i < ADDRESSES && i != address ==> records[i] == old(records[i])
      ensures count == old(count) + if old(records[address]).None? then 1 else 0
    {
      ghost var before := Slots();
      if records[address].None? {
        records[address] := Some(NewRecord(address, nowMs));
        count := count + 1;
      } else {
        records[address] := Some(records[address].value.(lastSeenUptimeMs := nowMs));
      }
      RegisteredUpdate(before, address, before[address].(record := records[address]));
      assert Slots() == before[address := before[address].(record := records[address])];
    }

    method ScanPresence(nowMs: nat) returns (batch: DiscoveryBatch)
      requires Valid()
      modifies this, records, duplicateReported, client, client.pipeline.Repr()
      ensures Valid() && batch.Valid() && fresh(batch) && fresh(batch.changes)
      ensures Now(batch) == ScanFrom(
        client.pipeline.Env(),
        ScanState(old(Slots()), old(client.pipeline.Now()),
                  Caller(client.timeoutMs, client.maximumRetries, old(client.nextSequence)), []),
        0, nowMs)
    {
      hide ScanOne;
      batch := new DiscoveryBatch();
      ghost var start := Now(batch);
      for raw := 0 to ADDRESSES
        invariant Valid() && batch.Valid() && fresh(batch) && fresh(batch.changes)
        invariant ScanFrom(client.pipeline.Env(), Now(batch), raw, nowMs)
          == ScanFrom(client.pipeline.Env(), start, 0, nowMs)
      {
        ScanAddress(raw, nowMs, batch);
      }
    }

    // The body of the loop.
    method ScanAddress(address: ShortAddress, nowMs: nat, batch: DiscoveryBatch)
      requires Valid() && batch.Valid()
      modifies this, records, duplicateReported, client, client.pipeline.Repr(), batch, batch.changes
      ensures Valid() && batch.Valid()
      ensures Now(batch) == ScanOne(client.pipeline.Env(), old(Now(batch)), address, nowMs)
    {
      hide AfterCall;
      hide QueryReply;
      hide Registered;
      hide ScanStep;
      ghost var before := Slots();
      var result := client.Query(address, PRESENT_QUERY, HIGH);
      assert Slots() == before;
      ApplyResult(address, result, nowMs, batch);
    }

    method ApplyResult(address: ShortAddress, result: QueryResult, nowMs: nat, batch: DiscoveryBatch)
      requires Valid() && batch.Valid()
      modifies this, records, duplicateReported, batch, batch.changes
      ensures Valid() && batch.Valid()
      ensures var (slot, change) := ScanStep(old(Slots())[address], address, result, nowMs);
        && Slots() == old(Slots())[address := slot]
        && batch.Contents() == if change.None? then old(batch.Contents())
                               else WithChange(old(batch.Contents()), Change(change.value, address, nowMs))
    {
      hide Registered;
      hide WithChange;
      ghost var before := Slots();
      if IsValidResponse(result) {
        duplicateReported[address] := false;
        if records[address].None? {
          Upsert(address, nowMs);
          records[address] := Some(records[address].value.(
            lifecycle := Present, present := true, missedPresenceChecks := 0));
          var _ := batch.Add(Change(Discovered, address, nowMs));
        } else {
          var recovered := records[address].value.lifecycle.Missing?;
          records[address] := Some(records[address].value.(
            lifecycle := Present, present := true, missedPresenceChecks := 0, lastSeenUptimeMs := nowMs));
          if recovered { var _ := batch.Add(Change(Recovered, address, nowMs)); }
        }
      } else if result.outcome.Collided? {
        if records[address].Some? {
          records[address] := Some(records[address].value.(lifecycle := DuplicateAddress));
        }
        if !duplicateReported[address] {
          duplicateReported[address] := true;
          var _ := batch.Add(Change(DuplicateSuspected, address, nowMs));
        }
      } else if records[address].None? || IsBusFailure(result) || records[address].value.lifecycle.Missing? {
        assert Slots() == before[address := before[address]];
        return;
      } else {
        var record := records[address].value;
        if record.missedPresenceChecks < 3 {
          record := record.(missedPresenceChecks := record.missedPresenceChecks + 1);
        }
        if record.missedPresenceChecks >= 3 {
          record := record.(lifecycle := Missing, present := false);
          var _ := batch.Add(Change(WentMissing, address, nowMs));
        }
        records[address] := Some(record);
      }
      ghost var slot := Slot(records[address], duplicateReported[address]);
      assert Slots() == before[address := slot];
      RegisteredUpdate(before, address, slot);
    }

    // Four probes of one known device. The change batch stays empty.
    method DetectCoreCapabilities(address: ShortAddress, nowMs: nat) returns (changes: DiscoveryBatch)
      requires Valid()
      modifies this, records, client, client.pipeline.Repr()
      ensures Valid() && changes.Valid() && fresh(changes) && fresh(changes.changes)
      ensures Now(changes) == ProbeFrom(
        client.pipeline.Env(),
        ScanState(old(Slots()), old(client.pipeline.Now()),
                  Caller(client.timeoutMs, client.maximumRetries, old(client.nextSequence)), []),
        address, 0, nowMs)
    {
      hide ProbeOne;
      changes := new DiscoveryBatch();
      ghost var start := Now(changes);
      for k := 0 to |PROBES|
        invariant Valid() && changes.Valid() && fresh(changes) && fresh(changes.changes)
        invariant ProbeFrom(client.pipeline.Env(), Now(changes), address, k, nowMs)
          == ProbeFrom(client.pipeline.Env(), start, address, 0, nowMs)
      {
        ProbeAddress(address, PROBES[k], nowMs, changes);
      }
    }

    method ProbeAddress(address: ShortAddress, probe: Probe, nowMs: nat, ghost batch: DiscoveryBatch)
      requires Valid() && batch.Valid() && probe.feature < FEATURES
      modifies this, records, client, client.pipeline.Repr()
      ensures Valid() && batch.Valid()
      ensures Now(batch) == ProbeOne(client.pipeline.Env(), old(Now(batch)), address, probe, nowMs)
    {
      hide AfterCall;
      hide QueryReply;
      hide ProbedRecord;
      hide Registered;
      ghost var before := Slots();
      if records[address].None? || records[address].value.capabilities[probe.feature].state.UnsupportedCapability? {
        return;
      }
      var result := client.Query(address, probe.command, HIGH);
      assert Slots() == before;
      records[address] := Some(ProbedRecord(records[address].value, probe.feature, result, nowMs));
      ghost var slot := before[address].(record := records[address]);
      assert Slots() == before[address := slot];
      RegisteredUpdate(before, address, slot);
    }
  }
}
