/**
 The device manager over whole runs: scans and probing calls in any order, from an empty
 registry. Presence is what the scans have heard, each capability entry is what the
 answers to its own probes say, and a capability once given up is never asked about
 again.
 */
module DeviceRuns {
  import Sequences
  import Transaction

  import opened Wrappers
  import opened DaliBus
  import opened Pipeline
  import opened Presence
  import opened DeviceManager
  import opened Discovery
  import opened Capabilities

  datatype Call = ScanCall(nowMs: nat) | DetectCall(address: ShortAddress, nowMs: nat)

  function CallStep(env: Environment, s: ScanState, call: Call): (after: ScanState)
    requires |s.slots| == ADDRESSES
    ensures |after.slots| == ADDRESSES
  {
    match call
    case ScanCall(nowMs) => Scan(env, s, nowMs)
    case DetectCall(address, nowMs) => ProbeFrom(env, s.(changes := []), address, 0, nowMs)
  }

  function Calls(env: Environment, s: ScanState, calls: seq<Call>): (after: ScanState)
    requires |s.slots| == ADDRESSES
    ensures |after.slots| == ADDRESSES
  {
    if calls == [] then s
    else CallStep(env, Calls(env, s, calls[..|calls| - 1]), calls[|calls| - 1])
  }

  // ---------------------------------------------------------------- probes of one call

  // The first k probes.
  function ProbeUpTo(env: Environment, s: ScanState, address: ShortAddress, k: nat, nowMs: nat): (after: ScanState)
    requires |s.slots| == ADDRESSES && k <= |PROBES|
    ensures |after.slots| == ADDRESSES
  {
    if k == 0 then s
    else ProbeOne(env, ProbeUpTo(env, s, address, k - 1, nowMs), address, PROBES[k - 1], nowMs)
  }

  lemma {:induction false} ProbeFromMiddle(env: Environment, s: ScanState, address: ShortAddress, k: nat, nowMs: nat)
    requires |s.slots| == ADDRESSES && k <= |PROBES|
    ensures ProbeFrom(env, ProbeUpTo(env, s, address, k, nowMs), address, k, nowMs)
      == ProbeUpTo(env, s, address, |PROBES|, nowMs)
    decreases |PROBES| - k
  {
    hide ProbeOne;
    if k < |PROBES| { ProbeFromMiddle(env, s, address, k + 1, nowMs); }
  }

  // What is known of one capability; nothing for a device without a record.
  function Entry(s: ScanState, address: ShortAddress, feature: nat): Option<CapabilityEntry>
    requires |s.slots| == ADDRESSES && feature < FEATURES
  {
    var record := s.slots[address].record;
    if record.None? then None else Some(record.value.capabilities[feature])
  }

  predicate Open(entry: Option<CapabilityEntry>) { entry.Some? && !entry.value.state.UnsupportedCapability? }

  // What the probing call learns about a capability, if it asks.
  function Learned(env: Environment, s: ScanState, address: ShortAddress, feature: nat, nowMs: nat): Option<Observation>
    requires |s.slots| == ADDRESSES && feature < FEATURES
  {
    if feature >= |PROBES| then None
    else
      var here := ProbeUpTo(env, s, address, feature, nowMs);
      if !Open(Entry(here, address, feature)) then None
      else Some(Observation(Ask(env, here, address, PROBES[feature].command).1, nowMs))
  }

  function EntryWith(entry: Option<CapabilityEntry>, learned: Option<Observation>): Option<CapabilityEntry> {
    if entry.None? || learned.None? then entry else Some(ProbedEntry(entry.value, learned.value.result))
  }

  lemma {:induction false} ProbeNumber(k: nat)
    requires k < |PROBES|
    ensures PROBES[k].feature == k && PROBES[k].command < 256 && PROBES[k].command != PRESENT_QUERY
    ensures forall j :: 0 <= j < k ==> PROBES[j].command != PROBES[k].command
  {}

  lemma {:induction false} ProbeOneEffect(
      env: Environment, s: ScanState, a: ShortAddress, k: nat, nowMs: nat, b: ShortAddress, f: nat)
    requires |s.slots| == ADDRESSES && k < |PROBES| && f < FEATURES
    ensures var next, entry := ProbeOne(env, s, a, PROBES[k], nowMs), Entry(s, b, f);
      Entry(next, b, f) ==
        if b != a || f != k || !Open(entry) then entry
        else Some(ProbedEntry(entry.value, Ask(env, s, a, PROBES[k].command).1))
  {
    ProbeNumber(k);
    hide Ask;
    hide ProbedEntry;
    hide ProbedRecord;
    if Open(Entry(s, a, k)) {
      var _ := ProbeMovesOneEntry(env, s, a, PROBES[k], nowMs);
    } else {
      UnsupportedIsSilent(env, s, a, PROBES[k], nowMs);
    }
    hide ProbeOne;
  }

  lemma {:induction false} ProbeUpToEffect(
      env: Environment, s: ScanState, a: ShortAddress, k: nat, nowMs: nat, b: ShortAddress, f: nat)
    requires |s.slots| == ADDRESSES && k <= |PROBES| && f < FEATURES
    ensures Entry(ProbeUpTo(env, s, a, k, nowMs), b, f)
      == if b == a && f < k then EntryWith(Entry(s, b, f), Learned(env, s, a, f, nowMs)) else Entry(s, b, f)
  {
    hide ProbeOne;
    hide Ask;
    hide Entry;
    hide ProbedEntry;
    if k > 0 {
      ProbeUpToEffect(env, s, a, k - 1, nowMs, b, f);
      ProbeOneEffect(env, ProbeUpTo(env, s, a, k - 1, nowMs), a, k - 1, nowMs, b, f);
    }
  }

  // ------------------------------------------------------------------- one call

  function LearnedBy(
      env: Environment, s: ScanState, call: Call, address: ShortAddress, feature: nat): Option<Observation>
    requires |s.slots| == ADDRESSES && feature < FEATURES
  {
    if call.DetectCall? && call.address == address
    then Learned(env, s.(changes := []), address, feature, call.nowMs) else None
  }

  lemma {:induction false} ScanStepKeepsEntries(slot: Slot, address: ShortAddress, result: QueryResult, nowMs: nat)
    ensures var after := ScanStep(slot, address, result, nowMs).0;
      && (slot.record.Some? ==> after.record.Some? && after.record.value.capabilities == slot.record.value.capabilities)
      && (slot.record.None? && after.record.Some? ==>
            forall f :: 0 <= f < FEATURES ==> after.record.value.capabilities[f] == UNPROBED)
  {}

  // An entry moves by what the call learns about it; a scan may open a record.
  lemma {:induction false} CallEffect(env: Environment, s: ScanState, call: Call, a: ShortAddress, f: nat)
    requires |s.slots| == ADDRESSES && f < FEATURES
    ensures var entry, after := Entry(s, a, f), Entry(CallStep(env, s, call), a, f);
      && (after == EntryWith(entry, LearnedBy(env, s, call, a, f)) || (entry == None && after == Some(UNPROBED)))
      && (LearnedBy(env, s, call, a, f).Some? ==> Open(entry))
  {
    var start := s.(changes := []);
    match call
    case ScanCall(nowMs) =>
      ScanIsPointwise(env, start, 0, nowMs, a);
      ScanStepKeepsEntries(s.slots[a], a, Answers(env, start, 0, nowMs)[a], nowMs);
      hide ScanFrom;
      hide ScanStep;
      hide Answers;
    case DetectCall(b, nowMs) =>
      ProbeFromMiddle(env, start, b, 0, nowMs);
      ProbeUpToEffect(env, start, b, |PROBES|, nowMs, a, f);
      if f < |PROBES| { ProbeUpToEffect(env, start, a, f, nowMs, a, f); }
      hide ProbeFrom;
      hide ProbeUpTo;
      hide ProbedEntry;
      hide Ask;
  }

  // ------------------------------------------------------------------- whole runs

  // The answers the probes of one capability of one device have got, in order.
  function ProbeHistory(env: Environment, s: ScanState, calls: seq<Call>, address: ShortAddress, feature: nat): History
    requires |s.slots| == ADDRESSES && feature < FEATURES
  {
    if calls == [] then []
    else
      var before := calls[..|calls| - 1];
      var learned := LearnedBy(env, Calls(env, s, before), calls[|calls| - 1], address, feature);
      ProbeHistory(env, s, before, address, feature) + (if learned.Some? then [learned.value] else [])
  }

  lemma {:induction false} EntryGrows(h: History, o: Observation)
    ensures EntryAfter(h + [o])
      == if EntryAfter(h).state.UnsupportedCapability? then EntryAfter(h) else ProbedEntry(EntryAfter(h), o.result)
  {
    hide ProbedEntry;
    assert AllBut(h + [o]) == h && Last(h + [o]) == o;
  }

  lemma {:induction false} EntriesFollowHistories(
      env: Environment, s: ScanState, calls: seq<Call>, a: ShortAddress, f: nat)
    requires Fresh(s) && f < FEATURES
    ensures var entry, h := Entry(Calls(env, s, calls), a, f), ProbeHistory(env, s, calls, a, f);
      && (entry.Some? ==> entry.value == EntryAfter(h))
      && (entry.None? ==> h == [])
  {
    hide CallStep;
    hide LearnedBy;
    hide ProbedEntry;
    hide EntryAfter;
    if calls != [] {
      var before, call := calls[..|calls| - 1], calls[|calls| - 1];
      EntriesFollowHistories(env, s, before, a, f);
      CallEffect(env, Calls(env, s, before), call, a, f);
      var learned, h := LearnedBy(env, Calls(env, s, before), call, a, f), ProbeHistory(env, s, before, a, f);
      hide Entry;
      if learned.Some? { EntryGrows(h, learned.value); }
      Sequences.Unit(h);
      NothingLearned();
    }
  }

  lemma {:induction false} NothingLearned()
    ensures EntryAfter([]) == UNPROBED
  {}

  // The main result on capability runs: in any interleaving of scans and probing calls,
  // over any bus, each entry says of its capability exactly what the answers to its own
  // probes say: given up once two of them in a row were misses, else supported if it
  // ever answered.
  lemma {:induction false} EntriesTell(env: Environment, s: ScanState, calls: seq<Call>, a: ShortAddress, f: nat)
    requires Fresh(s) && f < FEATURES
    ensures var entry, h := Entry(Calls(env, s, calls), a, f), ProbeHistory(env, s, calls, a, f);
      && (entry.Some? ==> EntryTells(entry.value, GaveUp(h), Known(h), Misses(h)))
      && (entry.None? ==> h == [] && !GaveUp(h))
  {
    hide GaveUp;
    hide Misses;
    hide Known;
    hide EntryTells;
    hide EntryAfter;
    hide ProbeHistory;
    hide Calls;
    hide Entry;
    var h := ProbeHistory(env, s, calls, a, f);
    EntriesFollowHistories(env, s, calls, a, f);
    CapabilityFromHistory(h);
    NotGivenUpYet();
  }

  lemma {:induction false} NotGivenUpYet()
    ensures !GaveUp([])
  {
    NeverProbed();
    hide GaveUp;
    hide Misses;
    hide Known;
  }

  // ------------------------------------------------------------ presence, meanwhile

  // Probing leaves presence and the duplicate latch alone.
  lemma {:induction false} ProbeKeepsPresence(
      env: Environment, s: ScanState, a: ShortAddress, k: nat, nowMs: nat, b: ShortAddress, summary: Summary)
    requires |s.slots| == ADDRESSES && k < |PROBES| && SlotTells(b, summary, s.slots[b])
    ensures SlotTells(b, summary, ProbeOne(env, s, a, PROBES[k], nowMs).slots[b])
  {
    ProbeNumber(k);
    hide Ask;
    hide ProbedEntry;
    hide ProbedRecord;
    hide Summary.Lifecycle;
    if Open(Entry(s, a, k)) {
      var _ := ProbeMovesOneEntry(env, s, a, PROBES[k], nowMs);
    } else {
      UnsupportedIsSilent(env, s, a, PROBES[k], nowMs);
    }
    hide ProbeOne;
  }

  lemma {:induction false} ProbesKeepPresence(
      env: Environment, s: ScanState, a: ShortAddress, k: nat, nowMs: nat, b: ShortAddress, summary: Summary)
    requires |s.slots| == ADDRESSES && k <= |PROBES| && SlotTells(b, summary, s.slots[b])
    ensures SlotTells(b, summary, ProbeUpTo(env, s, a, k, nowMs).slots[b])
  {
    hide ProbeOne;
    hide SlotTells;
    if k > 0 {
      ProbesKeepPresence(env, s, a, k - 1, nowMs, b, summary);
      ProbeKeepsPresence(env, ProbeUpTo(env, s, a, k - 1, nowMs), a, k - 1, nowMs, b, summary);
    }
  }

  // What the scans of a run have heard from one address.
  function ScanHistory(env: Environment, s: ScanState, calls: seq<Call>, address: ShortAddress): History
    requires |s.slots| == ADDRESSES
  {
    if calls == [] then []
    else
      var before, call := calls[..|calls| - 1], calls[|calls| - 1];
      var h := ScanHistory(env, s, before, address);
      match call
      case ScanCall(nowMs) => h + [Heard(env, Calls(env, s, before), nowMs, address)]
      case DetectCall(_, _) => h
  }

  function Heard(env: Environment, s: ScanState, nowMs: nat, address: ShortAddress): Observation
    requires |s.slots| == ADDRESSES
  {
    Observation(Answers(env, s.(changes := []), 0, nowMs)[address], nowMs)
  }

  lemma {:induction false} SummaryOfOneMore(h: History, o: Observation)
    ensures Summarise(h + [o]) == SummaryStep(Summarise(h), KindOf(o.result), o.nowMs)
    ensures Summarise(h).endsInClash ==> Summarise(h).clashed
  {
    var grown := h + [o];
    assert AllBut(grown) == h && Last(grown) == o;
    SummaryGrows(grown);
    if EndsInClash(h) { EndsInClashClashed(h); }
    hide SummaryStep;
    hide KindOf;
    hide Known;
    hide Misses;
    hide Clashed;
    hide EndsInClash;
    hide LastAnswer;
    hide FirstAnswer;
  }

  lemma {:induction false} HeardTells(address: ShortAddress, h: History, slot: Slot, o: Observation)
    requires SlotTells(address, Summarise(h), slot)
    ensures SlotTells(address, Summarise(h + [o]), ScanStep(slot, address, o.result, o.nowMs).0)
    ensures ChangeTells(Summarise(h), KindOf(o.result), ScanStep(slot, address, o.result, o.nowMs).1)
  {
    hide *;
    SummaryOfOneMore(h, o);
    StepTells(address, Summarise(h), slot, o.result, o.nowMs);
    StepReports(address, Summarise(h), slot, o.result, o.nowMs);
  }

  lemma {:induction false} NothingHeard(address: ShortAddress)
    ensures SlotTells(address, Summarise([]), EMPTY_SLOT)
  {
    RecordFromHistory(address, []);
    hide SlotTells;
    hide Summarise;
  }

  // Presence is what the scans have heard, however much probing went on between them.
  lemma {:induction false} PresenceFollowsScans(env: Environment, s: ScanState, calls: seq<Call>, a: ShortAddress)
    requires Fresh(s)
    ensures SlotTells(a, Summarise(ScanHistory(env, s, calls, a)), Calls(env, s, calls).slots[a])
  {
    hide SlotTells;
    hide Summarise;
    hide ScanStep;
    hide ScanFrom;
    hide ProbeFrom;
    hide Answers;
    if calls == [] {
      NothingHeard(a);
    } else {
      var before, call := calls[..|calls| - 1], calls[|calls| - 1];
      PresenceFollowsScans(env, s, before, a);
      var state, h := Calls(env, s, before), ScanHistory(env, s, before, a);
      var start := state.(changes := []);
      match call
      case ScanCall(nowMs) =>
        ScanIsPointwise(env, start, 0, nowMs, a);
        HeardTells(a, h, state.slots[a], Heard(env, state, nowMs, a));
      case DetectCall(b, nowMs) =>
        ProbeFromMiddle(env, start, b, 0, nowMs);
        ProbesKeepPresence(env, start, b, |PROBES|, nowMs, a, Summarise(h));
    }
  }

  // And a scan of such a run lists for each address exactly the change that what it has
  // heard from there calls for, if any.
  lemma {:induction false} ReportsFollowScans(
      env: Environment, s: ScanState, calls: seq<Call>, nowMs: nat, a: ShortAddress)
    returns (change: Option<ChangeType>)
    requires Fresh(s)
    ensures var heard := Heard(env, Calls(env, s, calls), nowMs, a);
      ChangeTells(Summarise(ScanHistory(env, s, calls, a)), KindOf(heard.result), change)
    ensures forall c: Change :: c.address == a ==>
      (c in CallStep(env, Calls(env, s, calls), ScanCall(nowMs)).changes
       <==> change == Some(c.changeType) && c.uptimeMs == nowMs)
  {
    hide SlotTells;
    hide ChangeTells;
    hide Summarise;
    hide ScanStep;
    hide ScanFrom;
    hide Answers;
    hide KindOf;
    hide ScanHistory;
    hide Calls;
    var state := Calls(env, s, calls);
    var start, heard := state.(changes := []), Heard(env, state, nowMs, a);
    PresenceFollowsScans(env, s, calls, a);
    HeardTells(a, ScanHistory(env, s, calls, a), state.slots[a], heard);
    change := ScanStep(state.slots[a], a, heard.result, nowMs).1;
    ScanKeepsChanges(env, start, 0, nowMs);
    var answers := Answers(env, start, 0, nowMs);
    forall c: Change | c.address == a
      ensures c in ChangesFrom(start.slots, answers, 0, nowMs) <==> change == Some(c.changeType) && c.uptimeMs == nowMs
    {
      BatchLists(start.slots, answers, 0, nowMs, c);
    }
    hide ChangesFrom;
    Sequences.Unit(ChangesFrom(start.slots, answers, 0, nowMs));
  }

  // ----------------------------------------------------------------------- silence

  // None of these events sends this frame.
  ghost predicate Silent(events: Trace, frame: nat) {
    forall i :: 0 <= i < |events| && events[i].Transmitted? ==> events[i].frame != frame
  }

  lemma {:induction false} SilentConcat(x: Trace, y: Trace, frame: nat)
    requires Silent(x, frame) && Silent(y, frame)
    ensures Silent(x + y, frame)
  {}

  lemma {:induction false} FramesDiffer(a: ShortAddress, x: nat, b: ShortAddress, y: nat)
    requires x < 256 && y < 256 && (a != b || x != y)
    ensures ShortCommandFrame(a, x) != ShortCommandFrame(b, y)
  {}

  // One query on an empty queue sends its own frame only, valid client or not.
  lemma {:induction false} AskOnBus(
      env: Environment, s: ScanState, a: ShortAddress, command: nat) returns (events: Trace)
    requires s.pipeline.queue == []
    ensures var after := Ask(env, s, a, command).0;
      && after.queue == [] && after.trace == s.pipeline.trace + events
      && Transaction.OnlyFrame(events, ShortCommandFrame(a, command))
  {
    var request := QueryRequest(a, command, HIGH, s.client.timeoutMs, s.client.retries, s.client.sequence);
    CallOnEmpty(env, s.pipeline, request);
    if Transaction.ValidRequest(request) {
      events := Transaction.TransactionTrace(env, s.pipeline.trace, request);
    } else {
      events := [];
      Sequences.Unit(s.pipeline.trace);
    }
  }

  lemma {:induction false} AskSilent(
      env: Environment, s: ScanState, a: ShortAddress, command: nat, b: ShortAddress, other: nat)
    returns (events: Trace)
    requires s.pipeline.queue == [] && command < 256 && other < 256 && (a != b || command != other)
    ensures var after := Ask(env, s, a, command).0;
      && after.queue == [] && after.trace == s.pipeline.trace + events
      && Silent(events, ShortCommandFrame(b, other))
  {
    hide Ask;
    events := AskOnBus(env, s, a, command);
    FramesDiffer(a, command, b, other);
    hide ShortCommandFrame;
  }

  // A scan asks nothing but presence.
  lemma {:induction false} ScanSilent(
      env: Environment, s: ScanState, raw: nat, nowMs: nat, b: ShortAddress, other: nat) returns (events: Trace)
    requires |s.slots| == ADDRESSES && raw <= ADDRESSES && s.pipeline.queue == []
    requires other < 256 && other != PRESENT_QUERY
    ensures var after := ScanFrom(env, s, raw, nowMs);
      && after.pipeline.queue == [] && after.pipeline.trace == s.pipeline.trace + events
      && Silent(events, ShortCommandFrame(b, other))
    decreases ADDRESSES - raw
  {
    hide Ask;
    hide ScanStep;
    hide Silent;
    hide ShortCommandFrame;
    if raw == ADDRESSES {
      events := [];
      NoEventsSilent(ShortCommandFrame(b, other));
    } else {
      var first := AskSilent(env, s, raw, PRESENT_QUERY, b, other);
      var rest := ScanSilent(env, ScanOne(env, s, raw, nowMs), raw + 1, nowMs, b, other);
      events := first + rest;
      SilentConcat(first, rest, ShortCommandFrame(b, other));
      Sequences.Associative(s.pipeline.trace, first, rest);
    }
  }

  lemma {:induction false} NoEventsSilent(frame: nat)
    ensures Silent([], frame)
  {}

  // A probing call asks nothing about a capability given up.
  lemma {:induction false} ProbesSilent(
      env: Environment, s: ScanState, a: ShortAddress, k: nat, nowMs: nat, b: ShortAddress, j: nat)
    returns (events: Trace)
    requires |s.slots| == ADDRESSES && k <= |PROBES| && j < |PROBES| && s.pipeline.queue == []
    requires a == b ==> !Open(Entry(s, b, j))
    ensures var after := ProbeUpTo(env, s, a, k, nowMs);
      && after.pipeline.queue == [] && after.pipeline.trace == s.pipeline.trace + events
      && Silent(events, ShortCommandFrame(b, PROBES[j].command))
  {
    hide Ask;
    hide ShortCommandFrame;
    var frame := ShortCommandFrame(b, PROBES[j].command);
    if k == 0 {
      events := [];
      NoEventsSilent(frame);
    } else {
      var here := ProbeUpTo(env, s, a, k - 1, nowMs);
      var first := ProbesSilent(env, s, a, k - 1, nowMs, b, j);
      if a == b { ProbeUpToEffect(env, s, a, k - 1, nowMs, b, j); StaysClosed(env, s, a, j, nowMs); }
      var rest := OneProbeSilent(env, here, a, k - 1, nowMs, b, j);
      events := first + rest;
      hide Silent;
      SilentConcat(first, rest, frame);
      Sequences.Associative(s.pipeline.trace, first, rest);
    }
  }

  lemma {:induction false} StaysClosed(env: Environment, s: ScanState, a: ShortAddress, f: nat, nowMs: nat)
    requires |s.slots| == ADDRESSES && f < FEATURES && !Open(Entry(s, a, f))
    ensures EntryWith(Entry(s, a, f), Learned(env, s, a, f, nowMs)) == Entry(s, a, f)
  {
    hide ProbedEntry;
    hide Ask;
    hide ProbeUpTo;
    if f < |PROBES| { ProbeUpToEffect(env, s, a, f, nowMs, a, f); }
  }

  lemma {:induction false} OneProbeSilent(
      env: Environment, s: ScanState, a: ShortAddress, k: nat, nowMs: nat, b: ShortAddress, j: nat)
    returns (events: Trace)
    requires |s.slots| == ADDRESSES && k < |PROBES| && j < |PROBES| && s.pipeline.queue == []
    requires a == b && k == j ==> !Open(Entry(s, b, j))
    ensures var after := ProbeOne(env, s, a, PROBES[k], nowMs);
      && after.pipeline.queue == [] && after.pipeline.trace == s.pipeline.trace + events
      && Silent(events, ShortCommandFrame(b, PROBES[j].command))
  {
    ProbeNumber(k);
    ProbeNumber(j);
    hide Ask;
    hide ProbedRecord;
    hide ShortCommandFrame;
    if Open(Entry(s, a, k)) {
      events := AskSilent(env, s, a, PROBES[k].command, b, PROBES[j].command);
    } else {
      UnsupportedIsSilent(env, s, a, PROBES[k], nowMs);
      events := [];
      Sequences.Unit(s.pipeline.trace);
    }
  }

  lemma {:induction false} CallSilent(
      env: Environment, s: ScanState, call: Call, b: ShortAddress, j: nat) returns (events: Trace)
    requires |s.slots| == ADDRESSES && j < |PROBES| && s.pipeline.queue == []
    requires call.DetectCall? && call.address == b ==> !Open(Entry(s, b, j))
    ensures var after := CallStep(env, s, call);
      && after.pipeline.queue == [] && after.pipeline.trace == s.pipeline.trace + events
      && Silent(events, ShortCommandFrame(b, PROBES[j].command))
  {
    hide ScanFrom;
    hide ProbeFrom;
    hide Silent;
    hide ShortCommandFrame;
    ProbeNumber(j);
    var start := s.(changes := []);
    match call
    case ScanCall(nowMs) =>
      events := ScanSilent(env, start, 0, nowMs, b, PROBES[j].command);
    case DetectCall(a, nowMs) =>
      ProbeFromMiddle(env, start, a, 0, nowMs);
      events := ProbesSilent(env, start, a, |PROBES|, nowMs, b, j);
  }

  // Only the empty queue of this is needed below.
  lemma {:induction false} CallKeepsQueueEmpty(env: Environment, s: ScanState, call: Call)
    requires |s.slots| == ADDRESSES && s.pipeline.queue == []
    ensures CallStep(env, s, call).pipeline.queue == []
  {
    hide CallStep;
    var other: ShortAddress := if call.DetectCall? && call.address == 0 then 1 else 0;
    var _ := CallSilent(env, s, call, other, 0);
  }

  lemma {:induction false} CallsKeepQueueEmpty(env: Environment, s: ScanState, calls: seq<Call>)
    requires |s.slots| == ADDRESSES && s.pipeline.queue == []
    ensures Calls(env, s, calls).pipeline.queue == []
  {
    hide CallStep;
    if calls != [] {
      var before := calls[..|calls| - 1];
      CallsKeepQueueEmpty(env, s, before);
      CallKeepsQueueEmpty(env, Calls(env, s, before), calls[|calls| - 1]);
    }
  }

  // Giving up is for good: once the probes of a capability have been given up, its
  // command is never again sent to that address, whatever is called later.
  lemma {:induction false} GivenUpIsSilent(
      env: Environment, s: ScanState, calls: seq<Call>, n: nat, a: ShortAddress, k: nat) returns (events: Trace)
    requires Fresh(s) && s.pipeline.queue == [] && n <= |calls| && k < |PROBES|
    requires GaveUp(ProbeHistory(env, s, calls[..n], a, k))
    ensures var after := Calls(env, s, calls);
      && after.pipeline.trace == Calls(env, s, calls[..n]).pipeline.trace + events
      && Silent(events, ShortCommandFrame(a, PROBES[k].command))
      && Entry(after, a, k) == Entry(Calls(env, s, calls[..n]), a, k)
    decreases |calls| - n
  {
    hide CallStep;
    hide GaveUp;
    hide ProbeHistory;
    hide Silent;
    hide ShortCommandFrame;
    hide LearnedBy;
    hide Entry;
    GivenUpIsClosed(env, s, calls[..n], a, k);
    if n == |calls| {
      assert calls[..n] == calls;
      events := [];
      NoEventsSilent(ShortCommandFrame(a, PROBES[k].command));
      Sequences.Unit(Calls(env, s, calls).pipeline.trace);
    } else {
      var before, call := calls[..|calls| - 1], calls[|calls| - 1];
      assert before[..n] == calls[..n];
      var first := GivenUpIsSilent(env, s, before, n, a, k);
      CallsKeepQueueEmpty(env, s, before);
      var rest := ClosedCallSilent(env, Calls(env, s, before), call, a, k);
      events := first + rest;
      SilentConcat(first, rest, ShortCommandFrame(a, PROBES[k].command));
      Sequences.Associative(Calls(env, s, calls[..n]).pipeline.trace, first, rest);
    }
  }

  // One more call, once the entry is closed.
  lemma {:induction false} ClosedCallSilent(env: Environment, s: ScanState, call: Call, a: ShortAddress, k: nat)
    returns (events: Trace)
    requires |s.slots| == ADDRESSES && k < |PROBES| && s.pipeline.queue == []
    requires Entry(s, a, k).Some? && !Open(Entry(s, a, k))
    ensures var after := CallStep(env, s, call);
      && after.pipeline.trace == s.pipeline.trace + events
      && Silent(events, ShortCommandFrame(a, PROBES[k].command))
      && Entry(after, a, k) == Entry(s, a, k)
  {
    hide CallStep;
    hide Silent;
    hide ShortCommandFrame;
    hide LearnedBy;
    hide ProbedEntry;
    CallEffect(env, s, call, a, k);
    events := CallSilent(env, s, call, a, k);
  }

  // A capability given up belongs to a record, and its entry is closed.
  lemma {:induction false} GivenUpIsClosed(env: Environment, s: ScanState, calls: seq<Call>, a: ShortAddress, k: nat)
    requires Fresh(s) && k < |PROBES| && GaveUp(ProbeHistory(env, s, calls, a, k))
    ensures Entry(Calls(env, s, calls), a, k).Some? && !Open(Entry(Calls(env, s, calls), a, k))
  {
    hide GaveUp;
    hide Misses;
    hide Known;
    hide ProbeHistory;
    hide Calls;
    hide Entry;
    EntriesTell(env, s, calls, a, k);
  }

  // ------------------------------------------------------------------ what is asked

  // The commands of the four probes.
  function CommandOf(k: nat): nat
    requires k < 4
  {
    if k == 0 then 0x90 else if k == 1 then 0x99 else if k == 2 then 0x97 else 0x9A
  }

  lemma {:induction false} ProbeFrame(a: ShortAddress, k: nat)
    requires k < |PROBES|
    ensures |PROBES| == 4 && ShortCommandFrame(a, PROBES[k].command) == 256 * (2 * a + 1) + CommandOf(k)
  {}

  lemma {:induction false} SilentSent(events: Trace, frame: nat)
    requires Silent(events, frame)
    ensures Sent(events, frame) == 0
  {
    if events != [] {
      assert forall i :: 0 <= i < |events| - 1 ==> events[1..][i] == events[i + 1];
      SilentSent(events[1..], frame);
    }
  }

  lemma {:induction false} AskSent(env: Environment, s: ScanState, a: ShortAddress, command: nat)
    returns (events: Trace)
    requires s.pipeline.queue == [] && ValidClient(s.client)
    ensures var after := Ask(env, s, a, command).0;
      && after.queue == [] && after.trace == s.pipeline.trace + events
      && 1 <= Sent(events, ShortCommandFrame(a, command)) <= s.client.retries + 1
  {
    var request := QueryRequest(a, command, HIGH, s.client.timeoutMs, s.client.retries, s.client.sequence);
    CallOnEmpty(env, s.pipeline, request);
    events := QueryCost(env, s.pipeline.trace, request);
    Transaction.OnlyFrameSent(events, request.frame, request.frame);
  }

  lemma {:induction false} OneProbeSent(env: Environment, s: ScanState, a: ShortAddress, k: nat, nowMs: nat, j: nat)
    returns (events: Trace)
    requires |s.slots| == ADDRESSES && k < |PROBES| && j < |PROBES|
    requires s.pipeline.queue == [] && ValidClient(s.client)
    ensures var after := ProbeOne(env, s, a, PROBES[k], nowMs);
      var sent := Sent(events, ShortCommandFrame(a, PROBES[j].command));
      && after.pipeline.queue == [] && after.pipeline.trace == s.pipeline.trace + events
      && after.client.timeoutMs == s.client.timeoutMs && after.client.retries == s.client.retries
      && (if j == k && Open(Entry(s, a, j)) then 1 <= sent <= s.client.retries + 1 else sent == 0)
  {
    hide Ask;
    hide ProbedRecord;
    hide ShortCommandFrame;
    hide Sent;
    ProbeNumber(k);
    if j == k && Open(Entry(s, a, j)) {
      events := AskSent(env, s, a, PROBES[j].command);
    } else {
      events := OneProbeSilent(env, s, a, k, nowMs, a, j);
      SilentSent(events, ShortCommandFrame(a, PROBES[j].command));
    }
  }

  lemma {:induction false} ProbesSent(env: Environment, s: ScanState, a: ShortAddress, k: nat, nowMs: nat, j: nat)
    returns (events: Trace)
    requires |s.slots| == ADDRESSES && k <= |PROBES| && j < |PROBES|
    requires s.pipeline.queue == [] && ValidClient(s.client)
    ensures var after, sent := ProbeUpTo(env, s, a, k, nowMs), Sent(events, ShortCommandFrame(a, PROBES[j].command));
      && after.pipeline.queue == [] && after.pipeline.trace == s.pipeline.trace + events
      && after.client.timeoutMs == s.client.timeoutMs && after.client.retries == s.client.retries
      && (if j < k && Open(Entry(s, a, j)) then 1 <= sent <= s.client.retries + 1 else sent == 0)
  {
    hide Ask;
    hide ProbedRecord;
    hide ShortCommandFrame;
    var frame := ShortCommandFrame(a, PROBES[j].command);
    if k == 0 {
      events := [];
    } else {
      var here := ProbeUpTo(env, s, a, k - 1, nowMs);
      var first := ProbesSent(env, s, a, k - 1, nowMs, j);
      ProbeUpToEffect(env, s, a, k - 1, nowMs, a, j);
      ProbeNumber(k - 1);
      var rest := OneProbeSent(env, here, a, k - 1, nowMs, j);
      events := first + rest;
      SentConcat(first, rest, frame);
      Sequences.Associative(s.pipeline.trace, first, rest);
    }
  }

  // A probing call sends a capability's own command, 0x90, 0x99, 0x97 or 0x9A, to its own
  // address exactly if the device is known and the capability not given up.
  lemma {:induction false} CallAsksIff(env: Environment, s: ScanState, a: ShortAddress, nowMs: nat, j: nat)
    returns (events: Trace)
    requires |s.slots| == ADDRESSES && j < 4 && s.pipeline.queue == [] && ValidClient(s.client)
    ensures var after, sent := CallStep(env, s, DetectCall(a, nowMs)), Sent(events, 256 * (2 * a + 1) + CommandOf(j));
      && after.pipeline.trace == s.pipeline.trace + events
      && (if Open(Entry(s, a, j)) then 1 <= sent <= s.client.retries + 1 else sent == 0)
  {
    hide ProbeFrom;
    hide ProbeUpTo;
    hide CommandOf;
    var start := s.(changes := []);
    ProbeFromMiddle(env, start, a, 0, nowMs);
    ProbeFrame(a, j);
    assert ProbeUpTo(env, start, a, 0, nowMs) == start by { NoProbes(env, start, a, nowMs); }
    events := ProbesSent(env, start, a, |PROBES|, nowMs, j);
  }

  lemma {:induction false} NoProbes(env: Environment, s: ScanState, a: ShortAddress, nowMs: nat)
    requires |s.slots| == ADDRESSES
    ensures ProbeUpTo(env, s, a, 0, nowMs) == s
  {}
}
