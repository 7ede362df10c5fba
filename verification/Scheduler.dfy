/**
 The polling scheduler: 64 slots of 6 poll kinds, searched round robin from a cursor,
 subject to bus-load admission. Utilisations and limits are reals.
 */
module Scheduler {
  import opened Wrappers

  const LIGHTS := 64
  const KINDS := 6

  datatype PollKind = Status | Presence | Electrical | Temperature | Lifetime | Identity | Count

  datatype PollPriority = Critical | High | Normal | Low

  datatype LightPollContext = LightPollContext(
    commandedOn: bool, warningActive: bool, recentFault: bool, observationStartedMs: nat)

  datatype PollRequest = PollRequest(
    address: nat, kind: PollKind, priority: PollPriority, estimatedDurationMs: nat)

  type DueTimes = d: seq<nat> | |d| == KINDS witness [0, 0, 0, 0, 0, 0]

  datatype PollSlot = PollSlot(configured: bool, context: LightPollContext, dueMs: DueTimes)

  const IDLE := PollSlot(false, LightPollContext(false, false, false, 0), [0, 0, 0, 0, 0, 0])

  function KindAt(index: nat): (kind: PollKind)
    requires index < KINDS
    ensures kind != Count && IndexOf(kind) == index
  {
    if index == 0 then Status else if index == 1 then Presence else if index == 2 then Electrical
    else if index == 3 then Temperature else if index == 4 then Lifetime else Identity
  }

  function IndexOf(kind: PollKind): (index: nat)
    ensures kind != Count ==> index < KINDS
  {
    match kind
    case Status => 0 case Presence => 1 case Electrical => 2 case Temperature => 3
    case Lifetime => 4 case Identity => 5 case Count => 6
  }

  function ConfiguredSlot(context: LightPollContext, nowMs: nat): PollSlot {
    PollSlot(true, context,
      [nowMs, nowMs + 30000, nowMs + 60000, nowMs + 60000, nowMs + 21600000, nowMs + 86400000])
  }

  function PriorityFor(kind: PollKind, context: LightPollContext): PollPriority {
    if kind.Status? && (context.warningActive || context.recentFault) then Critical
    else if kind.Status? || kind.Presence? then High
    else if kind.Identity? || kind.Lifetime? then Low
    else Normal
  }

  function IntervalFor(kind: PollKind, context: LightPollContext, nowMs: nat): nat {
    match kind
    case Status =>
      var elapsed := if nowMs >= context.observationStartedMs then nowMs - context.observationStartedMs else 0;
      if (context.warningActive || context.recentFault) && elapsed < 60000 then 2000
      else if (context.warningActive || context.recentFault) && elapsed < 360000 then 5000
      else if context.commandedOn then 5000 else 30000
    case Presence => 30000
    case Electrical => if context.warningActive || context.recentFault then 10000 else 60000
    case Temperature => if context.warningActive then 10000 else 60000
    case Lifetime => 21600000
    case Identity => 86400000
    case Count => 0
  }

  datatype Load = Load(utilisation: real, normalLimit: real, diagnosticLimit: real)

  predicate Admit(request: PollRequest, load: Load) {
    var limit := if request.priority.Critical? then load.diagnosticLimit else load.normalLimit;
    load.utilisation >= 0.0 && load.utilisation < limit && request.estimatedDurationMs > 0
  }

  function RequestFor(address: nat, index: nat, context: LightPollContext): PollRequest
    requires index < KINDS
  {
    PollRequest(address, KindAt(index), PriorityFor(KindAt(index), context), 100)
  }

  // ------------------------------------------------------------- one search, by itself

  // This kind is due at this slot and the bus has room for it.
  predicate Ready(slot: PollSlot, address: nat, index: nat, nowMs: nat, load: Load)
    requires index < KINDS
  {
    slot.configured && slot.dueMs[index] <= nowMs && Admit(RequestFor(address, index, slot.context), load)
  }

  predicate Eligible(slot: PollSlot, address: nat, nowMs: nat, load: Load) {
    exists index :: 0 <= index < KINDS && Ready(slot, address, index, nowMs, load)
  }

  // Positions counted from the cursor, wrapping at 64.
  function Around(cursor: nat, offset: nat): nat { (cursor + offset) % LIGHTS }

  datatype SchedulerState = SchedulerState(slots: seq<PollSlot>, cursor: nat)

  ghost predicate ValidState(s: SchedulerState) { |s.slots| == LIGHTS && s.cursor < LIGHTS }

  // What the search promises: the first eligible address from the cursor on, its first
  // ready kind, and the cursor just past it; nothing, and nothing changed, if no address
  // is eligible.
  ghost predicate Picks(s: SchedulerState, nowMs: nat, load: Load, after: SchedulerState, picked: Option<PollRequest>)
    requires ValidState(s)
  {
    match picked
    case None =>
      after == s && forall a :: 0 <= a < LIGHTS ==> !Eligible(s.slots[a], a, nowMs, load)
    case Some(request) =>
      exists offset, index :: 0 <= offset < LIGHTS && 0 <= index < KINDS &&
        PickedAt(s, nowMs, load, offset, index, after, request)
  }

  ghost predicate PickedAt(
      s: SchedulerState, nowMs: nat, load: Load, offset: nat, index: nat, after: SchedulerState, request: PollRequest)
    requires ValidState(s) && offset < LIGHTS && index < KINDS
  {
    var address := Around(s.cursor, offset);
    && (forall earlier :: 0 <= earlier < offset ==>
          !Eligible(s.slots[Around(s.cursor, earlier)], Around(s.cursor, earlier), nowMs, load))
    && (forall k :: 0 <= k < index ==> !Ready(s.slots[address], address, k, nowMs, load))
    && Ready(s.slots[address], address, index, nowMs, load)
    && request == RequestFor(address, index, s.slots[address].context)
    && after == s.(cursor := (address + 1) % LIGHTS)
  }

  class DaliScheduler {
    const slots: array<PollSlot>
    var roundRobinCursor: nat

    ghost predicate Valid()
      reads this
    {
      slots.Length == LIGHTS && roundRobinCursor < LIGHTS
    }

    ghost function Now(): (s: SchedulerState)
      requires Valid()
      reads this, slots
      ensures ValidState(s)
    {
      SchedulerState(slots[..], roundRobinCursor)
    }

    constructor ()
      ensures Valid() && fresh(slots)
      ensures Now() == SchedulerState(seq(LIGHTS, i => IDLE), 0)
    {
      slots := new PollSlot[LIGHTS](i => IDLE);
      roundRobinCursor := 0;
    }

    method Configure(address: nat, context: LightPollContext, nowMs: nat)
      requires Valid()
      modifies slots
      ensures Valid() && Now() == Configured(old(Now()), address, context, nowMs)
    {
      if address >= LIGHTS { return; }
      slots[address] := ConfiguredSlot(context, nowMs);
    }

    method Next(nowMs: nat, load: Load) returns (picked: Option<PollRequest>)
      requires Valid()
      modifies this
      ensures Valid() && Picks(old(Now()), nowMs, load, Now(), picked)
    {
      ghost var s := Now();
      for offset := 0 to LIGHTS
        invariant Valid() && Now() == s
        invariant forall earlier :: 0 <= earlier < offset ==>
          !Eligible(s.slots[Around(s.cursor, earlier)], Around(s.cursor, earlier), nowMs, load)
      {
        var address := (roundRobinCursor + offset) % LIGHTS;
        var slot := slots[address];
        if !slot.configured { continue; }
        for kindIndex := 0 to KINDS
          invariant Valid() && Now() == s
          invariant forall k :: 0 <= k < kindIndex ==> !Ready(slot, address, k, nowMs, load)
        {
          if slot.dueMs[kindIndex] > nowMs { continue; }
          var request := RequestFor(address, kindIndex, slot.context);
          if !Admit(request, load) { continue; }
          roundRobinCursor := (address + 1) % LIGHTS;
          assert PickedAt(s, nowMs, load, offset, kindIndex, Now(), request);
          return Some(request);
        }
      }
      forall a | 0 <= a < LIGHTS ensures !Eligible(s.slots[a], a, nowMs, load) {
        var offset := (a + LIGHTS - s.cursor) % LIGHTS;
        assert Around(s.cursor, offset) == a;
      }
      return None;
    }

    method Complete(request: PollRequest, nowMs: nat)
      requires Valid()
      modifies slots
      ensures Valid() && Now() == Completed(old(Now()), request, nowMs)
    {
      if request.address >= LIGHTS || request.kind == Count { return; }
      var slot := slots[request.address];
      if !slot.configured { return; }
      var index := IndexOf(request.kind);
      slots[request.address] :=
        slot.(dueMs := slot.dueMs[index := nowMs + IntervalFor(request.kind, slot.context, nowMs)]);
    }
  }

  function Configured(s: SchedulerState, address: nat, context: LightPollContext, nowMs: nat): SchedulerState
    requires |s.slots| == LIGHTS
  {
    if address >= LIGHTS then s else s.(slots := s.slots[address := ConfiguredSlot(context, nowMs)])
  }

  function Completed(s: SchedulerState, request: PollRequest, nowMs: nat): SchedulerState
    requires |s.slots| == LIGHTS
  {
    if request.address >= LIGHTS || request.kind == Count || !s.slots[request.address].configured then s
    else
      var slot := s.slots[request.address];
      s.(slots := s.slots[request.address := slot.(dueMs :=
        slot.dueMs[IndexOf(request.kind) := nowMs + IntervalFor(request.kind, slot.context, nowMs)])])
  }
}
