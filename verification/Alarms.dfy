/**
 The event manager's table of active alarms: 128 slots keyed by device address and
 event type, with activation, silent update, escalation, acknowledgement, reminders
 and clearing.
 */
module Alarms {
  import opened Wrappers

  const CAPACITY := 128

  // Info is 0, Warning 1, Critical 2.
  type Severity = s: nat | s < 3

  // `details` stands for the health score, fault flags, snapshot and description,
  // which the table carries without looking at them.
  datatype LightEvent = LightEvent(
    eventId: nat, shortAddress: nat, eventType: nat, severity: Severity, timestamp: nat, details: nat)

  datatype Key = Key(address: nat, eventType: nat)

  function KeyOf(event: LightEvent): Key { Key(event.shortAddress, event.eventType) }

  datatype EventAction = Activated | Escalated | Cleared | Reminder

  datatype Transition = Transition(event: LightEvent, action: EventAction, acknowledged: bool)

  datatype Slot = Slot(used: bool, event: LightEvent, acknowledged: bool, lastEmitted: nat)

  const FREE := Slot(false, LightEvent(0, 0, 15, 0, 0, 0), false, 0)

  datatype Table = Table(slots: seq<Slot>, nextEventId: nat)

  // ---------------------------------------------------------------------- searches

  predicate Holds(slot: Slot, key: Key) { slot.used && KeyOf(slot.event) == key }

  predicate Due(slot: Slot, timestamp: nat, intervalMs: nat) {
    slot.used && timestamp >= slot.lastEmitted && timestamp - slot.lastEmitted >= intervalMs
  }

  // Each search yields the first matching slot, or the number of slots.
  function Find(slots: seq<Slot>, key: Key): (i: nat)
    ensures i <= |slots| && (i < |slots| ==> Holds(slots[i], key))
    ensures forall j :: 0 <= j < i ==> !Holds(slots[j], key)
  {
    if slots == [] || Holds(slots[0], key) then 0 else 1 + Find(slots[1..], key)
  }

  function FindFree(slots: seq<Slot>): (i: nat)
    ensures i <= |slots| && (i < |slots| ==> !slots[i].used)
    ensures forall j :: 0 <= j < i ==> slots[j].used
  {
    if slots == [] || !slots[0].used then 0 else 1 + FindFree(slots[1..])
  }

  function FindDue(slots: seq<Slot>, timestamp: nat, intervalMs: nat): (i: nat)
    ensures i <= |slots| && (i < |slots| ==> Due(slots[i], timestamp, intervalMs))
    ensures forall j :: 0 <= j < i ==> !Due(slots[j], timestamp, intervalMs)
  {
    if slots == [] || Due(slots[0], timestamp, intervalMs) then 0
    else 1 + FindDue(slots[1..], timestamp, intervalMs)
  }

  // -------------------------------------------------------------- the calls as values

  // 32-bit event numbers wrap.
  function NextId(id: nat): nat { (id + 1) % 0x1_0000_0000 }

  function Numbered(event: LightEvent, nextEventId: nat): LightEvent {
    if event.eventId == 0 then event.(eventId := nextEventId) else event
  }

  function Raised(table: Table, event: LightEvent): (Table, Option<Transition>) {
    var slots := table.slots;
    var i := Find(slots, KeyOf(event));
    if i < |slots| then
      if event.severity > slots[i].event.severity then
        (table.(slots := slots[i := slots[i].(event := event, lastEmitted := event.timestamp)]),
         Some(Transition(event, Escalated, slots[i].acknowledged)))
      else
        (table.(slots := slots[i := slots[i].(event := event)]), None)
    else
      var free := FindFree(slots);
      if free < |slots| then
        var numbered := Numbered(event, table.nextEventId);
        (Table(slots[free := Slot(true, numbered, false, event.timestamp)],
               if event.eventId == 0 then NextId(table.nextEventId) else table.nextEventId),
         Some(Transition(numbered, Activated, false)))
      else
        (table, None)
  }

  function ClearedAt(table: Table, key: Key, timestamp: nat): (Table, Option<Transition>) {
    var slots := table.slots;
    var i := Find(slots, key);
    if i == |slots| then (table, None)
    else
      var event := slots[i].event.(timestamp := timestamp);
      (table.(slots := slots[i := slots[i].(used := false, event := event)]),
       Some(Transition(event, Cleared, slots[i].acknowledged)))
  }

  function Acknowledged(table: Table, key: Key): (Table, bool) {
    var slots := table.slots;
    var i := Find(slots, key);
    if i == |slots| then (table, false)
    else (table.(slots := slots[i := slots[i].(acknowledged := true)]), true)
  }

  function Reminded(table: Table, timestamp: nat, intervalMs: nat): (Table, Option<Transition>) {
    var slots := table.slots;
    var i := FindDue(slots, timestamp, intervalMs);
    if i == |slots| then (table, None)
    else
      var event := slots[i].event.(timestamp := timestamp);
      (table.(slots := slots[i := slots[i].(event := event, lastEmitted := timestamp)]),
       Some(Transition(event, Reminder, slots[i].acknowledged)))
  }

  function UsedSlots(slots: seq<Slot>): (n: nat)
    ensures n <= |slots|
  {
    if slots == [] then 0 else (if slots[0].used then 1 else 0) + UsedSlots(slots[1..])
  }

  // --------------------------------------------------------------------- the class

  class EventManager {
    const active: array<Slot>
    var nextEventId: nat

    ghost predicate Valid()
      reads this
    {
      active.Length == CAPACITY
    }

    ghost function Now(): Table
      reads this, active
    {
      Table(active[..], nextEventId)
    }

    constructor ()
      ensures Valid() && fresh(active) && Now() == Table(seq(CAPACITY, i => FREE), 1)
    {
      active := new Slot[CAPACITY](i => FREE);
      nextEventId := 1;
    }

    method FindSlot(key: Key) returns (i: nat)
      requires Valid()
      ensures i == Find(active[..], key)
    {
      i := 0;
      while i < active.Length && !Holds(active[i], key)
        invariant i <= active.Length
        invariant forall j :: 0 <= j < i ==> !Holds(active[j], key)
      {
        i := i + 1;
      }
    }

    method Raise(event: LightEvent) returns (transition: Option<Transition>)
      requires Valid()
      modifies this, active
      ensures Valid() && (Now(), transition) == Raised(old(Now()), event)
    {
      var existing := FindSlot(KeyOf(event));
      if existing == active.Length {
        var free := 0;
        while free < active.Length && active[free].used
          invariant free <= active.Length
          invariant forall j :: 0 <= j < free ==> active[j].used
        {
          free := free + 1;
        }
        if free == active.Length { return None; }
        var numbered := event;
        if event.eventId == 0 {
          numbered := event.(eventId := nextEventId);
          nextEventId := NextId(nextEventId);
        }
        active[free] := Slot(true, numbered, false, event.timestamp);
        return Some(Transition(numbered, Activated, false));
      }
      var slot := active[existing];
      if event.severity > slot.event.severity {
        active[existing] := slot.(event := event, lastEmitted := event.timestamp);
        return Some(Transition(event, Escalated, slot.acknowledged));
      }
      active[existing] := slot.(event := event);
      return None;
    }

    method Clear(key: Key, timestamp: nat) returns (transition: Option<Transition>)
      requires Valid()
      modifies active
      ensures Valid() && (Now(), transition) == ClearedAt(old(Now()), key, timestamp)
    {
      var existing := FindSlot(key);
      if existing == active.Length { return None; }
      var slot := active[existing].(event := active[existing].event.(timestamp := timestamp));
      active[existing] := slot.(used := false);
      return Some(Transition(slot.event, Cleared, slot.acknowledged));
    }

    method Acknowledge(key: Key) returns (known: bool)
      requires Valid()
      modifies active
      ensures Valid() && (Now(), known) == Acknowledged(old(Now()), key)
    {
      var existing := FindSlot(key);
      if existing == active.Length { return false; }
      active[existing] := active[existing].(acknowledged := true);
      return true;
    }

    method Remind(timestamp: nat, intervalMs: nat) returns (transition: Option<Transition>)
      requires Valid()
      modifies active
      ensures Valid() && (Now(), transition) == Reminded(old(Now()), timestamp, intervalMs)
    {
      var i := 0;
      while i < active.Length && !Due(active[i], timestamp, intervalMs)
        invariant i <= active.Length
        invariant forall j :: 0 <= j < i ==> !Due(active[j], timestamp, intervalMs)
      {
        i := i + 1;
      }
      if i == active.Length { return None; }
      var slot := active[i].(lastEmitted := timestamp, event := active[i].event.(timestamp := timestamp));
      active[i] := slot;
      return Some(Transition(slot.event, Reminder, slot.acknowledged));
    }

    method ActiveCount() returns (count: nat)
      requires Valid()
      ensures count == UsedSlots(active[..])
    {
      count := 0;
      for i := 0 to active.Length
        invariant count + UsedSlots(active[i..]) == UsedSlots(active[..])
      {
        assert active[i..][1..] == active[i + 1..];
        if active[i].used { count := count + 1; }
      }
    }
  }

  // ------------------------------------------------------------- the table as a map

  datatype Alarm = Alarm(event: LightEvent, acknowledged: bool, lastEmitted: nat)

  function AlarmOf(slot: Slot): Alarm { Alarm(slot.event, slot.acknowledged, slot.lastEmitted) }

  function MapOf(slots: seq<Slot>): map<Key, Alarm> {
    if slots == [] then map[]
    else if slots[0].used then MapOf(slots[1..])[KeyOf(slots[0].event) := AlarmOf(slots[0])]
    else MapOf(slots[1..])
  }

  // No key is held by two slots.
  ghost predicate Unique(slots: seq<Slot>) {
    forall i, j :: 0 <= i < j < |slots| && slots[i].used && slots[j].used ==>
      KeyOf(slots[i].event) != KeyOf(slots[j].event)
  }

  lemma {:induction false} UniqueTail(slots: seq<Slot>)
    requires Unique(slots) && slots != []
    ensures Unique(slots[1..])
  {
    forall i, j | 0 <= i < j < |slots| - 1 && slots[1..][i].used && slots[1..][j].used
      ensures KeyOf(slots[1..][i].event) != KeyOf(slots[1..][j].event)
    {
      assert slots[i + 1].used && slots[j + 1].used;
    }
  }

  // Membership, contents and size of the map, slot by slot.
  lemma {:induction false} MapLookup(slots: seq<Slot>, key: Key)
    requires Unique(slots)
    ensures key in MapOf(slots) <==> Find(slots, key) < |slots|
    ensures key in MapOf(slots) ==> MapOf(slots)[key] == AlarmOf(slots[Find(slots, key)])
  {
    if slots != [] {
      UniqueTail(slots);
      MapLookup(slots[1..], key);
    }
  }

  lemma {:induction false} MapSize(slots: seq<Slot>)
    requires Unique(slots)
    ensures |MapOf(slots)| == UsedSlots(slots)
  {
    if slots != [] {
      UniqueTail(slots);
      MapSize(slots[1..]);
      if slots[0].used {
        var key := KeyOf(slots[0].event);
        MapLookup(slots[1..], key);
        forall i | 0 <= i < |slots| - 1 ensures !Holds(slots[1..][i], key) { assert slots[1..][i] == slots[i + 1]; }
        assert key !in MapOf(slots[1..]);
      }
    }
  }

  lemma {:induction false} FreeIff(slots: seq<Slot>)
    ensures FindFree(slots) < |slots| <==> UsedSlots(slots) < |slots|
  {
    if slots != [] { FreeIff(slots[1..]); }
  }

  lemma {:induction false} FindHolder(slots: seq<Slot>, i: nat)
    requires Unique(slots) && i < |slots| && slots[i].used
    ensures Find(slots, KeyOf(slots[i].event)) == i
  {}
}
