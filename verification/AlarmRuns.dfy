/**
 The alarm table over whole runs. Seen from one key it is a small life cycle, whatever
 happens to the other 127 slots; the table itself is a map of at most 128 keys.
 */
module AlarmRuns {
  import opened Wrappers
  import opened Alarms

  datatype Operation =
    | RaiseOp(event: LightEvent)
    | ClearOp(key: Key, timestamp: nat)
    | AcknowledgeOp(key: Key)
    | RemindOp(timestamp: nat, intervalMs: nat)

  function Step(table: Table, operation: Operation): (Table, Option<Transition>) {
    match operation
    case RaiseOp(event) => Raised(table, event)
    case ClearOp(key, timestamp) => ClearedAt(table, key, timestamp)
    case AcknowledgeOp(key) => (Acknowledged(table, key).0, None)
    case RemindOp(timestamp, intervalMs) => Reminded(table, timestamp, intervalMs)
  }

  function NewTable(): Table { Table(seq(CAPACITY, i => FREE), 1) }

  function After(operations: seq<Operation>): Table {
    if operations == [] then NewTable()
    else Step(After(operations[..|operations| - 1]), operations[|operations| - 1]).0
  }

  // What the latest call emitted.
  function Emitted(operations: seq<Operation>): Option<Transition>
    requires operations != []
  {
    Step(After(operations[..|operations| - 1]), operations[|operations| - 1]).1
  }

  ghost predicate Sound(table: Table) { |table.slots| == CAPACITY && Unique(table.slots) }

  // ----------------------------------------------------------- the table refines a map

  lemma {:induction false} HolderInMap(slots: seq<Slot>, i: nat)
    requires Unique(slots) && i < |slots| && slots[i].used
    ensures var key := KeyOf(slots[i].event);
      key in MapOf(slots) && MapOf(slots)[key] == AlarmOf(slots[i])
  {
    FindHolder(slots, i);
    MapLookup(slots, KeyOf(slots[i].event));
  }

  // Writing a used slot whose key no other slot holds.
  lemma {:induction false} WriteSlot(slots: seq<Slot>, i: nat, slot: Slot)
    requires Unique(slots) && i < |slots| && slot.used
    requires Find(slots, KeyOf(slot.event)) == if slots[i].used then i else |slots|
    ensures Unique(slots[i := slot])
    ensures MapOf(slots[i := slot]) == MapOf(slots)[KeyOf(slot.event) := AlarmOf(slot)]
  {
    var written, key := slots[i := slot], KeyOf(slot.event);
    hide MapOf;
    forall j | 0 <= j < |slots| && j != i && slots[j].used ensures KeyOf(slots[j].event) != key {
      if slots[i].used { FindHolder(slots, i); } else { assert !Holds(slots[j], key); }
    }
    forall k ensures k in MapOf(written) <==> k in MapOf(slots)[key := AlarmOf(slot)]
      ensures k in MapOf(written) ==> MapOf(written)[k] == MapOf(slots)[key := AlarmOf(slot)][k]
    {
      MapLookup(slots, k);
      MapLookup(written, k);
      WrittenLookup(slots, i, slot, k);
    }
  }

  lemma {:induction false} WrittenLookup(slots: seq<Slot>, i: nat, slot: Slot, k: Key)
    requires Unique(slots) && i < |slots| && slot.used && Unique(slots[i := slot])
    requires slots[i].used ==> KeyOf(slots[i].event) == KeyOf(slot.event)
    ensures Find(slots[i := slot], k) == if k == KeyOf(slot.event) then i else Find(slots, k)
  {
    var written := slots[i := slot];
    FindHolder(written, i);
    if k != KeyOf(slot.event) {
      var f := Find(slots, k);
      assert forall j :: 0 <= j < |slots| ==> Holds(written[j], k) == Holds(slots[j], k);
      FindFirst(written, k, f);
    }
  }

  lemma {:induction false} FindFirst(slots: seq<Slot>, key: Key, i: nat)
    requires i <= |slots| && (i < |slots| ==> Holds(slots[i], key))
    requires forall j :: 0 <= j < i ==> !Holds(slots[j], key)
    ensures Find(slots, key) == i
  {}

  // Releasing the slot of a key.
  lemma {:induction false} ReleaseSlot(slots: seq<Slot>, i: nat, slot: Slot)
    requires Unique(slots) && i < |slots| && slots[i].used && !slot.used
    ensures Unique(slots[i := slot])
    ensures MapOf(slots[i := slot]) == MapOf(slots) - {KeyOf(slots[i].event)}
  {
    var released, key := slots[i := slot], KeyOf(slots[i].event);
    hide MapOf;
    forall k ensures k in MapOf(released) <==> k in MapOf(slots) && k != key
      ensures k in MapOf(released) ==> MapOf(released)[k] == MapOf(slots)[k]
    {
      MapLookup(slots, k);
      MapLookup(released, k);
      FindHolder(slots, i);
      assert forall j :: 0 <= j < |slots| && j != i ==> released[j] == slots[j];
      FindFirst(released, k, if k == key then |slots| else Find(slots, k));
    }
  }

  // The four calls as operations on a map of at most 128 alarms and the number to give to
  // the next event that has none.
  ghost predicate MapStep(
      m: map<Key, Alarm>, nextEventId: nat, operation: Operation,
      m': map<Key, Alarm>, nextEventId': nat, emitted: Option<Transition>)
  {
    match operation
    case RaiseOp(event) =>
      var key := Key(event.shortAddress, event.eventType);
      if key in m then
        && nextEventId' == nextEventId
        && if event.severity > m[key].event.severity then
             && m' == m[key := m[key].(event := event, lastEmitted := event.timestamp)]
             && emitted == Some(Transition(event, Escalated, m[key].acknowledged))
           else m' == m[key := m[key].(event := event)] && emitted == None
      else if |m| < 128 then
        var numbered := if event.eventId == 0 then event.(eventId := nextEventId) else event;
        && nextEventId' == (if event.eventId == 0 then (nextEventId + 1) % 0x1_0000_0000 else nextEventId)
        && m' == m[key := Alarm(numbered, false, event.timestamp)]
        && emitted == Some(Transition(numbered, Activated, false))
      else m' == m && nextEventId' == nextEventId && emitted == None
    case ClearOp(key, timestamp) =>
      && nextEventId' == nextEventId
      && if key in m then
           && m' == m - {key}
           && emitted == Some(Transition(m[key].event.(timestamp := timestamp), Cleared, m[key].acknowledged))
         else m' == m && emitted == None
    case AcknowledgeOp(key) =>
      && nextEventId' == nextEventId
      && m' == (if key in m then m[key := m[key].(acknowledged := true)] else m) && emitted == None
    case RemindOp(timestamp, intervalMs) =>
      && nextEventId' == nextEventId
      && if emitted.None? then m' == m && forall key :: key in m ==> !AlarmDue(m[key], timestamp, intervalMs)
         else
           var key := KeyOf(emitted.value.event);
           && key in m && AlarmDue(m[key], timestamp, intervalMs)
           && emitted.value == Transition(m[key].event.(timestamp := timestamp), Reminder, m[key].acknowledged)
           && m' == m[key := m[key].(event := emitted.value.event, lastEmitted := timestamp)]
  }

  // The table keeps its keys unique and changes as its map does.
  ghost predicate Refines(table: Table, operation: Operation, after: Table, emitted: Option<Transition>)
    requires Sound(table)
  {
    && Sound(after)
    && MapStep(MapOf(table.slots), table.nextEventId, operation, MapOf(after.slots), after.nextEventId, emitted)
  }

  predicate AlarmDue(alarm: Alarm, timestamp: nat, intervalMs: nat) {
    timestamp >= alarm.lastEmitted && timestamp - alarm.lastEmitted >= intervalMs
  }

  lemma {:induction false} RaiseRefines(table: Table, event: LightEvent)
    requires Sound(table)
    ensures var (after, emitted) := Raised(table, event);
      Refines(table, RaiseOp(event), after, emitted)
  {
    var slots, key := table.slots, KeyOf(event);
    MapLookup(slots, key);
    MapSize(slots);
    FreeIff(slots);
    hide MapOf;
    hide UsedSlots;
    var i := Find(slots, key);
    if i < |slots| {
      WriteSlot(slots, i, slots[i].(event := event, lastEmitted := event.timestamp));
      WriteSlot(slots, i, slots[i].(event := event));
    } else {
      var free := FindFree(slots);
      if free < |slots| {
        WriteSlot(slots, free, Slot(true, Numbered(event, table.nextEventId), false, event.timestamp));
      }
    }
  }

  lemma {:induction false} ClearRefines(table: Table, key: Key, timestamp: nat)
    requires Sound(table)
    ensures var (after, emitted) := ClearedAt(table, key, timestamp);
      Refines(table, ClearOp(key, timestamp), after, emitted)
  {
    var slots := table.slots;
    MapLookup(slots, key);
    hide MapOf;
    var i := Find(slots, key);
    if i < |slots| {
      ReleaseSlot(slots, i, slots[i].(used := false, event := slots[i].event.(timestamp := timestamp)));
    }
  }

  lemma {:induction false} AcknowledgeRefines(table: Table, key: Key)
    requires Sound(table)
    ensures var after := Acknowledged(table, key).0;
      Refines(table, AcknowledgeOp(key), after, None)
    ensures Acknowledged(table, key).1 <==> key in MapOf(table.slots)
  {
    var slots := table.slots;
    MapLookup(slots, key);
    hide MapOf;
    var i := Find(slots, key);
    if i < |slots| { WriteSlot(slots, i, slots[i].(acknowledged := true)); }
  }

  lemma {:induction false} RemindRefines(table: Table, timestamp: nat, intervalMs: nat)
    requires Sound(table)
    ensures var (after, emitted) := Reminded(table, timestamp, intervalMs);
      Refines(table, RemindOp(timestamp, intervalMs), after, emitted)
  {
    var slots := table.slots;
    var i := FindDue(slots, timestamp, intervalMs);
    hide MapOf;
    if i < |slots| {
      HolderInMap(slots, i);
      FindHolder(slots, i);
      WriteSlot(slots, i, slots[i].(event := slots[i].event.(timestamp := timestamp), lastEmitted := timestamp));
    } else {
      forall key | key in MapOf(slots) ensures !AlarmDue(MapOf(slots)[key], timestamp, intervalMs) {
        MapLookup(slots, key);
        assert !Due(slots[Find(slots, key)], timestamp, intervalMs);
      }
    }
  }

  lemma {:induction false} StepRefines(table: Table, operation: Operation)
    requires Sound(table)
    ensures var (after, emitted) := Step(table, operation);
      Refines(table, operation, after, emitted)
  {
    match operation
    case RaiseOp(event) => RaiseRefines(table, event);
    case ClearOp(key, timestamp) => ClearRefines(table, key, timestamp);
    case AcknowledgeOp(key) => AcknowledgeRefines(table, key);
    case RemindOp(timestamp, intervalMs) => RemindRefines(table, timestamp, intervalMs);
  }

  lemma {:induction false} NewTableSound()
    ensures Sound(NewTable()) && MapOf(NewTable().slots) == map[]
  {
    AllFree(NewTable().slots);
  }

  lemma {:induction false} AllFree(slots: seq<Slot>)
    requires forall i :: 0 <= i < |slots| ==> !slots[i].used
    ensures MapOf(slots) == map[]
  {
    if slots != [] { AllFree(slots[1..]); }
  }

  // The main result on the table: over every run each key has at most one used slot
  // and every call is the map operation of the same name.
  lemma {:induction false} RunRefinesMap(operations: seq<Operation>)
    ensures Sound(After(operations)) && (operations == [] ==> After(operations).nextEventId == 1)
    ensures operations == [] ==> MapOf(After(operations).slots) == map[]
    ensures |MapOf(After(operations).slots)| == UsedSlots(After(operations).slots) <= 128
    ensures operations != [] ==>
      var before := After(operations[..|operations| - 1]);
      && Sound(before)
      && MapStep(MapOf(before.slots), before.nextEventId, operations[|operations| - 1],
                 MapOf(After(operations).slots), After(operations).nextEventId, Emitted(operations))
  {
    hide Step;
    hide MapStep;
    if operations == [] {
      NewTableSound();
    } else {
      RunRefinesMap(operations[..|operations| - 1]);
      StepRefines(After(operations[..|operations| - 1]), operations[|operations| - 1]);
    }
    MapSize(After(operations).slots);
  }
}
