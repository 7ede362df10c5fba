/**
 What one alarm key lives through over a run of calls, and how reminders drain.
 */
module AlarmLifeCycle {
  import opened Wrappers
  import opened Alarms
  import opened AlarmRuns

  type Run = seq<Operation>

  ghost function AlarmsAfter(run: Run): map<Key, Alarm> { MapOf(After(run).slots) }

  function Before(run: Run): Run
    requires run != []
  {
    run[..|run| - 1]
  }

  function Latest(run: Run): Operation
    requires run != []
  {
    run[|run| - 1]
  }

  // What the latest call emitted for this key.
  function EmittedFor(run: Run, key: Key): Option<Transition>
    requires run != []
  {
    var emitted := Emitted(run);
    if emitted.Some? && KeyOf(emitted.value.event) == key then emitted else None
  }

  // ------------------------------------------------------------------ one key, one call

  ghost function Lookup(m: map<Key, Alarm>, key: Key): Option<Alarm> {
    if key in m then Some(m[key]) else None
  }

  // Every way a call can affect one key.
  ghost predicate KeyStep(
      before: Option<Alarm>, operation: Operation, key: Key, emitted: Option<Transition>, after: Option<Alarm>)
  {
    if emitted.Some? then
      var Transition(event, action, acknowledged) := emitted.value;
      match action
      case Activated =>
        && before.None? && !acknowledged && after == Some(Alarm(event, false, event.timestamp))
        && operation.RaiseOp? && KeyOf(operation.event) == key && operation.event.severity == event.severity
      case Escalated =>
        && before.Some? && acknowledged == before.value.acknowledged
        && operation == RaiseOp(event) && KeyOf(event) == key && event.severity > before.value.event.severity
        && after == Some(before.value.(event := event, lastEmitted := event.timestamp))
      case Reminder =>
        && before.Some? && acknowledged == before.value.acknowledged
        && operation.RemindOp? && event == before.value.event.(timestamp := operation.timestamp)
        && AlarmDue(before.value, operation.timestamp, operation.intervalMs)
        && after == Some(before.value.(event := event, lastEmitted := operation.timestamp))
      case Cleared =>
        && before.Some? && acknowledged == before.value.acknowledged
        && operation == ClearOp(key, event.timestamp) && after.None?
    else if operation.RaiseOp? && KeyOf(operation.event) == key && before.Some? then
      operation.event.severity <= before.value.event.severity
      && after == Some(before.value.(event := operation.event))
    else if operation == AcknowledgeOp(key) && before.Some? then
      after == Some(before.value.(acknowledged := true))
    else after == before
  }

  lemma {:induction false} MapStepAtKey(
      m: map<Key, Alarm>, nextEventId: nat, operation: Operation, m': map<Key, Alarm>, nextEventId': nat,
      emitted: Option<Transition>, key: Key)
    requires MapStep(m, nextEventId, operation, m', nextEventId', emitted)
    requires forall k :: k in m ==> KeyOf(m[k].event) == k
    ensures var own := if emitted.Some? && KeyOf(emitted.value.event) == key then emitted else None;
      KeyStep(Lookup(m, key), operation, key, own, Lookup(m', key))
  {}

  lemma {:induction false} KeysMatch(run: Run)
    ensures forall k :: k in AlarmsAfter(run) ==> KeyOf(AlarmsAfter(run)[k].event) == k
  {
    RunRefinesMap(run);
    hide After;
    hide MapOf;
    forall k | k in AlarmsAfter(run) ensures KeyOf(AlarmsAfter(run)[k].event) == k {
      MapLookup(After(run).slots, k);
    }
  }

  lemma {:induction false} StepAtKey(run: Run, key: Key)
    requires run != []
    ensures var before, after := Lookup(AlarmsAfter(Before(run)), key), Lookup(AlarmsAfter(run), key);
      KeyStep(before, Latest(run), key, EmittedFor(run, key), after)
  {
    hide After;
    hide Emitted;
    hide MapOf;
    hide MapStep;
    hide KeyStep;
    RunRefinesMap(run);
    KeysMatch(Before(run));
    MapStepAtKey(AlarmsAfter(Before(run)), After(Before(run)).nextEventId, Latest(run),
                 AlarmsAfter(run), After(run).nextEventId, Emitted(run), key);
  }

  lemma {:induction false} NothingYet(key: Key)
    ensures key !in AlarmsAfter([])
  {
    NewTableSound();
  }

  // ----------------------------------------------------------------------- life cycles

  function Actions(run: Run, key: Key): seq<EventAction> {
    if run == [] then []
    else
      var emitted := EmittedFor(run, key);
      Actions(Before(run), key) + (if emitted.Some? then [emitted.value.action] else [])
  }

  // (Activated (Escalated | Reminder)* Cleared)*, cut short anywhere: whether the
  // sequence fits, and if so whether it stops inside a round.
  function InRound(actions: seq<EventAction>): Option<bool> {
    if actions == [] then Some(false)
    else
      var so := InRound(actions[..|actions| - 1]);
      match actions[|actions| - 1]
      case Activated => if so == Some(false) then Some(true) else None
      case Escalated => if so == Some(true) then so else None
      case Reminder => if so == Some(true) then so else None
      case Cleared => if so == Some(true) then Some(false) else None
  }

  // The main result on life cycles: the emissions of every key follow the pattern, and
  // the table holds the key exactly while a round is open.
  lemma {:induction false} LifeCycle(run: Run, key: Key)
    ensures InRound(Actions(run, key)) == Some(key in AlarmsAfter(run))
  {
    hide AlarmsAfter;
    hide EmittedFor;
    if run == [] {
      NothingYet(key);
    } else {
      LifeCycle(Before(run), key);
      StepAtKey(run, key);
      var actions, emitted := Actions(Before(run), key), EmittedFor(run, key);
      if emitted.Some? {
        assert (actions + [emitted.value.action])[..|actions|] == actions;
      } else {
        assert actions + [] == actions;
      }
    }
  }

  // ------------------------------------------------------------------- acknowledgement

  // Acknowledged since the latest activation.
  function AcknowledgedSince(run: Run, key: Key): bool {
    if run == [] then false
    else if EmittedFor(run, key).Some? && EmittedFor(run, key).value.action.Activated? then false
    else Latest(run) == AcknowledgeOp(key) || AcknowledgedSince(Before(run), key)
  }

  lemma {:induction false} AcknowledgementTold(run: Run, key: Key)
    ensures key in AlarmsAfter(run) ==> AlarmsAfter(run)[key].acknowledged == AcknowledgedSince(run, key)
    ensures run != [] && EmittedFor(run, key).Some? ==>
      var emitted := EmittedFor(run, key).value;
      emitted.acknowledged == (!emitted.action.Activated? && AcknowledgedSince(Before(run), key))
  {
    hide AlarmsAfter;
    hide EmittedFor;
    if run == [] {
      NothingYet(key);
    } else {
      AcknowledgementTold(Before(run), key);
      StepAtKey(run, key);
    }
  }

  // ----------------------------------------------------------------------- escalations

  function EscalationsSince(run: Run, key: Key): nat {
    if run == [] then 0
    else
      var emitted := EmittedFor(run, key);
      if emitted.Some? && emitted.value.action.Activated? then 0
      else EscalationsSince(Before(run), key) + (if emitted.Some? && emitted.value.action.Escalated? then 1 else 0)
  }

  // The severity of the latest event raised for the key, 0 if none was.
  function LatestSeverity(run: Run, key: Key): Severity {
    if run == [] then 0
    else if Latest(run).RaiseOp? && KeyOf(Latest(run).event) == key then Latest(run).event.severity
    else LatestSeverity(Before(run), key)
  }

  // How often since the latest activation a raise has brought a higher severity than
  // the raise before it.
  function RisesSince(run: Run, key: Key): nat {
    if run == [] || (EmittedFor(run, key).Some? && EmittedFor(run, key).value.action.Activated?) then 0
    else RisesSince(Before(run), key) + (if LatestSeverity(run, key) > LatestSeverity(Before(run), key) then 1 else 0)
  }

  // The main result on escalations: an activation escalates exactly as often as its
  // raised severity rises. So it stays within two escalations exactly when the raised
  // severity rises at most twice.
  lemma {:induction false} EscalationsAreRises(run: Run, key: Key)
    ensures key in AlarmsAfter(run) ==>
      && AlarmsAfter(run)[key].event.severity == LatestSeverity(run, key)
      && EscalationsSince(run, key) == RisesSince(run, key)
  {
    hide AlarmsAfter;
    hide EmittedFor;
    if run == [] {
      NothingYet(key);
    } else {
      EscalationsAreRises(Before(run), key);
      StepAtKey(run, key);
    }
  }

  // By how much raised severities have fallen, in all, since the latest activation.
  function FallsSince(run: Run, key: Key): nat {
    if run == [] || (EmittedFor(run, key).Some? && EmittedFor(run, key).value.action.Activated?) then 0
    else
      var was, now := LatestSeverity(Before(run), key), LatestSeverity(run, key);
      FallsSince(Before(run), key) + (if now < was then was - now else 0)
  }

  // What has risen has fallen or is still up, so long as the table holds the key.
  lemma {:induction false} RisesBound(run: Run, key: Key)
    ensures key in AlarmsAfter(run) ==> RisesSince(run, key) <= LatestSeverity(run, key) + FallsSince(run, key)
  {
    hide AlarmsAfter;
    hide EmittedFor;
    if run == [] {
      NothingYet(key);
    } else {
      RisesBound(Before(run), key);
      StepAtKey(run, key);
    }
  }

  // Hence at most twice, plus once for every level the raised severity ever fell.
  lemma {:induction false} EscalationBound(run: Run, key: Key)
    ensures key in AlarmsAfter(run) ==>
      EscalationsSince(run, key) <= LatestSeverity(run, key) + FallsSince(run, key) <= 2 + FallsSince(run, key)
  {
    EscalationsAreRises(run, key);
    RisesBound(run, key);
    hide *;
  }

  // The falls matter: raising high and low in turn escalates without end.
  function Swinging(low: LightEvent, high: LightEvent, rounds: nat): Run {
    if rounds == 0 then [RaiseOp(low)]
    else Swinging(low, high, rounds - 1) + [RaiseOp(high)] + [RaiseOp(low)]
  }

  lemma {:induction false} EscalationsUnbounded(low: LightEvent, high: LightEvent, rounds: nat)
    requires KeyOf(low) == KeyOf(high) && low.severity < high.severity
    ensures var key, run := KeyOf(low), Swinging(low, high, rounds);
      && EscalationsSince(run, key) == rounds
      && key in AlarmsAfter(run) && AlarmsAfter(run)[key].event.severity == low.severity
  {
    var key, run := KeyOf(low), Swinging(low, high, rounds);
    hide AlarmsAfter;
    if rounds == 0 {
      assert Before(run) == [] && Latest(run) == RaiseOp(low);
      FirstRaise(low);
    } else {
      EscalationsUnbounded(low, high, rounds - 1);
      var up := Swinging(low, high, rounds - 1) + [RaiseOp(high)];
      assert Before(up) == Swinging(low, high, rounds - 1) && Latest(up) == RaiseOp(high);
      assert Before(run) == up && Latest(run) == RaiseOp(low);
      RaiseKnown(up, high);
      RaiseKnown(run, low);
      StepAtKey(up, key);
      StepAtKey(run, key);
      hide EmittedFor;
    }
  }

  // The first raise on an empty table activates.
  lemma {:induction false} FirstRaise(event: LightEvent)
    ensures var run, key := [RaiseOp(event)], KeyOf(event);
      && EmittedFor(run, key).Some? && EmittedFor(run, key).value.action.Activated?
      && key in AlarmsAfter(run) && AlarmsAfter(run)[key].event.severity == event.severity
  {
    var run: Run := [RaiseOp(event)];
    assert Before(run) == [];
    NewTableSound();
    RunRefinesMap(run);
    StepAtKey(run, KeyOf(event));
    hide After;
    hide MapOf;
  }

  // Raising a key the table holds escalates exactly when the severity rises.
  lemma {:induction false} RaiseKnown(run: Run, event: LightEvent)
    requires run != [] && Latest(run) == RaiseOp(event) && KeyOf(event) in AlarmsAfter(Before(run))
    ensures var key := KeyOf(event);
      && key in AlarmsAfter(run) && AlarmsAfter(run)[key].event == event
      && EmittedFor(run, key) ==
        if event.severity > AlarmsAfter(Before(run))[key].event.severity
        then Some(Transition(event, Escalated, AlarmsAfter(Before(run))[key].acknowledged)) else None
  {
    RunRefinesMap(run);
    hide After;
    hide Emitted;
    hide MapOf;
  }

  // ------------------------------------------------------------------------- reminders

  // When the key last emitted anything but a Cleared.
  function LatestEmission(run: Run, key: Key): Option<nat> {
    if run == [] then None
    else
      var emitted := EmittedFor(run, key);
      if emitted.Some? && !emitted.value.action.Cleared? then Some(emitted.value.event.timestamp)
      else LatestEmission(Before(run), key)
  }

  // A reminder comes at least its interval after that alarm's previous emission.
  lemma {:induction false} ReminderSpacing(run: Run, key: Key)
    ensures key in AlarmsAfter(run) ==> LatestEmission(run, key) == Some(AlarmsAfter(run)[key].lastEmitted)
    ensures run != [] && EmittedFor(run, key).Some? && EmittedFor(run, key).value.action.Reminder? ==>
      && Latest(run).RemindOp? && LatestEmission(Before(run), key).Some?
      && LatestEmission(run, key).value >= LatestEmission(Before(run), key).value + Latest(run).intervalMs
  {
    hide AlarmsAfter;
    hide EmittedFor;
    if run == [] {
      NothingYet(key);
    } else {
      ReminderSpacing(Before(run), key);
      StepAtKey(run, key);
    }
  }

  ghost function DueKeys(m: map<Key, Alarm>, timestamp: nat, intervalMs: nat): set<Key> {
    set key | key in m && AlarmDue(m[key], timestamp, intervalMs)
  }

  // A reminder takes exactly its own alarm off the list of due ones, unless the
  // interval is zero: then the alarm is due again at once and the list never shrinks.
  lemma {:induction false} ReminderTakesOne(table: Table, timestamp: nat, intervalMs: nat)
    requires Sound(table)
    ensures var (after, emitted) := Reminded(table, timestamp, intervalMs);
      var due := DueKeys(MapOf(table.slots), timestamp, intervalMs);
      var later := DueKeys(MapOf(after.slots), timestamp, intervalMs);
      && Sound(after)
      && (emitted.None? <==> due == {})
      && (emitted.None? ==> after == table)
      && (emitted.Some? ==>
            && emitted.value.action.Reminder? && emitted.value.event.timestamp == timestamp
            && KeyOf(emitted.value.event) in due
            && later == if intervalMs > 0 then due - {KeyOf(emitted.value.event)} else due)
  {
    var (after, emitted) := Reminded(table, timestamp, intervalMs);
    RemindRefines(table, timestamp, intervalMs);
    hide MapOf;
    var m, due := MapOf(table.slots), DueKeys(MapOf(table.slots), timestamp, intervalMs);
    if emitted.None? {
      assert due == {};
    } else {
      assert KeyOf(emitted.value.event) in due;
    }
  }

  // Asking again and again at one moment.
  ghost function Drained(table: Table, timestamp: nat, intervalMs: nat): seq<Transition>
    requires Sound(table) && intervalMs > 0
    decreases DueKeys(MapOf(table.slots), timestamp, intervalMs)
  {
    ReminderTakesOne(table, timestamp, intervalMs);
    var (after, emitted) := Reminded(table, timestamp, intervalMs);
    if emitted.None? then [] else [emitted.value] + Drained(after, timestamp, intervalMs)
  }

  function KeysOf(emitted: seq<Transition>): set<Key> {
    if emitted == [] then {} else {KeyOf(emitted[0].event)} + KeysOf(emitted[1..])
  }

  // The main result on reminders: draining emits as many reminders as alarms are due,
  // for exactly those alarms, hence one each, and then nothing.
  lemma {:induction false} DrainEmitsEachOnce(table: Table, timestamp: nat, intervalMs: nat)
    requires Sound(table) && intervalMs > 0
    ensures var emitted := Drained(table, timestamp, intervalMs);
      var due := DueKeys(MapOf(table.slots), timestamp, intervalMs);
      && KeysOf(emitted) == due && |emitted| == |due|
      && (forall i :: 0 <= i < |emitted| ==>
            emitted[i].action.Reminder? && emitted[i].event.timestamp == timestamp)
    decreases DueKeys(MapOf(table.slots), timestamp, intervalMs)
  {
    ReminderTakesOne(table, timestamp, intervalMs);
    var (after, first) := Reminded(table, timestamp, intervalMs);
    hide Reminded;
    hide MapOf;
    hide DueKeys;
    if first.Some? {
      DrainEmitsEachOnce(after, timestamp, intervalMs);
      assert Drained(table, timestamp, intervalMs)[1..] == Drained(after, timestamp, intervalMs);
    }
  }
}
