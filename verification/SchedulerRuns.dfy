/**
 The scheduler over whole runs: no eligible address waits more than 63 picks, and no
 kind of poll of one address happens more often than its shortest interval allows.
 */
module SchedulerRuns {
  import opened Wrappers
  import opened Scheduler

  datatype Operation =
    | Configure(address: nat, context: LightPollContext, nowMs: nat)
    | Complete(request: PollRequest, nowMs: nat)
    | Next(nowMs: nat, load: Load)

  // One call: the state before and after, and what a Next call returned.
  ghost predicate Step(s: SchedulerState, operation: Operation, after: SchedulerState, picked: Option<PollRequest>) {
    ValidState(s) &&
    match operation
    case Configure(address, context, nowMs) => after == Configured(s, address, context, nowMs) && picked == None
    case Complete(request, nowMs) => after == Completed(s, request, nowMs) && picked == None
    case Next(nowMs, load) => Picks(s, nowMs, load, after, picked)
  }

  datatype Run = Run(states: seq<SchedulerState>, operations: seq<Operation>, picks: seq<Option<PollRequest>>)

  ghost predicate ValidRun(r: Run) {
    && |r.states| == |r.operations| + 1 && |r.picks| == |r.operations|
    && ValidState(r.states[0])
    && forall i :: 0 <= i < |r.operations| ==> Step(r.states[i], r.operations[i], r.states[i + 1], r.picks[i])
  }

  lemma {:induction false} StatesValid(r: Run, i: nat)
    requires ValidRun(r) && i <= |r.operations|
    ensures ValidState(r.states[i])
  {
    if i > 0 { assert Step(r.states[i - 1], r.operations[i - 1], r.states[i], r.picks[i - 1]); StatesValid(r, i - 1); }
  }

  // --------------------------------------------------------------------------- fairness

  // How many positions the cursor is short of an address.
  function Distance(cursor: nat, address: nat): nat
    requires cursor < LIGHTS && address < LIGHTS
  {
    if cursor <= address then address - cursor else address + LIGHTS - cursor
  }

  ghost predicate EligibleAt(s: SchedulerState, address: nat, operation: Operation)
    requires address < LIGHTS && |s.slots| == LIGHTS && operation.Next?
  {
    Eligible(s.slots[address], address, operation.nowMs, operation.load)
  }

  lemma {:induction false} AroundDistance(cursor: nat, address: nat, offset: nat)
    requires cursor < LIGHTS && address < LIGHTS && offset < LIGHTS
    ensures Around(cursor, Distance(cursor, address)) == address
    ensures Around(cursor, offset) < LIGHTS
    ensures offset < Distance(cursor, address) ==>
      Distance((Around(cursor, offset) + 1) % LIGHTS, address) == Distance(cursor, address) - offset - 1
  {
    Wrap(cursor + Distance(cursor, address));
    Wrap(cursor + offset);
    Wrap(Around(cursor, offset) + 1);
  }

  lemma {:induction false} Wrap(x: nat)
    requires x < 2 * LIGHTS
    ensures x % LIGHTS == if x < LIGHTS then x else x - LIGHTS
  {}

  // An eligible address is picked, or the cursor comes strictly nearer to it.
  lemma {:induction false} PickApproaches(
      s: SchedulerState, operation: Operation, after: SchedulerState, picked: Option<PollRequest>, address: nat)
    requires operation.Next? && address < LIGHTS && ValidState(s)
    requires Step(s, operation, after, picked) && EligibleAt(s, address, operation)
    ensures ValidState(after) && picked.Some?
    ensures picked.value.address == address || Distance(after.cursor, address) < Distance(s.cursor, address)
  {
    if picked.Some? {
      var offset, index :| 0 <= offset < LIGHTS && 0 <= index < KINDS &&
        PickedAt(s, operation.nowMs, operation.load, offset, index, after, picked.value);
      AroundDistance(s.cursor, address, offset);
    }
  }

  function Nexts(operations: seq<Operation>): nat {
    if operations == [] then 0
    else Nexts(operations[..|operations| - 1]) + (if operations[|operations| - 1].Next? then 1 else 0)
  }

  ghost predicate PickedIn(r: Run, address: nat)
    requires |r.picks| == |r.operations|
  {
    exists i :: 0 <= i < |r.operations| && r.picks[i].Some? && r.picks[i].value.address == address
  }

  // Eligible whenever Next is called; anything may happen in between.
  ghost predicate AlwaysEligible(r: Run, address: nat)
    requires ValidRun(r) && address < LIGHTS
  {
    forall i :: 0 <= i < |r.operations| && r.operations[i].Next? ==>
      |r.states[i].slots| == LIGHTS && EligibleAt(r.states[i], address, r.operations[i])
  }

  lemma {:induction false} Unpicked(r: Run, address: nat, n: nat)
    requires ValidRun(r) && address < LIGHTS && AlwaysEligible(r, address) && !PickedIn(r, address)
    requires n <= |r.operations|
    ensures ValidState(r.states[n])
    ensures Distance(r.states[n].cursor, address) + Nexts(r.operations[..n]) <= Distance(r.states[0].cursor, address)
  {
    if n > 0 {
      Unpicked(r, address, n - 1);
      assert r.operations[..n][..n - 1] == r.operations[..n - 1];
      assert Step(r.states[n - 1], r.operations[n - 1], r.states[n], r.picks[n - 1]);
      StatesValid(r, n);
      if r.operations[n - 1].Next? {
        PickApproaches(r.states[n - 1], r.operations[n - 1], r.states[n], r.picks[n - 1], address);
      }
    }
  }

  // The main result on fairness: an address that is eligible whenever Next is called is
  // picked before the calls outnumber its distance from the cursor, so within 64 calls,
  // whatever is configured or completed meanwhile.
  lemma {:induction false} Fairness(r: Run, address: nat)
    requires ValidRun(r) && address < LIGHTS && AlwaysEligible(r, address)
    requires Nexts(r.operations) > Distance(r.states[0].cursor, address)
    ensures PickedIn(r, address)
  {
    assert r.operations[..|r.operations|] == r.operations;
    if !PickedIn(r, address) { Unpicked(r, address, |r.operations|); }
  }

  lemma {:induction false} FairnessWithin64(r: Run, address: nat)
    requires ValidRun(r) && address < LIGHTS && AlwaysEligible(r, address)
    requires Nexts(r.operations) >= 64
    ensures PickedIn(r, address)
  {
    Fairness(r, address);
  }

  // The search has one possible outcome.
  lemma {:induction false} PickUnique(
      s: SchedulerState, nowMs: nat, load: Load,
      x: SchedulerState, p: Option<PollRequest>, y: SchedulerState, q: Option<PollRequest>)
    requires ValidState(s) && Picks(s, nowMs, load, x, p) && Picks(s, nowMs, load, y, q)
    ensures x == y && p == q
  {
    if p.Some? && q.Some? {
      var i, j :| 0 <= i < LIGHTS && 0 <= j < KINDS && PickedAt(s, nowMs, load, i, j, x, p.value);
      var i', j' :| 0 <= i' < LIGHTS && 0 <= j' < KINDS && PickedAt(s, nowMs, load, i', j', y, q.value);
      assert Eligible(s.slots[Around(s.cursor, i)], Around(s.cursor, i), nowMs, load);
      assert Eligible(s.slots[Around(s.cursor, i')], Around(s.cursor, i'), nowMs, load);
      assert i == i' && j == j';
    } else if p.Some? {
      SomeIsEligible(s, nowMs, load, x, p);
    } else if q.Some? {
      SomeIsEligible(s, nowMs, load, y, q);
    }
  }

  lemma {:induction false} SomeIsEligible(
      s: SchedulerState, nowMs: nat, load: Load, after: SchedulerState, picked: Option<PollRequest>)
    requires ValidState(s) && picked.Some? && Picks(s, nowMs, load, after, picked)
    ensures exists a :: 0 <= a < LIGHTS && Eligible(s.slots[a], a, nowMs, load)
  {
    var i, j :| 0 <= i < LIGHTS && 0 <= j < KINDS && PickedAt(s, nowMs, load, i, j, after, picked.value);
    assert Eligible(s.slots[Around(s.cursor, i)], Around(s.cursor, i), nowMs, load);
  }

  // ------------------------------------------------------------------------------- rates

  function ShortestInterval(kind: PollKind): nat {
    match kind
    case Status => 2000
    case Presence => 30000
    case Electrical => 10000
    case Temperature => 10000
    case Lifetime => 21600000
    case Identity => 86400000
    case Count => 0
  }

  lemma {:induction false} IntervalAtLeast(kind: PollKind, context: LightPollContext, nowMs: nat)
    ensures IntervalFor(kind, context, nowMs) >= ShortestInterval(kind)
  {}

  // Configuring a slot anew waits at least as long as any completion, but for status polls.
  lemma {:induction false} FirstDueIsLate(
      kind: PollKind, context: LightPollContext, nowMs: nat, before: LightPollContext, beforeMs: nat)
    requires kind != Count && kind != Status
    ensures ConfiguredSlot(context, nowMs).dueMs[IndexOf(kind)] >= nowMs + IntervalFor(kind, before, beforeMs)
  {}

  lemma {:induction false} FirstDue(kind: PollKind, context: LightPollContext, nowMs: nat)
    requires kind != Count
    ensures kind == Status ==> ConfiguredSlot(context, nowMs).dueMs[IndexOf(kind)] == nowMs
    ensures kind != Status ==>
      ConfiguredSlot(context, nowMs).dueMs[IndexOf(kind)] >= nowMs + ShortestInterval(kind)
  {}

  // Time never goes back and every pick is completed before the next Next call.
  ghost predicate Disciplined(r: Run)
    requires |r.picks| == |r.operations|
  {
    && (forall i, j :: 0 <= i < j < |r.operations| ==> r.operations[i].nowMs <= r.operations[j].nowMs)
    && (forall i, j :: 0 <= i < j < |r.operations| && r.picks[i].Some? && r.operations[j].Next? ==>
          CompletedBetween(r, i, j))
  }

  ghost predicate CompletedBetween(r: Run, i: nat, j: nat)
    requires i < j < |r.operations| == |r.picks| && r.picks[i].Some?
  {
    exists k :: i < k < j && r.operations[k].Complete? && r.operations[k].request == r.picks[i].value
  }

  ghost predicate PolledAt(r: Run, i: nat, address: nat, kind: PollKind)
    requires i < |r.operations| == |r.picks|
  {
    r.operations[i].Next? && r.picks[i].Some? && r.picks[i].value.address == address && r.picks[i].value.kind == kind
  }

  lemma {:induction false} PolledWasDue(r: Run, i: nat, address: nat, kind: PollKind)
    requires ValidRun(r) && i < |r.operations| && PolledAt(r, i, address, kind)
    ensures address < LIGHTS && kind != Count && ValidState(r.states[i])
    ensures r.states[i].slots[address].configured
    ensures r.states[i].slots[address].dueMs[IndexOf(kind)] <= r.operations[i].nowMs
  {
    var s, operation := r.states[i], r.operations[i];
    StatesValid(r, i);
    assert Step(s, operation, r.states[i + 1], r.picks[i]);
    var offset, index :| 0 <= offset < LIGHTS && 0 <= index < KINDS &&
      PickedAt(s, operation.nowMs, operation.load, offset, index, r.states[i + 1], r.picks[i].value);
  }

  ghost predicate Completes(r: Run, k: nat, address: nat, kind: PollKind)
    requires k < |r.operations|
  {
    && r.operations[k].Complete?
    && r.operations[k].request.address == address && r.operations[k].request.kind == kind
  }

  // The interval the k-th call set, with the context and the time of that moment, is over
  // by the j-th.
  ghost predicate WaitedOut(r: Run, k: nat, j: nat, address: nat, kind: PollKind)
    requires k < |r.operations| && j < |r.operations| && |r.states| == |r.operations| + 1
  {
    && address < LIGHTS && ValidState(r.states[k])
    && r.operations[j].nowMs
      >= r.operations[k].nowMs + IntervalFor(kind, r.states[k].slots[address].context, r.operations[k].nowMs)
  }

  lemma {:induction false} KindsDiffer(x: PollKind, y: PollKind)
    requires x != y
    ensures IndexOf(x) != IndexOf(y)
  {}

  // ---- what the due time is

  // The calls that set the due time of one kind at one address: configuring the address,
  // and completing that kind there while it is configured.
  ghost predicate Sets(r: Run, k: nat, address: nat, kind: PollKind)
    requires k < |r.operations| && |r.states| == |r.operations| + 1
  {
    && address < LIGHTS && kind != Count && ValidState(r.states[k])
    && (|| (r.operations[k].Configure? && r.operations[k].address == address)
        || (Completes(r, k, address, kind) && r.states[k].slots[address].configured))
  }

  // What such a call sets it to.
  ghost function SetTo(r: Run, k: nat, address: nat, kind: PollKind): nat
    requires k < |r.operations| && |r.states| == |r.operations| + 1 && Sets(r, k, address, kind)
  {
    var operation := r.operations[k];
    if operation.Configure? then ConfiguredSlot(operation.context, operation.nowMs).dueMs[IndexOf(kind)]
    else operation.nowMs + IntervalFor(kind, r.states[k].slots[address].context, operation.nowMs)
  }

  // The context such a call leaves behind.
  ghost function ContextAt(r: Run, k: nat, address: nat): LightPollContext
    requires k < |r.operations| && |r.states| == |r.operations| + 1
    requires address < LIGHTS && ValidState(r.states[k])
  {
    if r.operations[k].Configure? && r.operations[k].address == address then r.operations[k].context
    else r.states[k].slots[address].context
  }

  // The k-th call is the latest of the first n to set it.
  ghost predicate SetsLast(r: Run, k: nat, n: nat, address: nat, kind: PollKind)
    requires |r.states| == |r.operations| + 1
  {
    && k < n <= |r.operations| && Sets(r, k, address, kind)
    && forall m :: k < m < n ==> !Sets(r, m, address, kind)
  }

  // One call, seen from one kind at one address.
  lemma {:induction false} DueStep(r: Run, k: nat, address: nat, kind: PollKind)
    requires ValidRun(r) && k < |r.operations| && address < LIGHTS && kind != Count
    ensures ValidState(r.states[k]) && ValidState(r.states[k + 1])
    ensures var was, slot, index := r.states[k].slots[address], r.states[k + 1].slots[address], IndexOf(kind);
      if Sets(r, k, address, kind) then
        && slot.configured && slot.dueMs[index] == SetTo(r, k, address, kind)
        && slot.context == ContextAt(r, k, address)
      else
        slot.configured == was.configured && slot.dueMs[index] == was.dueMs[index] && slot.context == was.context
  {
    StatesValid(r, k);
    StatesValid(r, k + 1);
    hide ConfiguredSlot;
    hide IntervalFor;
    var operation := r.operations[k];
    assert Step(r.states[k], operation, r.states[k + 1], r.picks[k]);
    if operation.Complete? && operation.request.kind != kind && operation.request.kind != Count {
      KindsDiffer(operation.request.kind, kind);
    }
  }

  // The due time is a function of the run, with no discipline asked of it.
  lemma {:induction false} DueIsSet(r: Run, address: nat, kind: PollKind, k: nat, n: nat)
    requires ValidRun(r) && SetsLast(r, k, n, address, kind)
    ensures ValidState(r.states[n]) && r.states[n].slots[address].configured
    ensures r.states[n].slots[address].dueMs[IndexOf(kind)] == SetTo(r, k, address, kind)
    ensures ValidState(r.states[k]) && r.states[n].slots[address].context == ContextAt(r, k, address)
    decreases n
  {
    hide Sets;
    hide SetTo;
    hide ContextAt;
    assert address < LIGHTS && kind != Count by { SetsKnown(r, k, address, kind); }
    DueStep(r, n - 1, address, kind);
    if k < n - 1 { DueIsSet(r, address, kind, k, n - 1); }
  }

  lemma {:induction false} SetsKnown(r: Run, k: nat, address: nat, kind: PollKind)
    requires k < |r.operations| && |r.states| == |r.operations| + 1 && Sets(r, k, address, kind)
    ensures address < LIGHTS && kind != Count && ValidState(r.states[k])
  {}

  lemma {:induction false} LastSetting(r: Run, address: nat, kind: PollKind, k: nat, n: nat) returns (last: nat)
    requires |r.states| == |r.operations| + 1 && k < n <= |r.operations| && Sets(r, k, address, kind)
    ensures k <= last && SetsLast(r, last, n, address, kind)
    decreases n
  {
    hide Sets;
    if k == n - 1 || Sets(r, n - 1, address, kind) {
      last := n - 1;
    } else {
      last := LastSetting(r, address, kind, k, n - 1);
    }
  }

  lemma {:induction false} StaysConfigured(r: Run, address: nat, kind: PollKind, m: nat, n: nat)
    requires ValidRun(r) && m <= n <= |r.operations| && address < LIGHTS && kind != Count
    ensures ValidState(r.states[m]) && ValidState(r.states[n])
    ensures r.states[m].slots[address].configured ==> r.states[n].slots[address].configured
    ensures (forall k :: m <= k < n ==> !Sets(r, k, address, kind)) ==>
      r.states[n].slots[address].configured == r.states[m].slots[address].configured
    decreases n
  {
    hide Sets;
    hide SetTo;
    StatesValid(r, m);
    if m < n {
      StaysConfigured(r, address, kind, m, n - 1);
      DueStep(r, n - 1, address, kind);
    }
  }

  // ---- in numbers

  // The bus has room: what is in trouble may use it up to the diagnostic limit.
  predicate HasRoom(kind: PollKind, context: LightPollContext, load: Load) {
    && load.utilisation >= 0.0
    && load.utilisation < (if kind.Status? && (context.warningActive || context.recentFault)
                           then load.diagnosticLimit else load.normalLimit)
  }

  // How long a kind rests after a completion at t.
  function Rest(kind: PollKind, context: LightPollContext, t: nat): nat
    requires kind != Count
  {
    var trouble, age := context.warningActive || context.recentFault, t - context.observationStartedMs;
    if kind == Status then
      if trouble && age < 60000 then 2000
      else if trouble && age < 360000 then 5000
      else if context.commandedOn then 5000
      else 30000
    else if kind == Presence then 30000
    else if kind == Electrical then (if trouble then 10000 else 60000)
    else if kind == Temperature then (if context.warningActive then 10000 else 60000)
    else if kind == Lifetime then 21600000
    else 86400000
  }

  // How long it waits for its first poll.
  function FirstWait(kind: PollKind): nat
    requires kind != Count
  {
    if kind == Status then 0 else if kind == Presence then 30000
    else if kind == Electrical || kind == Temperature then 60000
    else if kind == Lifetime then 21600000 else 86400000
  }

  lemma {:induction false} ReadyMeans(slot: PollSlot, address: nat, kind: PollKind, nowMs: nat, load: Load)
    requires kind != Count
    ensures Ready(slot, address, IndexOf(kind), nowMs, load) <==>
      slot.configured && slot.dueMs[IndexOf(kind)] <= nowMs && HasRoom(kind, slot.context, load)
  {}

  lemma {:induction false} IntervalIsRest(kind: PollKind, context: LightPollContext, t: nat)
    requires kind != Count
    ensures IntervalFor(kind, context, t) == Rest(kind, context, t)
  {}

  lemma {:induction false} FirstDueIsWait(kind: PollKind, context: LightPollContext, t: nat)
    requires kind != Count
    ensures ConfiguredSlot(context, t).dueMs[IndexOf(kind)] == t + FirstWait(kind)
  {}

  // The main result on return times, over any run: after its latest setting a kind is
  // ready again exactly from a moment that is known in numbers, on a bus with room.
  lemma {:induction false} ReadyAgainIff(
      r: Run, address: nat, kind: PollKind, k: nat, n: nat, nowMs: nat, load: Load)
    requires ValidRun(r) && SetsLast(r, k, n, address, kind)
    ensures ValidState(r.states[k]) && ValidState(r.states[n]) && address < LIGHTS && kind != Count
    ensures var t, context := r.operations[k].nowMs, ContextAt(r, k, address);
      Ready(r.states[n].slots[address], address, IndexOf(kind), nowMs, load) <==>
        && HasRoom(kind, context, load)
        && nowMs >= t + if r.operations[k].Configure? then FirstWait(kind) else Rest(kind, context, t)
  {
    SetsKnown(r, k, address, kind);
    DueIsSet(r, address, kind, k, n);
    var t, context := r.operations[k].nowMs, ContextAt(r, k, address);
    ReadyMeans(r.states[n].slots[address], address, kind, nowMs, load);
    IntervalIsRest(kind, context, t);
    FirstDueIsWait(kind, context, t);
    hide Ready;
    hide IntervalFor;
    hide ConfiguredSlot;
    hide Rest;
    hide FirstWait;
    hide HasRoom;
  }

  // What a picked request says, and which of several ready kinds is picked: status,
  // presence, electrical, temperature, lifetime, identity, in this order.
  lemma {:induction false} PickSays(
      s: SchedulerState, nowMs: nat, load: Load, after: SchedulerState, picked: Option<PollRequest>)
    requires ValidState(s) && Picks(s, nowMs, load, after, picked) && picked.Some?
    ensures var PollRequest(address, kind, priority, duration) := picked.value;
      && address < 64 && kind != Count && duration == 100 && after.cursor == (address + 1) % 64
      && (var context := s.slots[address].context;
          && (priority.Critical? <==> kind.Status? && (context.warningActive || context.recentFault))
          && (priority.High? <==> kind.Presence? || (kind.Status? && !context.warningActive && !context.recentFault))
          && (priority.Normal? <==> kind.Electrical? || kind.Temperature?)
          && (priority.Low? <==> kind.Lifetime? || kind.Identity?))
      && Ready(s.slots[address], address, IndexOf(kind), nowMs, load)
      && forall other :: Comes(other, kind) ==> !Ready(s.slots[address], address, IndexOf(other), nowMs, load)
  {
    var offset, index :| 0 <= offset < LIGHTS && 0 <= index < KINDS &&
      PickedAt(s, nowMs, load, offset, index, after, picked.value);
    hide Ready;
  }

  // One kind before another in the search.
  predicate Comes(earlier: PollKind, later: PollKind) {
    match later
    case Status => false
    case Presence => earlier == Status
    case Electrical => earlier == Status || earlier == Presence
    case Temperature => earlier == Status || earlier == Presence || earlier == Electrical
    case Lifetime => earlier == Status || earlier == Presence || earlier == Electrical || earlier == Temperature
    case Identity => earlier != Identity && earlier != Count
    case Count => false
  }

  // ---- polls and due times

  // In a disciplined run something sets the due time between a poll and any later search.
  lemma {:induction false} SetBetween(r: Run, address: nat, kind: PollKind, i: nat, j: nat) returns (k: nat)
    requires ValidRun(r) && Disciplined(r)
    requires i < j < |r.operations| && PolledAt(r, i, address, kind) && r.operations[j].Next?
    ensures i < k < j && Completes(r, k, address, kind) && Sets(r, k, address, kind)
  {
    PolledWasDue(r, i, address, kind);
    assert CompletedBetween(r, i, j);
    k :| i < k < j && r.operations[k].Complete? && r.operations[k].request == r.picks[i].value;
    StaysConfigured(r, address, kind, i, k);
  }

  // A poll comes no earlier than the latest setting says.
  lemma {:induction false} PollAwaitsSetting(r: Run, address: nat, kind: PollKind, k: nat, j: nat)
    requires ValidRun(r) && j < |r.operations| && SetsLast(r, k, j, address, kind) && PolledAt(r, j, address, kind)
    ensures r.operations[j].nowMs >= SetTo(r, k, address, kind)
  {
    hide Sets;
    hide SetTo;
    PolledWasDue(r, j, address, kind);
    DueIsSet(r, address, kind, k, j);
  }

  // What has been set anew after a completion does not come before it is over, but for
  // status polls.
  lemma {:induction false} LaterSettingWaits(r: Run, address: nat, kind: PollKind, k: nat, m: nat)
    requires ValidRun(r) && Disciplined(r) && kind != Status
    requires k < m < |r.operations| && ValidState(r.states[k])
    requires Sets(r, m, address, kind) && r.operations[m].Configure?
    ensures SetTo(r, m, address, kind)
      >= r.operations[k].nowMs + IntervalFor(kind, r.states[k].slots[address].context, r.operations[k].nowMs)
  {
    FirstDueIsLate(kind, r.operations[m].context, r.operations[m].nowMs,
                   r.states[k].slots[address].context, r.operations[k].nowMs);
    hide ConfiguredSlot;
    hide IntervalFor;
  }

  // The latest setting before the j-th call is the k-th, and the j-th is not before its time.
  ghost predicate ReachesSetting(r: Run, k: nat, j: nat, address: nat, kind: PollKind)
    requires j < |r.operations| && |r.states| == |r.operations| + 1
  {
    SetsLast(r, k, j, address, kind) && r.operations[j].nowMs >= SetTo(r, k, address, kind)
  }

  // The latest setting before the j-th call is the k-th, and it configured the address.
  ghost predicate Reconfigures(r: Run, k: nat, j: nat, address: nat, kind: PollKind)
    requires |r.states| == |r.operations| + 1
  {
    SetsLast(r, k, j, address, kind) && r.operations[k].Configure?
  }

  ghost predicate NotReconfigured(r: Run, address: nat, m: nat, n: nat)
    requires n <= |r.operations|
  {
    forall k :: m < k < n && r.operations[k].Configure? ==> r.operations[k].address != address
  }

  // A poll waits out the interval that the latest completion of its kind set.
  lemma {:induction false} PollWaitsOut(r: Run, address: nat, kind: PollKind, k: nat, j: nat)
    requires ValidRun(r) && Disciplined(r) && k < j < |r.operations|
    requires kind == Status ==> NotReconfigured(r, address, k, j)
    requires Completes(r, k, address, kind) && PolledAt(r, j, address, kind)
    requires forall m :: k < m < j ==> !Completes(r, m, address, kind)
    ensures WaitedOut(r, k, j, address, kind)
  {
    hide IntervalFor;
    hide ConfiguredSlot;
    PolledWasDue(r, j, address, kind);
    StaysConfigured(r, address, kind, k, j);
    var first :| k <= first < j && Sets(r, first, address, kind);
    var m := LastSetting(r, address, kind, first, j);
    PollAwaitsSetting(r, address, kind, m, j);
    if m != k { LaterSettingWaits(r, address, kind, k, m); }
  }

  // The main result on rates: what the latest setting before a poll set it to is reached.
  // So two polls of one kind of one address are the kind's shortest interval apart,
  // unless the address was configured anew since the latest completion and the poll is a
  // status poll; and unless so, a whole interval lies between them as its own moment set it.
  lemma {:induction false} PollsSpaced(r: Run, address: nat, kind: PollKind, i: nat, j: nat)
    requires ValidRun(r) && Disciplined(r)
    requires i < j < |r.operations| && PolledAt(r, i, address, kind) && PolledAt(r, j, address, kind)
    ensures exists k :: i < k < j && ReachesSetting(r, k, j, address, kind)
    ensures r.operations[j].nowMs >= r.operations[i].nowMs + ShortestInterval(kind)
      || (kind == Status && exists k :: i < k < j && Reconfigures(r, k, j, address, kind))
    ensures (kind == Status ==> NotReconfigured(r, address, i, j)) ==>
      exists k :: i < k < j && Completes(r, k, address, kind) && WaitedOut(r, k, j, address, kind)
  {
    hide IntervalFor;
    hide ConfiguredSlot;
    var first := SetBetween(r, address, kind, i, j);
    var k := LastSetting(r, address, kind, first, j);
    PollAwaitsSetting(r, address, kind, k, j);
    SettingAtLeast(r, address, kind, i, k);
    assert ReachesSetting(r, k, j, address, kind);
    assert r.operations[k].Configure? ==> Reconfigures(r, k, j, address, kind);
    if r.operations[k].Configure? && kind != Status {
      LaterSettingWaits(r, address, kind, first, k);
      assert WaitedOut(r, first, j, address, kind);
    } else if !r.operations[k].Configure? {
      assert Completes(r, k, address, kind) && WaitedOut(r, k, j, address, kind);
    }
  }

  lemma {:induction false} SettingAtLeast(r: Run, address: nat, kind: PollKind, i: nat, k: nat)
    requires ValidRun(r) && Disciplined(r) && i < k < |r.operations| && Sets(r, k, address, kind)
    ensures kind != Status || !r.operations[k].Configure? ==>
      SetTo(r, k, address, kind) >= r.operations[i].nowMs + ShortestInterval(kind)
    ensures kind == Status && r.operations[k].Configure? ==> SetTo(r, k, address, kind) == r.operations[k].nowMs
  {
    if r.operations[k].Configure? {
      FirstDue(kind, r.operations[k].context, r.operations[k].nowMs);
    } else {
      IntervalAtLeast(kind, r.states[k].slots[address].context, r.operations[k].nowMs);
    }
    hide ConfiguredSlot;
    hide IntervalFor;
  }

  // Exactly when a kind can be ready too early: with a poll at i and the latest setting
  // at k, there is a moment from then on, within the shortest interval of the poll, at
  // which the kind is ready if and only if that setting configured the address for a
  // status poll less than 2000 ms after the poll.
  lemma {:induction false} ReadyEarlyIff(
      r: Run, address: nat, kind: PollKind, i: nat, k: nat, n: nat, load: Load)
    requires ValidRun(r) && Disciplined(r) && i < k && SetsLast(r, k, n, address, kind)
    requires PolledAt(r, i, address, kind)
    ensures ValidState(r.states[n]) && address < LIGHTS && kind != Count
    ensures Admit(RequestFor(address, IndexOf(kind), r.states[n].slots[address].context), load) ==>
      ((exists t: nat :: r.operations[k].nowMs <= t < r.operations[i].nowMs + ShortestInterval(kind)
          && Ready(r.states[n].slots[address], address, IndexOf(kind), t, load))
       <==> kind == Status && r.operations[k].Configure? && r.operations[k].nowMs < r.operations[i].nowMs + 2000)
  {
    hide Admit;
    SetsKnown(r, k, address, kind);
    DueIsSet(r, address, kind, k, n);
    SettingAtLeast(r, address, kind, i, k);
    hide SetTo;
    hide Sets;
    var slot, nowMs := r.states[n].slots[address], r.operations[k].nowMs;
    if kind == Status && r.operations[k].Configure? && Admit(RequestFor(address, 0, slot.context), load) {
      assert Ready(slot, address, IndexOf(kind), nowMs, load);
    }
  }

  // Exactly when a later search finds a kind ready before its shortest interval is over:
  // for a status poll whose address was configured anew since the latest completion.
  lemma {:induction false} FoundEarlyIff(r: Run, address: nat, kind: PollKind, i: nat, j: nat)
    requires ValidRun(r) && Disciplined(r)
    requires i < j < |r.operations| && PolledAt(r, i, address, kind) && r.operations[j].Next?
    ensures address < LIGHTS && kind != Count && ValidState(r.states[j])
    ensures var slot, nowMs, load := r.states[j].slots[address], r.operations[j].nowMs, r.operations[j].load;
      Ready(slot, address, IndexOf(kind), nowMs, load) && nowMs < r.operations[i].nowMs + ShortestInterval(kind)
      <==> && kind == Status && nowMs < r.operations[i].nowMs + 2000
           && Admit(RequestFor(address, IndexOf(kind), slot.context), load)
           && exists k :: i < k < j && Reconfigures(r, k, j, address, kind)
  {
    hide Admit;
    var first := SetBetween(r, address, kind, i, j);
    var k := LastSetting(r, address, kind, first, j);
    SetsKnown(r, k, address, kind);
    DueIsSet(r, address, kind, k, j);
    SettingAtLeast(r, address, kind, i, k);
    forall m | Reconfigures(r, m, j, address, kind) ensures m == k { assert !(m < k) && !(k < m); }
    assert r.operations[k].Configure? ==> Reconfigures(r, k, j, address, kind);
    hide SetTo;
    hide Sets;
  }

  // No search falls within 2000 ms of a status poll of the address while the latest
  // setting after that poll is a new configuration.
  ghost predicate Undisturbed(r: Run, address: nat, kind: PollKind)
    requires |r.states| == |r.operations| + 1 && |r.picks| == |r.operations|
  {
    kind == Status ==>
      forall i, k, j :: 0 <= i < k < j < |r.operations| ==> !Disturbs(r, address, kind, i, k, j)
  }

  ghost predicate Disturbs(r: Run, address: nat, kind: PollKind, i: nat, k: nat, j: nat)
    requires i < k < j < |r.operations| == |r.picks| && |r.states| == |r.operations| + 1
  {
    && PolledAt(r, i, address, kind) && Reconfigures(r, k, j, address, kind)
    && r.operations[j].Next? && r.operations[j].nowMs < r.operations[i].nowMs + 2000
  }

  lemma {:induction false} UndisturbedSpaced(r: Run, address: nat, kind: PollKind, i: nat, j: nat)
    requires ValidRun(r) && Disciplined(r) && Undisturbed(r, address, kind)
    requires i < j < |r.operations| && PolledAt(r, i, address, kind) && PolledAt(r, j, address, kind)
    ensures r.operations[j].nowMs >= r.operations[i].nowMs + ShortestInterval(kind)
  {
    hide Reconfigures;
    hide ReachesSetting;
    hide WaitedOut;
    PollsSpaced(r, address, kind, i, j);
    if kind == Status && exists k :: i < k < j && Reconfigures(r, k, j, address, kind) {
      var k :| i < k < j && Reconfigures(r, k, j, address, kind);
      assert !Disturbs(r, address, kind, i, k, j);
    }
  }

  // How many polls of this kind of this address fall in a window, among the first n calls.
  ghost function PollsIn(r: Run, address: nat, kind: PollKind, from: nat, width: nat, n: nat): nat
    requires n <= |r.operations| == |r.picks|
  {
    if n == 0 then 0
    else
      var latest := PolledAt(r, n - 1, address, kind) && from <= r.operations[n - 1].nowMs <= from + width;
      PollsIn(r, address, kind, from, width, n - 1) + (if latest then 1 else 0)
  }

  // With a poll in the window, the count fits before the latest one.
  lemma {:induction false} PollsFit(r: Run, address: nat, kind: PollKind, from: nat, width: nat, n: nat)
    returns (latest: nat)
    requires ValidRun(r) && Disciplined(r) && Undisturbed(r, address, kind) && n <= |r.operations|
    ensures PollsIn(r, address, kind, from, width, n) > 0 ==>
      && latest < n && PolledAt(r, latest, address, kind)
      && from <= r.operations[latest].nowMs <= from + width
      && from + (PollsIn(r, address, kind, from, width, n) - 1) * ShortestInterval(kind) <= r.operations[latest].nowMs
  {
    hide Disciplined;
    hide Undisturbed;
    hide PolledAt;
    latest := 0;
    if n > 0 {
      latest := PollsFit(r, address, kind, from, width, n - 1);
      var before := PollsIn(r, address, kind, from, width, n - 1);
      if PolledAt(r, n - 1, address, kind) && from <= r.operations[n - 1].nowMs <= from + width {
        if before > 0 {
          UndisturbedSpaced(r, address, kind, latest, n - 1);
          OneMore(before, ShortestInterval(kind));
        }
        latest := n - 1;
      }
    }
  }

  lemma {:induction false} OneMore(n: nat, interval: nat)
    requires n > 0
    ensures n * interval == (n - 1) * interval + interval
  {}

  // So any window holds at most width / interval + 1 of them.
  lemma {:induction false} RateBound(r: Run, address: nat, kind: PollKind, from: nat, width: nat)
    requires ValidRun(r) && Disciplined(r) && Undisturbed(r, address, kind) && kind != Count
    ensures PollsIn(r, address, kind, from, width, |r.operations|) <= width / ShortestInterval(kind) + 1
  {
    var latest := PollsFit(r, address, kind, from, width, |r.operations|);
    var n := PollsIn(r, address, kind, from, width, |r.operations|);
    if n > 0 { DivideBound(n - 1, ShortestInterval(kind), width); }
  }

  lemma {:induction false} DivideBound(n: nat, interval: nat, width: nat)
    requires interval > 0 && n * interval <= width
    ensures n <= width / interval
  {
    var q := width / interval;
    assert width < (q + 1) * interval;
    if n > q { MultiplyMonotonic(q + 1, n, interval); }
  }

  lemma {:induction false} MultiplyMonotonic(m: nat, n: nat, k: nat)
    requires m <= n
    ensures m * k <= n * k
  {}

  // Such a configuration does happen to do harm: it makes a status poll due at once.
  lemma {:induction false} ConfiguredIsReady(
      s: SchedulerState, address: nat, context: LightPollContext, nowMs: nat, load: Load)
    requires ValidState(s) && address < LIGHTS
    requires Admit(RequestFor(address, 0, context), load)
    ensures Ready(Configured(s, address, context, nowMs).slots[address], address, 0, nowMs, load)
  {}

  // With a single configured light the search always ends there.
  lemma {:induction false} OnlyLightPicked(s: SchedulerState, address: nat, nowMs: nat, load: Load)
    requires ValidState(s) && address < LIGHTS
    requires forall a :: 0 <= a < LIGHTS && a != address ==> !s.slots[a].configured
    requires Ready(s.slots[address], address, 0, nowMs, load)
    ensures Picks(s, nowMs, load, s.(cursor := (address + 1) % LIGHTS),
                  Some(RequestFor(address, 0, s.slots[address].context)))
  {
    var after, request := s.(cursor := (address + 1) % LIGHTS), RequestFor(address, 0, s.slots[address].context);
    var offset := Distance(s.cursor, address);
    AroundDistance(s.cursor, address, offset);
    forall earlier | 0 <= earlier < offset
      ensures !Eligible(s.slots[Around(s.cursor, earlier)], Around(s.cursor, earlier), nowMs, load)
    {
      Wrap(s.cursor + earlier);
    }
    assert PickedAt(s, nowMs, load, offset, 0, after, request);
  }

  // One light alone, configured, polled, completed and configured again.
  function ReconfiguringRun(address: nat, context: LightPollContext, nowMs: nat, load: Load): Run
    requires address < LIGHTS
  {
    var request, passed := RequestFor(address, 0, context), (address + 1) % LIGHTS;
    var s0 := Configured(SchedulerState(seq(LIGHTS, i => IDLE), 0), address, context, nowMs);
    var s1 := s0.(cursor := passed);
    var s2 := Completed(s1, request, nowMs);
    var s3 := Configured(s2, address, context, nowMs);
    Run([s0, s1, s2, s3, s3.(cursor := passed)],
        [Next(nowMs, load), Complete(request, nowMs), Configure(address, context, nowMs), Next(nowMs, load)],
        [Some(request), None, None, Some(request)])
  }

  // That run polls the same address for its status twice at the same moment, although
  // time never goes back and every pick is completed before the next search.
  lemma {:induction false} ReconfiguredPolledTwice(address: nat, context: LightPollContext, nowMs: nat, load: Load)
    requires address < LIGHTS && Admit(RequestFor(address, 0, context), load)
    ensures var r := ReconfiguringRun(address, context, nowMs, load);
      && ValidRun(r)
      && Disciplined(r)
      && PolledAt(r, 0, address, Status) && PolledAt(r, 3, address, Status)
      && r.operations[0].nowMs == r.operations[3].nowMs
  {
    var r := ReconfiguringRun(address, context, nowMs, load);
    var idle := SchedulerState(seq(LIGHTS, i => IDLE), 0);
    ConfiguredIsReady(idle, address, context, nowMs, load);
    ConfiguredIsReady(r.states[2], address, context, nowMs, load);
    OnlyLightPicked(r.states[0], address, nowMs, load);
    OnlyLightPicked(r.states[3], address, nowMs, load);
    assert CompletedBetween(r, 0, 3) by { assert r.operations[1].Complete?; }
    forall i | 0 <= i < 4 ensures Step(r.states[i], r.operations[i], r.states[i + 1], r.picks[i]) {}
  }

  // -------------------------------------------------------------------- admission

  // On a bus at or above its normal limit nothing is picked but status polls of lights
  // with a warning or a recent fault, and those are picked below the diagnostic limit.
  lemma {:induction false} OverloadPicks(
      s: SchedulerState, nowMs: nat, load: Load, after: SchedulerState, picked: Option<PollRequest>)
    requires ValidState(s) && Picks(s, nowMs, load, after, picked)
    requires load.utilisation >= load.normalLimit && load.utilisation >= 0.0
    ensures picked.Some? <==>
      load.utilisation < load.diagnosticLimit && exists a :: 0 <= a < LIGHTS && Alert(s.slots[a], nowMs)
    ensures picked.Some? ==> picked.value.kind == Status && picked.value.address < LIGHTS
                             && Alert(s.slots[picked.value.address], nowMs)
  {
    forall a | 0 <= a < LIGHTS
      ensures Eligible(s.slots[a], a, nowMs, load)
        <==> Alert(s.slots[a], nowMs) && load.utilisation < load.diagnosticLimit
    {
      OverloadEligible(s.slots[a], a, nowMs, load);
    }
    if picked.Some? {
      var offset, index :| 0 <= offset < LIGHTS && 0 <= index < KINDS &&
        PickedAt(s, nowMs, load, offset, index, after, picked.value);
      var address := Around(s.cursor, offset);
      OverloadReady(s.slots[address], address, index, nowMs, load);
    }
  }

  // A light in trouble whose status is due.
  predicate Alert(slot: PollSlot, nowMs: nat) {
    slot.configured && slot.dueMs[0] <= nowMs && (slot.context.warningActive || slot.context.recentFault)
  }

  lemma {:induction false} OverloadReady(slot: PollSlot, address: nat, index: nat, nowMs: nat, load: Load)
    requires index < KINDS && load.utilisation >= load.normalLimit && load.utilisation >= 0.0
    ensures Ready(slot, address, index, nowMs, load) <==>
      index == 0 && Alert(slot, nowMs) && load.utilisation < load.diagnosticLimit
  {}

  lemma {:induction false} OverloadEligible(slot: PollSlot, address: nat, nowMs: nat, load: Load)
    requires load.utilisation >= load.normalLimit && load.utilisation >= 0.0
    ensures Eligible(slot, address, nowMs, load) <==> Alert(slot, nowMs) && load.utilisation < load.diagnosticLimit
  {
    hide Ready;
    forall index | 0 <= index < KINDS
      ensures Ready(slot, address, index, nowMs, load) <==>
        index == 0 && Alert(slot, nowMs) && load.utilisation < load.diagnosticLimit
    {
      OverloadReady(slot, address, index, nowMs, load);
    }
    assert Ready(slot, address, 0, nowMs, load) <==> Alert(slot, nowMs) && load.utilisation < load.diagnosticLimit;
  }
}
