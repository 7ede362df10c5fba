/**
 Presence discovery over whole runs of scans: a scan treats the 64 addresses
 independently, its batch lists changes in ascending address order and never drops
 one, and the registry after any number of scans is what each address's own history of
 answers says. Below that, what one scan costs on the bus.
 */
module Discovery {
  import CommandQueue
  import Sequences

  import opened Wrappers
  import opened DaliBus
  import opened Transaction
  import opened Pipeline
  import opened Presence
  import opened DeviceManager

  // ------------------------------------------------------------------ one scan

  // The answers a scan gets, in address order.
  function Answers(env: Environment, s: ScanState, raw: nat, nowMs: nat): (answers: seq<QueryResult>)
    requires |s.slots| == ADDRESSES && raw <= ADDRESSES
    ensures |answers| == ADDRESSES - raw
    decreases ADDRESSES - raw
  {
    if raw == ADDRESSES then []
    else [Ask(env, s, raw, PRESENT_QUERY).1] + Answers(env, ScanOne(env, s, raw, nowMs), raw + 1, nowMs)
  }

  // The change an answer calls for at one address.
  function ChangeFor(slot: Slot, address: ShortAddress, answer: QueryResult, nowMs: nat): seq<Change> {
    var change := ScanStep(slot, address, answer, nowMs).1;
    if change.Some? then [Change(change.value, address, nowMs)] else []
  }

  function ChangesFrom(slots: seq<Slot>, answers: seq<QueryResult>, raw: nat, nowMs: nat): seq<Change>
    requires |slots| == ADDRESSES && raw <= ADDRESSES && |answers| == ADDRESSES - raw
    decreases ADDRESSES - raw
  {
    if raw == ADDRESSES then []
    else ChangeFor(slots[raw], raw, answers[0], nowMs) + ChangesFrom(slots, answers[1..], raw + 1, nowMs)
  }

  lemma {:induction false} ScanOneEffect(env: Environment, s: ScanState, raw: nat, nowMs: nat)
    requires |s.slots| == ADDRESSES && raw < ADDRESSES && |s.changes| < ADDRESSES
    ensures var answer := Ask(env, s, raw, PRESENT_QUERY).1;
      var next := ScanOne(env, s, raw, nowMs);
      && next.slots == s.slots[raw := ScanStep(s.slots[raw], raw, answer, nowMs).0]
      && next.changes == s.changes + ChangeFor(s.slots[raw], raw, answer, nowMs)
      && |ChangeFor(s.slots[raw], raw, answer, nowMs)| <= 1
  {
    hide ScanStep;
    hide Ask;
  }

  // Addresses are independent ...
  lemma {:induction false} ScanIsPointwise(env: Environment, s: ScanState, raw: nat, nowMs: nat, a: ShortAddress)
    requires |s.slots| == ADDRESSES && raw <= ADDRESSES && |s.changes| <= raw
    ensures ScanFrom(env, s, raw, nowMs).slots[a]
      == if a < raw then s.slots[a] else ScanStep(s.slots[a], a, Answers(env, s, raw, nowMs)[a - raw], nowMs).0
    decreases ADDRESSES - raw
  {
    hide ScanStep;
    hide Ask;
    hide ScanOne;
    hide ChangeFor;
    if raw < ADDRESSES {
      var next := ScanOne(env, s, raw, nowMs);
      ScanOneEffect(env, s, raw, nowMs);
      ScanIsPointwise(env, next, raw + 1, nowMs, a);
      assert Answers(env, s, raw, nowMs)[1..] == Answers(env, next, raw + 1, nowMs);
    }
  }

  // ... and every change is kept.
  lemma {:induction false} ScanKeepsChanges(env: Environment, s: ScanState, raw: nat, nowMs: nat)
    requires |s.slots| == ADDRESSES && raw <= ADDRESSES && |s.changes| <= raw
    ensures ScanFrom(env, s, raw, nowMs).changes
      == s.changes + ChangesFrom(s.slots, Answers(env, s, raw, nowMs), raw, nowMs)
    decreases ADDRESSES - raw
  {
    hide ScanStep;
    hide Ask;
    hide ScanOne;
    hide ChangeFor;
    if raw < ADDRESSES {
      var next := ScanOne(env, s, raw, nowMs);
      ScanOneEffect(env, s, raw, nowMs);
      ScanKeepsChanges(env, next, raw + 1, nowMs);
      var later := Answers(env, next, raw + 1, nowMs);
      ChangesDependOnLater(s.slots, next.slots, later, raw + 1, nowMs);
      var here := ChangeFor(s.slots[raw], raw, Ask(env, s, raw, PRESENT_QUERY).1, nowMs);
      Sequences.Associative(s.changes, here, ChangesFrom(s.slots, later, raw + 1, nowMs));
      assert Answers(env, s, raw, nowMs)[1..] == later;
    }
  }

  lemma {:induction false} ChangesDependOnLater(
      x: seq<Slot>, y: seq<Slot>, answers: seq<QueryResult>, raw: nat, nowMs: nat)
    requires |x| == |y| == ADDRESSES && raw <= ADDRESSES && |answers| == ADDRESSES - raw
    requires forall a :: raw <= a < ADDRESSES ==> x[a] == y[a]
    ensures ChangesFrom(x, answers, raw, nowMs) == ChangesFrom(y, answers, raw, nowMs)
    decreases ADDRESSES - raw
  {
    hide ChangeFor;
    if raw < ADDRESSES { ChangesDependOnLater(x, y, answers[1..], raw + 1, nowMs); }
  }

  // At most one change per address, in ascending order: the batch never overflows.
  lemma {:induction false} BatchAscends(slots: seq<Slot>, answers: seq<QueryResult>, raw: nat, nowMs: nat)
    requires |slots| == ADDRESSES && raw <= ADDRESSES && |answers| == ADDRESSES - raw
    ensures var batch := ChangesFrom(slots, answers, raw, nowMs);
      && |batch| <= ADDRESSES - raw
      && (forall i :: 0 <= i < |batch| ==> batch[i].address >= raw)
      && (forall i, j :: 0 <= i < j < |batch| ==> batch[i].address < batch[j].address)
    decreases ADDRESSES - raw
  {
    hide ScanStep;
    if raw < ADDRESSES { BatchAscends(slots, answers[1..], raw + 1, nowMs); }
  }

  // A change is listed exactly when the answer of its address called for it.
  lemma {:induction false} BatchLists(slots: seq<Slot>, answers: seq<QueryResult>, raw: nat, nowMs: nat, c: Change)
    requires |slots| == ADDRESSES && raw <= ADDRESSES && |answers| == ADDRESSES - raw
    ensures c in ChangesFrom(slots, answers, raw, nowMs) <==>
      && raw <= c.address && c.uptimeMs == nowMs
      && ScanStep(slots[c.address], c.address, answers[c.address - raw], nowMs).1 == Some(c.changeType)
    decreases ADDRESSES - raw
  {
    hide ScanStep;
    if raw < ADDRESSES {
      BatchLists(slots, answers[1..], raw + 1, nowMs, c);
      var here := ChangeFor(slots[raw], raw, answers[0], nowMs);
      assert c in ChangesFrom(slots, answers, raw, nowMs)
        <==> c in here || c in ChangesFrom(slots, answers[1..], raw + 1, nowMs);
    }
  }

  // ------------------------------------------------------------------ runs of scans

  // Each scan starts with an empty batch.
  function Scan(env: Environment, s: ScanState, nowMs: nat): ScanState
    requires |s.slots| == ADDRESSES
  {
    ScanFrom(env, s.(changes := []), 0, nowMs)
  }

  ghost function Scans(env: Environment, s: ScanState, times: seq<nat>): (after: ScanState)
    requires |s.slots| == ADDRESSES
    ensures |after.slots| == ADDRESSES
  {
    if times == [] then s
    else
      Scan(env, Scans(env, s, times[..|times| - 1]), times[|times| - 1])
  }

  // What one address answered, scan by scan.
  ghost function HistoryOf(env: Environment, s: ScanState, times: seq<nat>, address: ShortAddress): (h: History)
    requires |s.slots| == ADDRESSES
    ensures |h| == |times|
  {
    if times == [] then []
    else
      var last := |times| - 1;
      var before := Scans(env, s, times[..last]);
      HistoryOf(env, s, times[..last], address)
      + [Observation(Answers(env, before.(changes := []), 0, times[last])[address], times[last])]
  }

  ghost predicate Fresh(s: ScanState) {
    |s.slots| == ADDRESSES && forall a :: 0 <= a < ADDRESSES ==> s.slots[a] == EMPTY_SLOT
  }

  // The latest scan, as one address sees it.
  ghost function LatestAnswer(env: Environment, s: ScanState, times: seq<nat>, address: ShortAddress): QueryResult
    requires |s.slots| == ADDRESSES && times != []
  {
    var last := |times| - 1;
    Answers(env, Scans(env, s, times[..last]).(changes := []), 0, times[last])[address]
  }

  lemma {:induction false} HistoryGrows(env: Environment, s: ScanState, times: seq<nat>, a: ShortAddress)
    requires |s.slots| == ADDRESSES && times != []
    ensures var h, last := HistoryOf(env, s, times, a), |times| - 1;
      && AllBut(h) == HistoryOf(env, s, times[..last], a)
      && Last(h) == Observation(LatestAnswer(env, s, times, a), times[last])
  {
    hide Answers;
    hide Scans;
  }

  lemma {:induction false} SlotFollowsHistory(env: Environment, s: ScanState, times: seq<nat>, a: ShortAddress)
    requires Fresh(s)
    ensures Scans(env, s, times).slots[a] == After(a, HistoryOf(env, s, times, a))
  {
    hide ScanStep;
    if times != [] {
      var last := |times| - 1;
      SlotFollowsHistory(env, s, times[..last], a);
      HistoryGrows(env, s, times, a);
      ScanIsPointwise(env, Scans(env, s, times[..last]).(changes := []), 0, times[last], a);
      hide HistoryOf;
    }
  }

  lemma {:induction false} BatchFollowsHistory(env: Environment, s: ScanState, times: seq<nat>, c: Change)
    requires Fresh(s) && times != []
    ensures c in Scans(env, s, times).changes <==>
      && c.uptimeMs == times[|times| - 1]
      && Reported(c.address, HistoryOf(env, s, times, c.address)) == Some(c.changeType)
  {
    hide ScanStep;
    var last := |times| - 1;
    var start := Scans(env, s, times[..last]).(changes := []);
    SlotFollowsHistory(env, s, times[..last], c.address);
    HistoryGrows(env, s, times, c.address);
    ScanKeepsChanges(env, start, 0, times[last]);
    BatchLists(start.slots, Answers(env, start, 0, times[last]), 0, times[last], c);
    hide HistoryOf;
  }

  // The main result on discovery: from an empty registry, after any number of scans
  // over any bus, each slot is the one its own history gives, and the latest batch
  // holds exactly the reports of those histories, in ascending address order.
  lemma {:induction false} ScansFollowHistories(env: Environment, s: ScanState, times: seq<nat>)
    requires Fresh(s)
    ensures forall a: ShortAddress :: Scans(env, s, times).slots[a] == After(a, HistoryOf(env, s, times, a))
    ensures times != [] ==>
      var batch := Scans(env, s, times).changes;
      && (forall i, j :: 0 <= i < j < |batch| ==> batch[i].address < batch[j].address)
      && (forall c: Change :: c in batch <==>
            && c.uptimeMs == times[|times| - 1]
            && Reported(c.address, HistoryOf(env, s, times, c.address)) == Some(c.changeType))
  {
    forall a: ShortAddress
      ensures Scans(env, s, times).slots[a] == After(a, HistoryOf(env, s, times, a))
    {
      SlotFollowsHistory(env, s, times, a);
    }
    if times != [] {
      var last := |times| - 1;
      var start := Scans(env, s, times[..last]).(changes := []);
      ScanKeepsChanges(env, start, 0, times[last]);
      BatchAscends(start.slots, Answers(env, start, 0, times[last]), 0, times[last]);
      hide After;
      hide Reported;
      hide HistoryOf;
      forall c: Change
        ensures c in Scans(env, s, times).changes <==>
          c.uptimeMs == times[last] && Reported(c.address, HistoryOf(env, s, times, c.address)) == Some(c.changeType)
      {
        BatchFollowsHistory(env, s, times, c);
      }
    }
  }

  // ------------------------------------------------------------- what a scan costs

  // The query client's configuration, as the transaction service accepts it.
  predicate ValidClient(client: Caller) {
    client.timeoutMs > 0 && client.retries <= ABSOLUTE_MAX_RETRIES
  }

  // One query on an empty queue: its own transaction, and the queue is empty again.
  lemma {:induction false} ScanOneOnBus(env: Environment, s: ScanState, raw: nat, nowMs: nat)
    requires |s.slots| == ADDRESSES && raw < ADDRESSES && s.pipeline.queue == []
    ensures var client := s.client;
      var request := QueryRequest(raw, PRESENT_QUERY, HIGH, client.timeoutMs, client.retries, client.sequence);
      var run, next := Execution(env, s.pipeline.trace, request), ScanOne(env, s, raw, nowMs);
      && |next.slots| == ADDRESSES
      && next.pipeline.queue == [] && next.pipeline.trace == run.trace
      && next.client == s.client.(sequence := NextSequence(s.client.sequence))
      && Ask(env, s, raw, PRESENT_QUERY).1 == QueryResultFor(run.result)
  {
    hide ScanStep;
    hide Execution;
    hide QueryResultFor;
    CallOnEmpty(env, s.pipeline,
      QueryRequest(raw, PRESENT_QUERY, HIGH, s.client.timeoutMs, s.client.retries, s.client.sequence));
  }

  lemma {:induction false} ScanKeepsQueueEmpty(env: Environment, s: ScanState, raw: nat, nowMs: nat)
    requires |s.slots| == ADDRESSES && raw <= ADDRESSES && s.pipeline.queue == []
    ensures var after := ScanFrom(env, s, raw, nowMs);
      && after.pipeline.queue == []
      && after.client.timeoutMs == s.client.timeoutMs && after.client.retries == s.client.retries
    decreases ADDRESSES - raw
  {
    hide ScanOne;
    if raw < ADDRESSES {
      ScanOneOnBus(env, s, raw, nowMs);
      ScanKeepsQueueEmpty(env, ScanOne(env, s, raw, nowMs), raw + 1, nowMs);
    }
  }

  // The main result end to end: over any bus, a scan from address `raw` costs between
  // one and retries + 1 transmissions per address and waits at most the backoff bound
  // for each.
  lemma {:induction false} ScanCost(env: Environment, s: ScanState, raw: nat, nowMs: nat) returns (events: Trace)
    requires |s.slots| == ADDRESSES && raw <= ADDRESSES && s.pipeline.queue == []
    requires ValidClient(s.client)
    ensures var after, addresses := ScanFrom(env, s, raw, nowMs), ADDRESSES - raw;
      && after.pipeline.trace == s.pipeline.trace + events
      && addresses <= Transmits(events) <= addresses * (s.client.retries + 1)
      && (JitterBounded(env) ==> DelaySum(events) <= addresses * BackoffBound(s.client.retries))
    decreases ADDRESSES - raw
  {
    hide ScanOne;
    if raw == ADDRESSES {
      events := [];
    } else {
      var next := ScanOne(env, s, raw, nowMs);
      var first := ScanOneCost(env, s, raw, nowMs);
      var rest := ScanCost(env, next, raw + 1, nowMs);
      events := first + rest;
      TraceConcat(first, rest);
      assert s.pipeline.trace + events == (s.pipeline.trace + first) + rest;
      Distribute(ADDRESSES - raw, s.client.retries + 1);
      Distribute(ADDRESSES - raw, BackoffBound(s.client.retries));
    }
  }

  lemma {:induction false} ScanOneCost(env: Environment, s: ScanState, raw: nat, nowMs: nat) returns (events: Trace)
    requires |s.slots| == ADDRESSES && raw < ADDRESSES && s.pipeline.queue == []
    requires ValidClient(s.client)
    ensures var next := ScanOne(env, s, raw, nowMs);
      && |next.slots| == ADDRESSES && next.pipeline.queue == []
      && next.client == s.client.(sequence := NextSequence(s.client.sequence))
      && next.pipeline.trace == s.pipeline.trace + events
      && 1 <= Transmits(events) <= s.client.retries + 1
      && OnlyFrame(events, 256 * (2 * raw + 1) + 0x91)
      && (JitterBounded(env) ==> DelaySum(events) <= BackoffBound(s.client.retries))
  {
    ScanOneOnBus(env, s, raw, nowMs);
    hide ScanOne;
    hide Execution;
    events := QueryCost(env, s.pipeline.trace,
      QueryRequest(raw, PRESENT_QUERY, HIGH, s.client.timeoutMs, s.client.retries, s.client.sequence));
  }

  // Every address from `raw` on is sent its own presence query, command 0x91, and that at
  // most retries + 1 times; no other address is.
  lemma {:induction false} ScanAsksEach(env: Environment, s: ScanState, raw: nat, nowMs: nat, a: ShortAddress)
    returns (events: Trace)
    requires |s.slots| == ADDRESSES && raw <= ADDRESSES && s.pipeline.queue == []
    requires ValidClient(s.client)
    ensures ScanFrom(env, s, raw, nowMs).pipeline.trace == s.pipeline.trace + events
    ensures var sent := Sent(events, 256 * (2 * a + 1) + 0x91);
      if a < raw then sent == 0 else 1 <= sent <= s.client.retries + 1
    decreases ADDRESSES - raw
  {
    hide ScanOne;
    if raw == ADDRESSES {
      events := [];
    } else {
      var frame := 256 * (2 * a + 1) + 0x91;
      var first := ScanOneCost(env, s, raw, nowMs);
      var rest := ScanAsksEach(env, ScanOne(env, s, raw, nowMs), raw + 1, nowMs, a);
      events := first + rest;
      OnlyFrameSent(first, 256 * (2 * raw + 1) + 0x91, frame);
      SentConcat(first, rest, frame);
      Sequences.Associative(s.pipeline.trace, first, rest);
    }
  }

  lemma {:induction false} Distribute(n: nat, m: nat)
    requires n > 0
    ensures n * m == m + (n - 1) * m
  {}

  lemma {:induction false} QueryCost(
      env: Environment, trace: Trace, request: CommandQueue.DaliRequest) returns (events: Trace)
    requires ValidRequest(request)
    ensures Execution(env, trace, request).trace == trace + events
    ensures 1 <= Transmits(events) <= request.maxRetries + 1
    ensures OnlyFrame(events, request.frame)
    ensures JitterBounded(env) ==> DelaySum(events) <= BackoffBound(request.maxRetries)
  {
    events := TransactionTrace(env, trace, request);
    if JitterBounded(env) { DelayBound(env, trace, request); }
  }

  // How the last thing the bus did counts for presence: everything but an answer, a
  // collision and loss of power is a miss, and so is finding the queue full.
  lemma {:induction false} KindFromBus(env: Environment, trace: Trace, request: CommandQueue.DaliRequest)
    requires ValidRequest(request) && request.expectsResponse
    ensures var result := Execution(env, trace, request).result;
      KindOf(QueryResultFor(result)) ==
        (match result.lastPhyResult
         case Ok => Answer
         case Collision => Clash
         case BusPowerLost => BusDown
         case _ => Miss)
    ensures KindOf(QUEUE_FULL) == Miss
  {
    var _ := QueryOutcomeMeaning(env, trace, request);
    hide Execution;
  }

  // Which request a query of the manager is answered for: its own unless a critical or
  // high request was waiting, which is then processed in its place.
  lemma {:induction false} AskOwnIff(env: Environment, s: ScanState, a: ShortAddress, command: nat)
    requires |s.pipeline.queue| < 64
    ensures var client := s.client;
      var own := QueryRequest(a, command, 1, client.timeoutMs, client.retries, client.sequence);
      var (after, result) := Ask(env, s, a, command);
      if s.pipeline.queue == [] || s.pipeline.queue[0].priority > 1 then
        && after.queue == s.pipeline.queue
        && result == QueryResultFor(Execution(env, s.pipeline.trace, own).result)
      else
        result == QueryResultFor(Execution(env, s.pipeline.trace, s.pipeline.queue[0]).result)
  {
    OwnRequestIff(env, s.pipeline,
      QueryRequest(a, command, HIGH, s.client.timeoutMs, s.client.retries, s.client.sequence));
    hide Execution;
    hide QueryResultFor;
    hide AfterCall;
  }

  // ---- a bus without power

  // From this moment of the bus on, for so many events to come, every attempt reports
  // loss of bus power. Before and afterwards anything may happen.
  ghost predicate PowerLostDuring(env: Environment, start: Trace, limit: nat) {
    forall trace: Trace, request: CommandQueue.DaliRequest ::
      request.expectsResponse && start <= trace && |trace| < |start| + limit ==>
        TryOnce(env, trace, request).result == PhyResult.BusPowerLost
  }

  lemma {:induction false} StillLost(env: Environment, start: Trace, limit: nat, events: Trace)
    requires PowerLostDuring(env, start, limit) && |events| <= 2 <= limit
    ensures PowerLostDuring(env, start + events, limit - 2)
  {
    hide TryOnce;
    forall trace: Trace, request: CommandQueue.DaliRequest
      | request.expectsResponse && start + events <= trace && |trace| < |start + events| + (limit - 2)
      ensures TryOnce(env, trace, request).result == PhyResult.BusPowerLost
    {
      assert start <= start + events <= trace;
    }
  }

  lemma {:induction false} PowerLossOnce(
      env: Environment, trace: Trace, request: CommandQueue.DaliRequest, limit: nat) returns (events: Trace)
    requires PowerLostDuring(env, trace, limit) && limit > 0
    requires ValidRequest(request) && request.expectsResponse
    ensures var run := Execution(env, trace, request);
      && run.trace == trace + events && |events| <= 2 && Transmits(events) == 1 && Delays(events) == 0
      && KindOf(QueryResultFor(run.result)) == BusDown
  {
    events := Added(env, trace, request);
    AttemptThen(env, trace, request, []);
    assert TryOnce(env, trace, request).result == PhyResult.BusPowerLost;
  }

  lemma {:induction false} BusDownChangesNothing(slot: Slot, address: ShortAddress, result: QueryResult, nowMs: nat)
    requires KindOf(result) == BusDown
    ensures ScanStep(slot, address, result, nowMs) == (slot, None)
  {}

  // While bus power is lost a scan makes one transmission per address, waits for
  // nothing, and leaves every record, every latch and the batch as they were, whatever
  // was found before the outage and whatever comes after it.
  lemma {:induction false} ScanWithoutPower(
      env: Environment, s: ScanState, raw: nat, nowMs: nat) returns (events: Trace)
    requires |s.slots| == ADDRESSES && raw <= ADDRESSES && s.pipeline.queue == []
    requires ValidClient(s.client) && PowerLostDuring(env, s.pipeline.trace, 2 * (ADDRESSES - raw))
    ensures var after := ScanFrom(env, s, raw, nowMs);
      && after.slots == s.slots && after.changes == s.changes
      && after.pipeline.trace == s.pipeline.trace + events
      && Transmits(events) == ADDRESSES - raw && Delays(events) == 0
    decreases ADDRESSES - raw
  {
    hide ScanOne;
    hide PowerLostDuring;
    if raw == ADDRESSES {
      events := [];
    } else {
      var first := ScanOneWithoutPower(env, s, raw, nowMs);
      StillLost(env, s.pipeline.trace, 2 * (ADDRESSES - raw), first);
      var rest := ScanWithoutPower(env, ScanOne(env, s, raw, nowMs), raw + 1, nowMs);
      events := first + rest;
      TraceConcat(first, rest);
      Sequences.Associative(s.pipeline.trace, first, rest);
    }
  }

  lemma {:induction false} ScanOneWithoutPower(
      env: Environment, s: ScanState, raw: nat, nowMs: nat) returns (events: Trace)
    requires |s.slots| == ADDRESSES && raw < ADDRESSES && s.pipeline.queue == []
    requires ValidClient(s.client) && PowerLostDuring(env, s.pipeline.trace, 2 * (ADDRESSES - raw))
    ensures var next := ScanOne(env, s, raw, nowMs);
      && next.slots == s.slots && next.changes == s.changes
      && next.pipeline.queue == [] && next.client == s.client.(sequence := NextSequence(s.client.sequence))
      && next.pipeline.trace == s.pipeline.trace + events
      && |events| <= 2 && Transmits(events) == 1 && Delays(events) == 0
  {
    ScanOneOnBus(env, s, raw, nowMs);
    hide ScanStep;
    hide Ask;
    hide Execution;
    hide TryOnce;
    hide PowerLostDuring;
    events := PowerLossOnce(env, s.pipeline.trace,
      QueryRequest(raw, PRESENT_QUERY, HIGH, s.client.timeoutMs, s.client.retries, s.client.sequence),
      2 * (ADDRESSES - raw));
    BusDownChangesNothing(s.slots[raw], raw, Ask(env, s, raw, PRESENT_QUERY).1, nowMs);
  }

  lemma {:induction false} ScansKeepClient(env: Environment, s: ScanState, times: seq<nat>)
    requires |s.slots| == ADDRESSES && s.pipeline.queue == []
    ensures var after := Scans(env, s, times);
      && after.pipeline.queue == []
      && after.client.timeoutMs == s.client.timeoutMs && after.client.retries == s.client.retries
  {
    if times != [] {
      var last := |times| - 1;
      ScansKeepClient(env, s, times[..last]);
      ScanKeepsQueueEmpty(env, Scans(env, s, times[..last]).(changes := []), 0, times[last]);
    }
  }

  // So in any run of scans one that falls into an outage finds nothing, loses nothing
  // and reports nothing.
  lemma {:induction false} OutageGoesUnnoticed(env: Environment, s: ScanState, times: seq<nat>) returns (events: Trace)
    requires |s.slots| == ADDRESSES && s.pipeline.queue == [] && ValidClient(s.client) && times != []
    ensures var before, after := Scans(env, s, times[..|times| - 1]), Scans(env, s, times);
      PowerLostDuring(env, before.pipeline.trace, 2 * ADDRESSES) ==>
        && after.slots == before.slots && after.changes == []
        && after.pipeline.trace == before.pipeline.trace + events
        && Transmits(events) == ADDRESSES && Delays(events) == 0
  {
    hide PowerLostDuring;
    hide ScanFrom;
    var last := |times| - 1;
    ScansKeepClient(env, s, times[..last]);
    var start := Scans(env, s, times[..last]).(changes := []);
    events := [];
    if PowerLostDuring(env, start.pipeline.trace, 2 * ADDRESSES) {
      events := ScanWithoutPower(env, start, 0, times[last]);
    }
  }

  // ---- a misconfigured client

  // A client the transaction service rejects never reaches the bus, and every answer
  // it gives counts as a miss.
  lemma {:induction false} ScanMisconfigured(env: Environment, s: ScanState, raw: nat, nowMs: nat)
    requires |s.slots| == ADDRESSES && raw <= ADDRESSES && s.pipeline.queue == []
    requires !ValidClient(s.client)
    ensures ScanFrom(env, s, raw, nowMs).pipeline.trace == s.pipeline.trace
    ensures forall answer :: answer in Answers(env, s, raw, nowMs) ==> KindOf(answer) == Miss
    decreases ADDRESSES - raw
  {
    if raw < ADDRESSES {
      ScanOneOnBus(env, s, raw, nowMs);
      hide ScanOne;
      ScanMisconfigured(env, ScanOne(env, s, raw, nowMs), raw + 1, nowMs);
    }
  }

  lemma {:induction false} MisconfiguredScan(env: Environment, s: ScanState, nowMs: nat)
    requires Fresh(s) && s.changes == [] && s.pipeline.queue == [] && !ValidClient(s.client)
    ensures Fresh(ScanFrom(env, s, 0, nowMs)) && ScanFrom(env, s, 0, nowMs).changes == []
  {
    hide ScanFrom;
    hide Answers;
    hide ScanStep;
    hide KindOf;
    hide ChangesFrom;
    ScanMisconfigured(env, s, 0, nowMs);
    ScanKeepsChanges(env, s, 0, nowMs);
    var answers := Answers(env, s, 0, nowMs);
    forall a: ShortAddress
      ensures ScanFrom(env, s, 0, nowMs).slots[a] == EMPTY_SLOT
      ensures ScanStep(s.slots[a], a, answers[a], nowMs).1 == None
    {
      ScanIsPointwise(env, s, 0, nowMs, a);
      MissFindsNothing(a, answers[a], nowMs);
    }
    NothingToReport(s.slots, answers, 0, nowMs);
  }

  lemma {:induction false} NothingToReport(slots: seq<Slot>, answers: seq<QueryResult>, raw: nat, nowMs: nat)
    requires |slots| == ADDRESSES && raw <= ADDRESSES && |answers| == ADDRESSES - raw
    requires forall i :: 0 <= i < |answers| ==> ScanStep(slots[raw + i], raw + i, answers[i], nowMs).1 == None
    ensures ChangesFrom(slots, answers, raw, nowMs) == []
    decreases ADDRESSES - raw
  {
    hide ScanStep;
    if raw < ADDRESSES {
      assert forall i :: 0 <= i < |answers| - 1 ==> answers[1..][i] == answers[i + 1];
      NothingToReport(slots, answers[1..], raw + 1, nowMs);
    }
  }

  // So it never finds anything: from an empty registry its scans leave it empty.
  lemma {:induction false} MisconfiguredFindsNothing(env: Environment, s: ScanState, times: seq<nat>)
    requires Fresh(s) && s.pipeline.queue == [] && !ValidClient(s.client)
    ensures Fresh(Scans(env, s, times)) && Scans(env, s, times).pipeline.trace == s.pipeline.trace
    ensures times != [] ==> Scans(env, s, times).changes == []
  {
    hide ScanFrom;
    if times != [] {
      var last := |times| - 1;
      MisconfiguredFindsNothing(env, s, times[..last]);
      ScansKeepClient(env, s, times[..last]);
      var start := Scans(env, s, times[..last]).(changes := []);
      ScanMisconfigured(env, start, 0, times[last]);
      MisconfiguredScan(env, start, times[last]);
    }
  }

  lemma {:induction false} MissFindsNothing(address: ShortAddress, result: QueryResult, nowMs: nat)
    requires KindOf(result) == Miss
    ensures ScanStep(EMPTY_SLOT, address, result, nowMs) == (EMPTY_SLOT, None)
  {}
}
