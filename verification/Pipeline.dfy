/**
 The serial protocol pipeline and its two synchronous users: the query client and the
 control service. Each call enqueues one request and processes one.
 */
module Pipeline {
  import opened Wrappers
  import opened DaliBus
  import opened CommandQueue
  import opened Transaction
  import opened Quality

  // ------------------------------------------------------------- the pipeline as a value

  datatype State = State(queue: seq<DaliRequest>, trace: Trace, counters: Counters)

  datatype Processed = Processed(request: DaliRequest, result: TransactionResult)

  function AfterEnqueue(state: State, request: DaliRequest): State {
    if |state.queue| == CAPACITY then state else state.(queue := Inserted(state.queue, request))
  }

  function AfterProcess(env: Environment, state: State): (State, Option<Processed>) {
    if state.queue == [] then (state, None)
    else
      var run := Execution(env, state.trace, state.queue[0]);
      (State(state.queue[1..], run.trace, Recorded(state.counters, run.result)),
       Some(Processed(state.queue[0], run.result)))
  }

  class DaliProtocolPipeline {
    const queue: DaliCommandQueue
    const service: DaliTransactionService
    const tracker: CommunicationQualityTracker

    ghost function Repr(): set<object> { {queue, queue.items, service.bus, tracker} }

    ghost predicate Valid()
      reads queue
    {
      queue.Valid()
    }

    ghost function Env(): Environment { service.bus.env }

    ghost function Now(): State
      requires Valid()
      reads queue, Repr()
    {
      State(queue.Contents(), service.bus.trace, tracker.counters)
    }

    constructor (service: DaliTransactionService)
      ensures Valid() && fresh(Repr() - {service.bus})
      ensures this.service == service && Now() == State([], service.bus.trace, NO_COUNTS)
    {
      this.service := service;
      queue := new DaliCommandQueue();
      tracker := new CommunicationQualityTracker();
    }

    method Enqueue(request: DaliRequest) returns (result: QueueResult)
      requires Valid()
      modifies queue, queue.items
      ensures Valid() && Now() == AfterEnqueue(old(Now()), request)
      ensures result == if |old(Now()).queue| == CAPACITY then QueueResult.Full else QueueResult.Ok
    {
      result := queue.Enqueue(request);
    }

    method ProcessNext() returns (processed: Option<Processed>)
      requires Valid()
      modifies Repr()
      ensures Valid() && (Now(), processed) == AfterProcess(Env(), old(Now()))
    {
      var request := queue.Pop();
      if request.None? { return None; }
      var result := service.Execute(request.value);
      tracker.Record(result);
      return Some(Processed(request.value, result));
    }
  }

  // ----------------------------------------------------------------------- query results

  datatype ReadingQuality =
    | Unknown | ValidReading | Estimated | TemporarilyUnavailable | Unsupported | InvalidReading

  datatype Reading = Reading(value: nat, quality: ReadingQuality, uptimeMs: nat) {
    predicate HasValue() { quality.ValidReading? || quality.Estimated? }
  }

  const UNAVAILABLE := Reading(0, TemporarilyUnavailable, 0)
  const INVALID := Reading(0, InvalidReading, 0)

  datatype QueryOutcome =
    | Answered | NoResponse | Collided | BusBusy | BusFailure | HardwareFailure | QueueFull | Invalid

  datatype QueryResult = QueryResult(
    outcome: QueryOutcome, response: Reading, attempts: nat, phyResult: PhyResult)

  function OutcomeFromResult(result: TransactionResult): QueryOutcome {
    if result.status.Succeeded? && result.response.Some? then Answered
    else
      match result.lastPhyResult
      case Timeout => NoResponse
      case Collision => QueryOutcome.Collided
      case Busy => BusBusy
      case BusPowerLost => BusFailure
      case TransceiverFault => HardwareFailure
      case NotInitialised => HardwareFailure
      case InternalError => HardwareFailure
      case InvalidArgument => Invalid
      case Ok => Invalid
  }

  function ReadingForResult(result: TransactionResult, outcome: QueryOutcome): Reading {
    if outcome.Answered? && result.response.Some? then Reading(result.response.value, ValidReading, 0)
    else if outcome.NoResponse? || outcome.Collided? || outcome.BusBusy? then UNAVAILABLE
    else INVALID
  }

  function QueryResultFor(result: TransactionResult): QueryResult {
    var outcome := OutcomeFromResult(result);
    QueryResult(outcome, ReadingForResult(result, outcome), result.attempts, result.lastPhyResult)
  }

  const QUEUE_FULL := QueryResult(QueueFull, UNAVAILABLE, 0, PhyResult.Busy)

  // ------------------------------------------------------------------- the two callers

  type ShortAddress = a: nat | a < 64

  // A short-address command frame: address byte 2a+1, then the command byte.
  function ShortCommandFrame(address: ShortAddress, command: nat): nat {
    256 * (2 * address + 1) + command
  }

  // 32-bit sequence numbers wrap.
  function NextSequence(sequence: nat): nat { (sequence + 1) % 0x1_0000_0000 }

  function QueryRequest(
      address: ShortAddress, command: nat, priority: Priority, timeoutMs: nat, retries: nat, sequence: nat): DaliRequest
  {
    DaliRequest(ShortCommandFrame(address, command), true, timeoutMs, retries, priority, address, sequence)
  }

  // Enqueue, then process whatever is at the head.
  function AfterCall(env: Environment, state: State, request: DaliRequest): (State, Option<Processed>) {
    if |state.queue| == CAPACITY then (state, None)
    else AfterProcess(env, AfterEnqueue(state, request))
  }

  function QueryReply(processed: Option<Processed>): QueryResult {
    if processed.None? then QUEUE_FULL else QueryResultFor(processed.value.result)
  }

  class PipelineQueryClient {
    const pipeline: DaliProtocolPipeline
    const timeoutMs: nat
    const maximumRetries: nat
    var nextSequence: nat

    constructor (pipeline: DaliProtocolPipeline, timeoutMs: nat, maximumRetries: nat)
      ensures this.pipeline == pipeline && this.timeoutMs == timeoutMs && this.maximumRetries == maximumRetries
      ensures nextSequence == 1
    {
      this.pipeline, this.timeoutMs, this.maximumRetries := pipeline, timeoutMs, maximumRetries;
      nextSequence := 1;
    }

    method Query(address: ShortAddress, command: nat, priority: Priority) returns (result: QueryResult)
      requires pipeline.Valid()
      modifies this, pipeline.Repr()
      ensures pipeline.Valid() && nextSequence == NextSequence(old(nextSequence))
      ensures var request := QueryRequest(address, command, priority, timeoutMs, maximumRetries, old(nextSequence));
        var (after, processed) := AfterCall(pipeline.Env(), old(pipeline.Now()), request);
        pipeline.Now() == after && result == QueryReply(processed)
    {
      hide Execution;
      hide Inserted;
      hide Recorded;
      hide OutcomeFromResult;
      hide ReadingForResult;
      hide QueryRequest;
      hide NextSequence;
      assert (this as object) !in pipeline.Repr();
      var request := QueryRequest(address, command, priority, timeoutMs, maximumRetries, nextSequence);
      nextSequence := NextSequence(nextSequence);
      var queued := pipeline.Enqueue(request);
      if queued != QueueResult.Ok { return QUEUE_FULL; }
      var processed := pipeline.ProcessNext();
      if processed.None? { assert false; }  // the request just stored is still there
      var outcome := OutcomeFromResult(processed.value.result);
      return QueryResult(outcome, ReadingForResult(processed.value.result, outcome),
                         processed.value.result.attempts, processed.value.result.lastPhyResult);
    }
  }

  datatype ControlResult = Done | ControlQueueFull | TransactionFailed | InvalidLevel

  function ControlReply(processed: Option<Processed>): ControlResult {
    if processed.None? then ControlQueueFull
    else if processed.value.result.status.Succeeded? then Done else TransactionFailed
  }

  function ControlRequest(
      frame: nat, deviceKey: nat, priority: Priority, timeoutMs: nat, retries: nat, sequence: nat): DaliRequest {
    DaliRequest(frame, false, timeoutMs, retries, priority, deviceKey, sequence)
  }

  class DaliControl {
    const pipeline: DaliProtocolPipeline
    const timeoutMs: nat
    const maxRetries: nat
    var nextSequence: nat

    constructor (pipeline: DaliProtocolPipeline, timeoutMs: nat, maxRetries: nat)
      ensures this.pipeline == pipeline && this.timeoutMs == timeoutMs && this.maxRetries == maxRetries
      ensures nextSequence == 1
    {
      this.pipeline, this.timeoutMs, this.maxRetries := pipeline, timeoutMs, maxRetries;
      nextSequence := 1;
    }

    method Submit(frame: nat, deviceKey: nat, priority: Priority) returns (result: ControlResult)
      requires pipeline.Valid()
      modifies this, pipeline.Repr()
      ensures pipeline.Valid() && nextSequence == NextSequence(old(nextSequence))
      ensures var request := ControlRequest(frame, deviceKey, priority, timeoutMs, maxRetries, old(nextSequence));
        var (after, processed) := AfterCall(pipeline.Env(), old(pipeline.Now()), request);
        pipeline.Now() == after && result == ControlReply(processed)
    {
      hide Execution;
      hide Inserted;
      hide Recorded;
      hide ControlRequest;
      hide NextSequence;
      assert (this as object) !in pipeline.Repr();
      var request := ControlRequest(frame, deviceKey, priority, timeoutMs, maxRetries, nextSequence);
      nextSequence := NextSequence(nextSequence);
      var queued := pipeline.Enqueue(request);
      if queued != QueueResult.Ok { return ControlQueueFull; }
      var processed := pipeline.ProcessNext();
      if processed.None? { assert false; }  // the request just stored is still there
      return if processed.value.result.status.Succeeded? then Done else TransactionFailed;
    }
  }

  // ---------------------------------------------------------------------- request ownership

  // Which request a call processes: its own, or one that was waiting.
  lemma {:induction false} OwnRequestIff(env: Environment, state: State, request: DaliRequest)
    requires |state.queue| < 64
    ensures var (after, processed) := AfterCall(env, state, request);
      && processed.Some?
      && |after.queue| == |state.queue|
      && (state.queue == [] || state.queue[0].priority > request.priority ==>
            processed.value.request == request && after.queue == state.queue)
      && (state.queue != [] && state.queue[0].priority <= request.priority ==>
            processed.value.request == state.queue[0])
      && (var run := Execution(env, state.trace, processed.value.request);
          && processed.value.result == run.result && after.trace == run.trace
          && after.counters == Recorded(state.counters, run.result))
  {
    var at := InsertionPoint(state.queue, request.priority);
    if at == 0 { assert state.queue[..0] + [request] + state.queue[0..] == [request] + state.queue; }
  }

  // A call on an empty queue is a transaction of its own request and nothing else.
  lemma {:induction false} CallOnEmpty(env: Environment, state: State, request: DaliRequest)
    requires state.queue == []
    ensures var run := Execution(env, state.trace, request);
      AfterCall(env, state, request)
      == (State([], run.trace, Recorded(state.counters, run.result)), Some(Processed(request, run.result)))
  {
    assert Inserted([], request) == [request];
  }

  datatype Call =
    | QueryCall(address: ShortAddress, command: nat, queryPriority: Priority)
    | SubmitCall(frame: nat, deviceKey: nat, submitPriority: Priority)

  datatype Caller = Caller(timeoutMs: nat, retries: nat, sequence: nat)

  datatype System = System(state: State, client: Caller, control: Caller)

  datatype Reply =
    | QueryAnswer(request: DaliRequest, result: QueryResult)
    | SubmitAnswer(request: DaliRequest, outcome: ControlResult)

  function RequestOf(system: System, call: Call): DaliRequest {
    match call
    case QueryCall(address, command, priority) =>
      QueryRequest(address, command, priority, system.client.timeoutMs, system.client.retries, system.client.sequence)
    case SubmitCall(frame, deviceKey, priority) =>
      ControlRequest(
        frame, deviceKey, priority, system.control.timeoutMs, system.control.retries, system.control.sequence)
  }

  // One call of either user, as the two methods behave.
  function SystemStep(env: Environment, system: System, call: Call): (System, Reply) {
    var request := RequestOf(system, call);
    var (after, processed) := AfterCall(env, system.state, request);
    match call
    case QueryCall(_, _, _) =>
      (system.(state := after, client := system.client.(sequence := NextSequence(system.client.sequence))),
       QueryAnswer(request, QueryReply(processed)))
    case SubmitCall(_, _, _) =>
      (system.(state := after, control := system.control.(sequence := NextSequence(system.control.sequence))),
       SubmitAnswer(request, ControlReply(processed)))
  }

  function SystemRun(env: Environment, system: System, calls: seq<Call>): (System, seq<Reply>) {
    if calls == [] then (system, [])
    else
      var last := |calls| - 1;
      var (before, replies) := SystemRun(env, system, calls[..last]);
      var (after, reply) := SystemStep(env, before, calls[last]);
      (after, replies + [reply])
  }

  // The reply a transaction of the caller's own request calls for.
  function OwnReply(env: Environment, trace: Trace, request: DaliRequest, call: Call): Reply {
    var result := Execution(env, trace, request).result;
    if call.QueryCall? then QueryAnswer(request, QueryResultFor(result))
    else SubmitAnswer(request, if result.status.Succeeded? then Done else TransactionFailed)
  }

  predicate TurnedAway(reply: Reply) {
    match reply
    case QueryAnswer(_, result) => result.outcome == QueueFull
    case SubmitAnswer(_, outcome) => outcome == ControlQueueFull
  }

  lemma {:induction false} StepOwnsReply(env: Environment, system: System, call: Call)
    requires system.state.queue == []
    ensures var (after, reply) := SystemStep(env, system, call);
      && after.state.queue == []
      && reply == OwnReply(env, system.state.trace, RequestOf(system, call), call)
      && Delivers(after.state.trace, reply)
      && !TurnedAway(reply)
  {
    CallOnEmpty(env, system.state, RequestOf(system, call));
    OwnReplyDelivers(env, system.state.trace, RequestOf(system, call), call);
    hide Execution;
    hide QueryResultFor;
    hide EndsDelivered;
  }

  // The i-th reply of a run is that of the i-th caller's own request, as built from
  // its address or frame and its sequence number at that moment.
  ghost predicate OwnsReply(env: Environment, system: System, calls: seq<Call>, replies: seq<Reply>, i: nat)
    requires i < |calls| == |replies|
  {
    var before := SystemRun(env, system, calls[..i]).0;
    && replies[i] == OwnReply(env, before.state.trace, RequestOf(before, calls[i]), calls[i])
    && Delivers(SystemRun(env, system, calls[..i + 1]).0.state.trace, replies[i])
  }

  // A value handed to the caller is the one the bus has just delivered, in answer to the
  // caller's own frame.
  ghost predicate Delivers(trace: Trace, reply: Reply) {
    reply.QueryAnswer? && reply.result.outcome.Answered? ==>
      EndsDelivered(trace, reply.request.frame, reply.result.response.value)
  }

  lemma {:induction false} OwnReplyDelivers(env: Environment, trace: Trace, request: DaliRequest, call: Call)
    ensures call.QueryCall? ==> request.expectsResponse ==>
      Delivers(Execution(env, trace, request).trace, OwnReply(env, trace, request, call))
  {
    StatusMeaning(env, trace, request);
    if ValidRequest(request) && request.expectsResponse {
      var events := QueryOutcomeMeaning(env, trace, request);
      hide Execution;
    }
  }

  // The main result on the pipeline: while all traffic goes through the two users, the
  // queue is empty between calls, no call is turned away, and every reply reports the
  // transaction of the caller's own request.
  lemma {:induction false} CallsOwnTheirReplies(env: Environment, system: System, calls: seq<Call>)
    requires system.state.queue == []
    ensures var (after, replies) := SystemRun(env, system, calls);
      && after.state.queue == []
      && |replies| == |calls|
      && forall i :: 0 <= i < |calls| ==> OwnsReply(env, system, calls, replies, i) && !TurnedAway(replies[i])
  {
    hide SystemStep;
    hide OwnsReply;
    hide TurnedAway;
    hide Delivers;
    if calls != [] {
      var last := |calls| - 1;
      var (before, replies) := SystemRun(env, system, calls[..last]);
      CallsOwnTheirReplies(env, system, calls[..last]);
      StepOwnsReply(env, before, calls[last]);
      var (after, reply) := SystemStep(env, before, calls[last]);
      LastOwnsReply(env, system, calls, replies, reply);
      forall i | 0 <= i < last ensures OwnsReply(env, system, calls, replies + [reply], i) {
        assert OwnsReply(env, system, calls[..last], replies, i);
        PrefixOwnsReply(env, system, calls, replies, reply, i);
      }
    }
  }

  lemma {:induction false} LastOwnsReply(
      env: Environment, system: System, calls: seq<Call>, replies: seq<Reply>, reply: Reply)
    requires |replies| == |calls| - 1
    requires var before := SystemRun(env, system, calls[..|calls| - 1]).0;
      reply == OwnReply(env, before.state.trace, RequestOf(before, calls[|calls| - 1]), calls[|calls| - 1])
    requires Delivers(SystemRun(env, system, calls).0.state.trace, reply)
    ensures OwnsReply(env, system, calls, replies + [reply], |calls| - 1)
  {
    hide Delivers;
    assert calls[..|calls|] == calls;
    hide SystemRun;
    hide RequestOf;
    hide OwnReply;
  }

  lemma {:induction false} PrefixOwnsReply(
      env: Environment, system: System, calls: seq<Call>, replies: seq<Reply>, reply: Reply, i: nat)
    requires i < |replies| == |calls| - 1
    requires OwnsReply(env, system, calls[..|calls| - 1], replies, i)
    ensures OwnsReply(env, system, calls, replies + [reply], i)
  {
    hide SystemRun;
    hide RequestOf;
    hide OwnReply;
    hide Delivers;
    assert calls[..|calls| - 1][..i] == calls[..i] && calls[..|calls| - 1][..i + 1] == calls[..i + 1];
  }

  function Queries(calls: seq<Call>): nat {
    if calls == [] then 0
    else Queries(calls[..|calls| - 1]) + (if calls[|calls| - 1].QueryCall? then 1 else 0)
  }

  lemma {:induction false} SequencesCount(env: Environment, system: System, calls: seq<Call>)
    requires system.client.sequence < 0x1_0000_0000 && system.control.sequence < 0x1_0000_0000
    ensures var after := SystemRun(env, system, calls).0;
      && after.client
        == system.client.(sequence := (system.client.sequence + Queries(calls)) % 0x1_0000_0000)
      && after.control
        == system.control.(sequence := (system.control.sequence + |calls| - Queries(calls)) % 0x1_0000_0000)
      && Queries(calls) <= |calls|
  {
    hide AfterCall;
    if calls != [] {
      var before := calls[..|calls| - 1];
      SequencesCount(env, system, before);
      NextAfter(system.client.sequence + Queries(before));
      NextAfter(system.control.sequence + |before| - Queries(before));
    }
  }

  lemma {:induction false} NextAfter(n: nat)
    ensures NextSequence(n % 0x1_0000_0000) == (n + 1) % 0x1_0000_0000
  {}

  // What the i-th call of a run puts on the queue: its own address or frame, numbered by
  // how many calls of its kind went before.
  lemma {:induction false} RequestInRun(env: Environment, system: System, calls: seq<Call>, i: nat)
    requires i < |calls|
    requires system.client.sequence < 0x1_0000_0000 && system.control.sequence < 0x1_0000_0000
    ensures Queries(calls[..i]) <= i
    ensures var request := RequestOf(SystemRun(env, system, calls[..i]).0, calls[i]);
      match calls[i]
      case QueryCall(address, command, priority) =>
        && request.frame == 256 * (2 * address + 1) + command && request.expectsResponse
        && request.timeoutMs == system.client.timeoutMs && request.maxRetries == system.client.retries
        && request.priority == priority && request.deviceKey == address
        && request.requestSequence == (system.client.sequence + Queries(calls[..i])) % 0x1_0000_0000
      case SubmitCall(frame, deviceKey, priority) =>
        && request.frame == frame && !request.expectsResponse
        && request.timeoutMs == system.control.timeoutMs && request.maxRetries == system.control.retries
        && request.priority == priority && request.deviceKey == deviceKey
        && request.requestSequence == (system.control.sequence + i - Queries(calls[..i])) % 0x1_0000_0000
  {
    SequencesCount(env, system, calls[..i]);
    hide SystemRun;
  }

  // The answer to a query on an empty queue, in terms of what the bus did last.
  lemma {:induction false} QueryOutcomeMeaning(env: Environment, trace: Trace, request: DaliRequest)
    returns (events: Trace)
    requires ValidRequest(request) && request.expectsResponse
    ensures Execution(env, trace, request).trace == trace + events
    ensures var result := Execution(env, trace, request).result;
      var reply := QueryResultFor(result);
      && (reply.outcome.Answered? <==> result.lastPhyResult.Ok?)
      && (reply.outcome.Answered? <==> reply.response.HasValue())
      && (reply.outcome.Answered? ==>
            && EndsDelivered(events, request.frame, reply.response.value)
            && EndsDelivered(trace + events, request.frame, reply.response.value)
            && reply.response == Reading(reply.response.value, ValidReading, 0))
      && (reply.response.quality.TemporarilyUnavailable? <==> IsRetryable(result.lastPhyResult))
      && (IsRetryable(result.lastPhyResult) ==> reply.response == Reading(0, TemporarilyUnavailable, 0))
      && (!result.lastPhyResult.Ok? && !IsRetryable(result.lastPhyResult) ==>
            reply.response == Reading(0, InvalidReading, 0))
      && (reply.outcome.NoResponse? <==> result.lastPhyResult.Timeout?)
      && (reply.outcome.BusBusy? <==> result.lastPhyResult.Busy?)
      && (reply.outcome.Collided? <==> result.lastPhyResult.Collision?)
      && (reply.outcome.BusFailure? <==> result.lastPhyResult.BusPowerLost?)
      && (reply.outcome.Invalid? <==> result.lastPhyResult.InvalidArgument?)
      && !reply.outcome.QueueFull?
      && reply.attempts == result.attempts == Transmits(events)
      && events != [] && !events[|events| - 1].Delayed?
      && reply.phyResult == events[|events| - 1].result
  {
    events := TransactionTrace(env, trace, request);
    var all := trace + events;
    hide Execution;
    assert all[|all| - 1] == events[|events| - 1];
    if |events| >= 2 { assert all[|all| - 2] == events[|events| - 2]; }
  }

  // A query turned away says so, and a full queue turns away queries and commands alike.
  lemma {:induction false} FullTurnsAway(env: Environment, system: System, call: Call)
    requires |system.state.queue| == 64
    ensures var (after, reply) := SystemStep(env, system, call);
      && after.state == system.state && TurnedAway(reply)
      && (reply.QueryAnswer? ==>
            reply.result == QueryResult(QueueFull, Reading(0, TemporarilyUnavailable, 0), 0, PhyResult.Busy))
  {}
}
