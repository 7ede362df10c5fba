/**
 The retrying transaction service. One request becomes a bounded series of attempts
 with stepped, jittered delays between them.
 */
module Transaction {
  import opened Sequences
  import opened Wrappers
  import opened DaliBus
  import opened CommandQueue

  const ABSOLUTE_MAX_RETRIES := 8

  datatype TransactionStatus =
    | Succeeded | RetriesExhausted | InvalidRequest | PowerLost | Faulted | Uninitialised | InternalFailure

  datatype TransactionResult = TransactionResult(
    status: TransactionStatus, response: Option<nat>, attempts: nat,
    lastPhyResult: PhyResult, retryDelayTotalMs: nat)

  const UNSET := TransactionResult(InternalFailure, None, 0, PhyResult.InternalError, 0)

  predicate ValidRequest(request: DaliRequest) {
    request.timeoutMs > 0 && request.maxRetries <= ABSOLUTE_MAX_RETRIES
  }

  predicate IsRetryable(result: PhyResult) {
    result.Timeout? || result.Busy? || result.Collision?
  }

  function BaseRetryDelayMs(retryIndex: nat): nat {
    if retryIndex == 0 then 100 else if retryIndex == 1 then 500 else 2000
  }

  function MapTerminalStatus(result: PhyResult): TransactionStatus {
    match result
    case BusPowerLost => PowerLost
    case TransceiverFault => Faulted
    case NotInitialised => Uninitialised
    case InvalidArgument => InvalidRequest
    case Timeout => RetriesExhausted
    case Busy => RetriesExhausted
    case Collision => RetriesExhausted
    case Ok => Succeeded
    case InternalError => InternalFailure
  }

  // -------------------------------------------------------------------- one attempt

  datatype Attempt = Attempt(result: PhyResult, value: nat, trace: Trace)

  // Transmit, then listen if the frame went out and an answer is expected.
  function TryOnce(env: Environment, trace: Trace, request: DaliRequest): Attempt {
    var sent := env.transmit(trace, request.frame);
    var after := trace + [Transmitted(request.frame, sent)];
    if sent.Ok? && request.expectsResponse then
      var (result, value) := env.receive(after, request.timeoutMs);
      Attempt(result, value, after + [Received(request.timeoutMs, result, value)])
    else
      Attempt(sent, 0, after)
  }

  // -------------------------------------------------------------- the retry sequence

  datatype Run = Run(result: TransactionResult, trace: Trace)

  function RetryFrom(env: Environment, trace: Trace, request: DaliRequest, attempt: nat, delayed: nat): Run
    requires attempt <= request.maxRetries
    decreases request.maxRetries - attempt
  {
    var once := TryOnce(env, trace, request);
    if once.result.Ok? then
      Run(TransactionResult(Succeeded, if request.expectsResponse then Some(once.value) else None,
                            attempt + 1, PhyResult.Ok, delayed), once.trace)
    else if !IsRetryable(once.result) then
      Run(TransactionResult(MapTerminalStatus(once.result), None, attempt + 1, once.result, delayed), once.trace)
    else if attempt == request.maxRetries then
      Run(TransactionResult(RetriesExhausted, None, attempt + 1, once.result, delayed), once.trace)
    else
      var wait := BaseRetryDelayMs(attempt) + env.jitter(once.trace, MAXIMUM_JITTER_MS);
      RetryFrom(env, once.trace + [Delayed(wait)], request, attempt + 1, delayed + wait)
  }

  function Execution(env: Environment, trace: Trace, request: DaliRequest): Run {
    if !ValidRequest(request) then
      Run(UNSET.(status := InvalidRequest, lastPhyResult := InvalidArgument), trace)
    else
      RetryFrom(env, trace, request, 0, 0)
  }

  class DaliTransactionService {
    const bus: Bus

    constructor (bus: Bus)
      ensures this.bus == bus
    {
      this.bus := bus;
    }

    method Execute(request: DaliRequest) returns (result: TransactionResult)
      modifies bus
      ensures Run(result, bus.trace) == Execution(bus.env, old(bus.trace), request)
    {
      result := UNSET;
      if request.timeoutMs == 0 || request.maxRetries > ABSOLUTE_MAX_RETRIES {
        result := result.(status := InvalidRequest, lastPhyResult := InvalidArgument);
        return;
      }
      var attempt := 0;
      while attempt <= request.maxRetries
        invariant attempt <= request.maxRetries
        invariant result == UNSET.(attempts := attempt, lastPhyResult := result.lastPhyResult,
                                   retryDelayTotalMs := result.retryDelayTotalMs)
        invariant RetryFrom(bus.env, bus.trace, request, attempt, result.retryDelayTotalMs)
          == Execution(bus.env, old(bus.trace), request)
        decreases request.maxRetries - attempt
      {
        result := result.(attempts := result.attempts + 1);
        var phyResult := bus.Transmit(request.frame);
        var backwardFrame := 0;
        if phyResult.Ok? && request.expectsResponse {
          phyResult, backwardFrame := bus.Receive(request.timeoutMs);
        }
        result := result.(lastPhyResult := phyResult);
        if phyResult.Ok? {
          result := result.(status := Succeeded);
          if request.expectsResponse { result := result.(response := Some(backwardFrame)); }
          return;
        }
        if !IsRetryable(phyResult) {
          result := result.(status := MapTerminalStatus(phyResult));
          return;
        }
        if attempt == request.maxRetries {
          result := result.(status := RetriesExhausted);
          return;
        }
        var retryDelay := BaseRetryDelayMs(attempt) + bus.env.jitter(bus.trace, MAXIMUM_JITTER_MS);
        result := result.(retryDelayTotalMs := result.retryDelayTotalMs + retryDelay);
        bus.Delay(retryDelay);
        attempt := attempt + 1;
      }
      // The statements the firmware has here are never reached.
      assert false;
    }
  }

  // ------------------------------------------------------- what a transaction leaves behind

  // The result of each attempt, read off the bus alone.
  function Outcomes(events: Trace, expectsResponse: bool): seq<PhyResult> {
    if events == [] then []
    else if !events[0].Transmitted? then Outcomes(events[1..], expectsResponse)
    else if events[0].result.Ok? && expectsResponse then
      if |events| > 1 && events[1].Received? then [events[1].result] + Outcomes(events[2..], expectsResponse)
      else []
    else [events[0].result] + Outcomes(events[1..], expectsResponse)
  }

  ghost predicate OnlyFrame(events: Trace, frame: nat) {
    forall i :: 0 <= i < |events| && events[i].Transmitted? ==> events[i].frame == frame
  }

  lemma {:induction false} OnlyFrameSent(events: Trace, frame: nat, other: nat)
    requires OnlyFrame(events, frame)
    ensures Sent(events, other) == if other == frame then Transmits(events) else 0
  {
    if events != [] {
      assert forall i :: 0 <= i < |events| - 1 ==> events[1..][i] == events[i + 1];
      OnlyFrameSent(events[1..], frame, other);
    }
  }

  function BackoffBound(retries: nat): nat {
    if retries == 0 then 0 else BackoffBound(retries - 1) + BaseRetryDelayMs(retries - 1) + MAXIMUM_JITTER_MS
  }

  // What the bus shows of attempts numbered `first` and up, and how the result reports it.
  ghost predicate Accounts(events: Trace, request: DaliRequest, first: nat, delayed: nat, result: TransactionResult)
    requires first <= request.maxRetries
  {
    var outcomes := Outcomes(events, request.expectsResponse);
    && 0 < |outcomes| == Transmits(events) <= request.maxRetries - first + 1
    && OnlyFrame(events, request.frame)
    && result.attempts == first + |outcomes|
    && Delays(events) == |outcomes| - 1
    && result.retryDelayTotalMs == delayed + DelaySum(events)
    && result.lastPhyResult == outcomes[|outcomes| - 1]
    && (forall i :: 0 <= i < |outcomes| - 1 ==> IsRetryable(outcomes[i]))
    && (result.attempts <= request.maxRetries ==> !IsRetryable(result.lastPhyResult))
    && result.status == MapTerminalStatus(result.lastPhyResult)
    && result.response == (
      if result.status.Succeeded? && request.expectsResponse && events[|events| - 1].Received?
      then Some(events[|events| - 1].value) else None)
    && (result.status.Succeeded? && request.expectsResponse ==> result.response.Some?)
    && events != [] && !events[|events| - 1].Delayed? && events[|events| - 1].result == result.lastPhyResult
    && (result.response.Some? ==> EndsDelivered(events, request.frame, result.response.value))
  }

  // The latest thing on the bus is an answer with this value to this frame.
  ghost predicate EndsDelivered(events: Trace, frame: nat, value: nat) {
    && |events| >= 2
    && events[|events| - 2] == Transmitted(frame, PhyResult.Ok)
    && events[|events| - 1].Received? && events[|events| - 1].result.Ok? && events[|events| - 1].value == value
  }

  // What one event of a transaction must be, when the bus has shown `before` and the
  // transaction has waited k times: what was asked for, and what the environment answered.
  ghost predicate EventFollows(env: Environment, before: Trace, request: DaliRequest, k: nat, event: BusEvent) {
    match event
    case Transmitted(frame, result) => frame == request.frame && result == env.transmit(before, frame)
    case Received(timeoutMs, result, value) =>
      request.expectsResponse && timeoutMs == request.timeoutMs && (result, value) == env.receive(before, timeoutMs)
    case Delayed(ms) =>
      ms == (if k == 0 then 100 else if k == 1 then 500 else 2000) + env.jitter(before, 25)
  }

  ghost predicate Follows(env: Environment, trace: Trace, request: DaliRequest, first: nat, events: Trace) {
    forall i :: 0 <= i < |events| ==>
      EventFollows(env, trace + events[..i], request, first + Delays(events[..i]), events[i])
  }

  // The events one attempt adds.
  function Added(env: Environment, trace: Trace, request: DaliRequest): (events: Trace)
    ensures TryOnce(env, trace, request).trace == trace + events
  {
    var sent := env.transmit(trace, request.frame);
    var after := trace + [Transmitted(request.frame, sent)];
    if sent.Ok? && request.expectsResponse then
      var (result, value) := env.receive(after, request.timeoutMs);
      [Transmitted(request.frame, sent), Received(request.timeoutMs, result, value)]
    else
      [Transmitted(request.frame, sent)]
  }

  // An attempt followed by whatever comes later.
  lemma {:induction false} AttemptThen(env: Environment, trace: Trace, request: DaliRequest, later: Trace)
    ensures var added := Added(env, trace, request);
      && Outcomes(added + later, request.expectsResponse)
        == [TryOnce(env, trace, request).result] + Outcomes(later, request.expectsResponse)
      && Transmits(added) == 1 && Delays(added) == 0 && DelaySum(added) == 0
      && OnlyFrame(added, request.frame)
  {
    var added := Added(env, trace, request);
    assert (added + later)[1..] == added[1..] + later;
    var tail := added[1..];
    if |added| == 2 {
      assert (added + later)[2..] == later;
      assert tail[1..] == [] && tail[0].Received?;
      assert Transmits(tail[1..]) == Delays(tail[1..]) == DelaySum(tail[1..]) == 0;
    } else {
      assert tail == [] && tail + later == later;
    }
  }

  lemma {:induction false} LastAccounts(
      env: Environment, trace: Trace, request: DaliRequest, attempt: nat, delayed: nat)
    requires attempt <= request.maxRetries
    requires var once := TryOnce(env, trace, request);
      once.result.Ok? || !IsRetryable(once.result) || attempt == request.maxRetries
    ensures var run := RetryFrom(env, trace, request, attempt, delayed);
      Accounts(Added(env, trace, request), request, attempt, delayed, run.result)
  {
    var added := Added(env, trace, request);
    AttemptThen(env, trace, request, []);
    assert added + [] == added;
  }

  lemma {:induction false} RetriedAccounts(
      env: Environment, trace: Trace, request: DaliRequest, attempt: nat, delayed: nat, wait: nat,
      rest: Trace, result: TransactionResult)
    requires attempt < request.maxRetries && IsRetryable(TryOnce(env, trace, request).result)
    requires Accounts(rest, request, attempt + 1, delayed + wait, result)
    ensures Accounts(Added(env, trace, request) + ([Delayed(wait)] + rest), request, attempt, delayed, result)
  {
    var added, later := Added(env, trace, request), [Delayed(wait)] + rest;
    AttemptThen(env, trace, request, later);
    hide Added;
    hide TryOnce;
    TraceConcat(added, later);
    assert later[1..] == rest;
    var outcomes := Outcomes(added + later, request.expectsResponse);
    assert outcomes[1..] == Outcomes(rest, request.expectsResponse);
    assert Transmits([]) == 0;
    assert (added + later)[|added + later| - 1] == rest[|rest| - 1];
    assert forall i :: 0 < i < |outcomes| ==> outcomes[i] == outcomes[1..][i - 1];
  }

  lemma {:induction false} RetryAccounts(
      env: Environment, trace: Trace, request: DaliRequest, attempt: nat, delayed: nat) returns (events: Trace)
    requires attempt <= request.maxRetries
    ensures var run := RetryFrom(env, trace, request, attempt, delayed);
      run.trace == trace + events && Accounts(events, request, attempt, delayed, run.result)
    decreases request.maxRetries - attempt
  {
    hide Accounts;
    hide TryOnce;
    hide Added;
    var once := TryOnce(env, trace, request);
    if once.result.Ok? || !IsRetryable(once.result) || attempt == request.maxRetries {
      events := Added(env, trace, request);
      LastAccounts(env, trace, request, attempt, delayed);
    } else {
      var wait := BaseRetryDelayMs(attempt) + env.jitter(once.trace, MAXIMUM_JITTER_MS);
      var rest := RetryAccounts(env, once.trace + [Delayed(wait)], request, attempt + 1, delayed + wait);
      events := Added(env, trace, request) + ([Delayed(wait)] + rest);
      var result := RetryFrom(env, trace, request, attempt, delayed).result;
      RetriedAccounts(env, trace, request, attempt, delayed, wait, rest, result);
      assert trace + events == (trace + Added(env, trace, request) + [Delayed(wait)]) + rest;
    }
  }

  lemma {:induction false} FollowsConcat(
      env: Environment, trace: Trace, request: DaliRequest, first: nat, x: Trace, y: Trace)
    requires Follows(env, trace, request, first, x)
    requires Follows(env, trace + x, request, first + Delays(x), y)
    ensures Follows(env, trace, request, first, x + y)
  {
    hide EventFollows;
    hide Delays;
    var events := x + y;
    forall i | 0 <= i < |events|
      ensures EventFollows(env, trace + events[..i], request, first + Delays(events[..i]), events[i])
    {
      PrefixOfConcat(x, y, i);
      if i >= |x| {
        var j := i - |x|;
        TraceConcat(x, y[..j]);
        Associative(trace, x, y[..j]);
        assert EventFollows(env, trace + x + y[..j], request, first + Delays(x) + Delays(y[..j]), y[j]);
      }
    }
  }

  lemma {:induction false} PrefixOfConcat(x: Trace, y: Trace, i: nat)
    requires i < |x| + |y|
    ensures (x + y)[..i] == if i < |x| then x[..i] else x + y[..i - |x|]
    ensures (x + y)[i] == if i < |x| then x[i] else y[i - |x|]
  {}

  lemma {:induction false} AddedFollows(env: Environment, trace: Trace, request: DaliRequest, first: nat)
    ensures Follows(env, trace, request, first, Added(env, trace, request))
    ensures Delays(Added(env, trace, request)) == 0
  {
    AttemptThen(env, trace, request, []);
    var added := Added(env, trace, request);
    assert added[..0] == [] && trace + [] == trace;
    if |added| == 2 { assert added[..1] == [added[0]]; }
  }

  lemma {:induction false} WaitFollows(env: Environment, trace: Trace, request: DaliRequest, k: nat)
    ensures Follows(env, trace, request, k, [Delayed(BaseRetryDelayMs(k) + env.jitter(trace, MAXIMUM_JITTER_MS))])
  {
    var wait := [Delayed(BaseRetryDelayMs(k) + env.jitter(trace, MAXIMUM_JITTER_MS))];
    assert wait[..0] == [] && trace + [] == trace;
  }

  lemma {:induction false} RetriesFollow(
      env: Environment, trace: Trace, request: DaliRequest, attempt: nat, delayed: nat) returns (events: Trace)
    requires attempt <= request.maxRetries
    ensures RetryFrom(env, trace, request, attempt, delayed).trace == trace + events
    ensures Follows(env, trace, request, attempt, events)
    decreases request.maxRetries - attempt
  {
    hide TryOnce;
    hide Added;
    hide Follows;
    var once, added := TryOnce(env, trace, request), Added(env, trace, request);
    AddedFollows(env, trace, request, attempt);
    if once.result.Ok? || !IsRetryable(once.result) || attempt == request.maxRetries {
      events := added;
    } else {
      var wait := BaseRetryDelayMs(attempt) + env.jitter(once.trace, MAXIMUM_JITTER_MS);
      var pause := [Delayed(wait)];
      WaitFollows(env, once.trace, request, attempt);
      var rest := RetriesFollow(env, once.trace + pause, request, attempt + 1, delayed + wait);
      OneDelay(wait);
      hide BaseRetryDelayMs;
      FollowsConcat(env, once.trace, request, attempt, pause, rest);
      FollowsConcat(env, trace, request, attempt, added, pause + rest);
      events := added + (pause + rest);
      assert trace + events == (trace + added + pause) + rest;
    }
  }

  lemma {:induction false} OneDelay(ms: nat)
    ensures Delays([Delayed(ms)]) == 1
  {
    assert [Delayed(ms)][1..] == [] && Delays([]) == 0;
  }

  // The main result on the course of a transaction: every event is what was due, with
  // the environment's own answer to it, and the waits are 100, 500 and then 2000 ms, each
  // with the jitter drawn at its own moment.
  lemma {:induction false} EventsFollow(env: Environment, trace: Trace, request: DaliRequest) returns (events: Trace)
    requires ValidRequest(request)
    ensures Execution(env, trace, request).trace == trace + events
    ensures Follows(env, trace, request, 0, events)
  {
    hide Follows;
    events := RetriesFollow(env, trace, request, 0, 0);
  }

  // So with bounded jitter each wait lies within 25 ms of its step.
  lemma {:induction false} WaitsStepped(
      env: Environment, trace: Trace, request: DaliRequest, events: Trace, i: nat)
    requires JitterBounded(env) && Follows(env, trace, request, 0, events)
    requires i < |events| && events[i].Delayed?
    ensures var k, ms := Delays(events[..i]), events[i].ms;
      && (k == 0 ==> 100 <= ms <= 125)
      && (k == 1 ==> 500 <= ms <= 525)
      && (k >= 2 ==> 2000 <= ms <= 2025)
  {
    assert EventFollows(env, trace + events[..i], request, Delays(events[..i]), events[i]);
  }

  // What the reported status means, and what an invalid request gets.
  lemma {:induction false} StatusMeaning(env: Environment, trace: Trace, request: DaliRequest)
    ensures ValidRequest(request) <==> request.timeoutMs > 0 && request.maxRetries <= 8
    ensures !ValidRequest(request) ==>
      Execution(env, trace, request).result == TransactionResult(InvalidRequest, None, 0, PhyResult.InvalidArgument, 0)
    ensures ValidRequest(request) ==>
      var result := Execution(env, trace, request).result;
      var last := result.lastPhyResult;
      && (result.status.Succeeded? <==> last.Ok?)
      && (result.status.RetriesExhausted? <==> last.Timeout? || last.Busy? || last.Collision?)
      && (result.status.PowerLost? <==> last.BusPowerLost?)
      && (result.status.Faulted? <==> last.TransceiverFault?)
      && (result.status.Uninitialised? <==> last.NotInitialised?)
      && (result.status.InvalidRequest? <==> last.InvalidArgument?)
      && (result.status.InternalFailure? <==> last.InternalError?)
  {
    if ValidRequest(request) {
      var events := TransactionTrace(env, trace, request);
      hide Execution;
    }
  }

  // The main result on transactions: whatever the bus does, the result is an exact
  // account of it, and no attempt follows a success or a failure that is not retryable.
  lemma {:induction false} TransactionTrace(
      env: Environment, trace: Trace, request: DaliRequest) returns (events: Trace)
    requires ValidRequest(request)
    ensures var run := Execution(env, trace, request);
      run.trace == trace + events && Accounts(events, request, 0, 0, run.result)
  {
    events := RetryAccounts(env, trace, request, 0, 0);
  }

  // Giving up is reported exactly when every permitted attempt was made and failed
  // in a retryable way.
  lemma {:induction false} ExhaustedIff(env: Environment, trace: Trace, request: DaliRequest) returns (events: Trace)
    requires ValidRequest(request)
    ensures Execution(env, trace, request).trace == trace + events
    ensures var outcomes := Outcomes(events, request.expectsResponse);
      Execution(env, trace, request).result.status.RetriesExhausted?
      <==> |outcomes| == request.maxRetries + 1 && forall i :: 0 <= i < |outcomes| ==> IsRetryable(outcomes[i])
  {
    events := TransactionTrace(env, trace, request);
  }

  // An invalid request never reaches the bus.
  lemma {:induction false} InvalidRequestSilent(env: Environment, trace: Trace, request: DaliRequest)
    ensures Execution(env, trace, request).trace == trace <==> !ValidRequest(request)
  {
    if ValidRequest(request) {
      var events := TransactionTrace(env, trace, request);
      assert Transmits([]) == 0;
      assert |trace + events| > |trace|;
    }
  }

  lemma {:induction false} RetryDelayBound(
      env: Environment, trace: Trace, request: DaliRequest, attempt: nat, delayed: nat)
    requires JitterBounded(env) && attempt <= request.maxRetries
    requires delayed <= BackoffBound(attempt)
    ensures var result := RetryFrom(env, trace, request, attempt, delayed).result;
      result.attempts > 0 && result.attempts <= request.maxRetries + 1
      && result.retryDelayTotalMs <= BackoffBound(result.attempts - 1)
    decreases request.maxRetries - attempt
  {
    hide TryOnce;
    var once := TryOnce(env, trace, request);
    if !once.result.Ok? && IsRetryable(once.result) && attempt < request.maxRetries {
      var wait := BaseRetryDelayMs(attempt) + env.jitter(once.trace, MAXIMUM_JITTER_MS);
      RetryDelayBound(env, once.trace + [Delayed(wait)], request, attempt + 1, delayed + wait);
    }
  }

  lemma {:induction false} BackoffMonotonic(m: nat, n: nat)
    requires m <= n
    ensures BackoffBound(m) <= BackoffBound(n)
    decreases n
  {
    if m < n { BackoffMonotonic(m, n - 1); }
  }

  lemma {:induction false} BackoffTotal()
    ensures BackoffBound(8) == 12800
  {
    assert BackoffBound(2) == 650;
    assert BackoffBound(4) == 4700;
    assert BackoffBound(6) == 8750;
  }

  // A transaction waits at most 12800 ms, so its 32-bit delay total cannot wrap.
  lemma {:induction false} DelayBound(env: Environment, trace: Trace, request: DaliRequest)
    requires JitterBounded(env)
    ensures Execution(env, trace, request).result.retryDelayTotalMs <= 12800
    ensures ValidRequest(request) ==>
      Execution(env, trace, request).result.retryDelayTotalMs <= BackoffBound(request.maxRetries)
  {
    if ValidRequest(request) {
      RetryDelayBound(env, trace, request, 0, 0);
      BackoffMonotonic(Execution(env, trace, request).result.attempts - 1, request.maxRetries);
      BackoffMonotonic(request.maxRetries, 8);
      BackoffTotal();
    }
  }
}
