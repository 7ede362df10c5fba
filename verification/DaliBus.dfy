/**
 The world below the protocol: an arbitrary physical layer, delay provider and jitter
 source. Each answer may depend on everything that has happened on the bus so far, so
 a result for all environments is a result for all behaviours of the three.
 */
module DaliBus {
  datatype PhyResult =
    | Ok | Timeout | Busy | Collision | BusPowerLost | TransceiverFault
    | InvalidArgument | NotInitialised | InternalError

  datatype BusEvent =
    | Transmitted(frame: nat, result: PhyResult)
    | Received(timeoutMs: nat, result: PhyResult, value: nat)
    | Delayed(ms: nat)

  type Trace = seq<BusEvent>

  datatype Environment = Environment(
    transmit: (Trace, nat) -> PhyResult,
    receive: (Trace, nat) -> (PhyResult, nat),
    jitter: (Trace, nat) -> nat)

  const MAXIMUM_JITTER_MS := 25

  // A jitter source keeps its draws within the bound it is asked for.
  ghost predicate JitterBounded(env: Environment) {
    forall trace: Trace, bound: nat :: env.jitter(trace, bound) <= bound
  }

  class Bus {
    const env: Environment
    var trace: Trace

    constructor (env: Environment)
      ensures this.env == env && trace == []
    {
      this.env := env;
      trace := [];
    }

    method Transmit(frame: nat) returns (result: PhyResult)
      modifies this
      ensures result == env.transmit(old(trace), frame)
      ensures trace == old(trace) + [Transmitted(frame, result)]
    {
      result := env.transmit(trace, frame);
      trace := trace + [Transmitted(frame, result)];
    }

    method Receive(timeoutMs: nat) returns (result: PhyResult, value: nat)
      modifies this
      ensures (result, value) == env.receive(old(trace), timeoutMs)
      ensures trace == old(trace) + [Received(timeoutMs, result, value)]
    {
      var answer := env.receive(trace, timeoutMs);
      result, value := answer.0, answer.1;
      trace := trace + [Received(timeoutMs, result, value)];
    }

    method Delay(ms: nat)
      modifies this
      ensures trace == old(trace) + [Delayed(ms)]
    {
      trace := trace + [Delayed(ms)];
    }
  }

  // ---------------------------------------------------------------- reading a trace

  function Transmits(trace: Trace): nat {
    if trace == [] then 0 else (if trace[0].Transmitted? then 1 else 0) + Transmits(trace[1..])
  }

  function Delays(trace: Trace): nat {
    if trace == [] then 0 else (if trace[0].Delayed? then 1 else 0) + Delays(trace[1..])
  }

  function DelaySum(trace: Trace): nat {
    if trace == [] then 0 else (if trace[0].Delayed? then trace[0].ms else 0) + DelaySum(trace[1..])
  }

  // How often this frame was sent.
  function Sent(trace: Trace, frame: nat): nat {
    if trace == [] then 0
    else (if trace[0].Transmitted? && trace[0].frame == frame then 1 else 0) + Sent(trace[1..], frame)
  }

  lemma {:induction false} SentConcat(x: Trace, y: Trace, frame: nat)
    ensures Sent(x + y, frame) == Sent(x, frame) + Sent(y, frame)
  {
    if x == [] {
      assert x + y == y;
    } else {
      assert (x + y)[1..] == x[1..] + y;
      SentConcat(x[1..], y, frame);
    }
  }

  lemma {:induction false} TraceConcat(x: Trace, y: Trace)
    ensures Transmits(x + y) == Transmits(x) + Transmits(y)
    ensures Delays(x + y) == Delays(x) + Delays(y)
    ensures DelaySum(x + y) == DelaySum(x) + DelaySum(y)
  {
    if x == [] {
      assert x + y == y;
    } else {
      assert (x + y)[1..] == x[1..] + y;
      TraceConcat(x[1..], y);
    }
  }
}
