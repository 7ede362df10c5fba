/**
 Saturating 32-bit counters of transaction outcomes.
 */
module Quality {
  import opened Transaction

  const MAXIMUM: nat := 0xFFFF_FFFF

  datatype Category =
    | Success | TimedOut | Collided | WasBusy | PowerLoss | TransceiverFailure | Other

  datatype Counters = Counters(
    total: nat, successes: nat, timeouts: nat, collisions: nat, busy: nat,
    busPowerLosses: nat, transceiverFaults: nat, otherFailures: nat)
  {
    function Of(category: Category): nat {
      match category
      case Success => successes
      case TimedOut => timeouts
      case Collided => collisions
      case WasBusy => busy
      case PowerLoss => busPowerLosses
      case TransceiverFailure => transceiverFaults
      case Other => otherFailures
    }

    function Sum(): nat {
      successes + timeouts + collisions + busy + busPowerLosses + transceiverFaults + otherFailures
    }
  }

  const NO_COUNTS := Counters(0, 0, 0, 0, 0, 0, 0, 0)

  datatype Snapshot = Snapshot(counters: Counters, failures: nat, successRate: real, noData: bool)

  function Bump(value: nat): nat { if value != MAXIMUM then value + 1 else value }

  function Recorded(counters: Counters, result: TransactionResult): Counters {
    var c := counters.(total := Bump(counters.total));
    if result.status.Succeeded? then c.(successes := Bump(c.successes))
    else
      match result.lastPhyResult
      case Timeout => c.(timeouts := Bump(c.timeouts))
      case Collision => c.(collisions := Bump(c.collisions))
      case Busy => c.(busy := Bump(c.busy))
      case BusPowerLost => c.(busPowerLosses := Bump(c.busPowerLosses))
      case TransceiverFault => c.(transceiverFaults := Bump(c.transceiverFaults))
      case _ => c.(otherFailures := Bump(c.otherFailures))
  }

  class CommunicationQualityTracker {
    var counters: Counters

    constructor ()
      ensures counters == NO_COUNTS
    {
      counters := NO_COUNTS;
    }

    method Record(result: TransactionResult)
      modifies this
      ensures counters == Recorded(old(counters), result)
    {
      counters := counters.(total := Bump(counters.total));
      if result.status.Succeeded? {
        counters := counters.(successes := Bump(counters.successes));
        return;
      }
      match result.lastPhyResult
      case Timeout => counters := counters.(timeouts := Bump(counters.timeouts));
      case Collision => counters := counters.(collisions := Bump(counters.collisions));
      case Busy => counters := counters.(busy := Bump(counters.busy));
      case BusPowerLost => counters := counters.(busPowerLosses := Bump(counters.busPowerLosses));
      case TransceiverFault => counters := counters.(transceiverFaults := Bump(counters.transceiverFaults));
      case _ => counters := counters.(otherFailures := Bump(counters.otherFailures));
    }

    method TakeSnapshot() returns (snapshot: Snapshot)
      ensures Portrays(snapshot, counters)
    {
      var noData := counters.total == 0;
      var failures := 0;
      if counters.total >= counters.successes { failures := counters.total - counters.successes; }
      var successRate := 1.0;
      if !noData {
        successRate := counters.successes as real / counters.total as real;
        ShareOfWhole(counters.successes as real, counters.total as real);
      }
      return Snapshot(counters, failures, successRate, noData);
    }
  }

  // Failures make up what successes leave of the total, and the rate is the share of the
  // total that succeeded; a link never used counts as perfect.
  ghost predicate Portrays(snapshot: Snapshot, counters: Counters) {
    && snapshot.counters == counters
    && (snapshot.noData <==> counters.total == 0)
    && (if counters.successes <= counters.total then snapshot.failures + counters.successes == counters.total
        else snapshot.failures == 0)
    && (if snapshot.noData then snapshot.successRate == 1.0
        else snapshot.successRate * counters.total as real == counters.successes as real)
  }

  lemma {:induction false} ShareOfWhole(part: real, whole: real)
    requires whole != 0.0
    ensures part / whole * whole == part
  {}

  // ------------------------------------------------------------------ over a whole run

  function CategoryOf(result: TransactionResult): Category {
    if result.status.Succeeded? then Success
    else
      match result.lastPhyResult
      case Timeout => TimedOut
      case Collision => Collided
      case Busy => WasBusy
      case BusPowerLost => PowerLoss
      case TransceiverFault => TransceiverFailure
      case _ => Other
  }

  function Tally(results: seq<TransactionResult>, category: Category): (n: nat)
    ensures n <= |results|
  {
    if results == [] then 0
    else
      var last := |results| - 1;
      Tally(results[..last], category) + (if CategoryOf(results[last]) == category then 1 else 0)
  }

  function AfterResults(results: seq<TransactionResult>): Counters {
    if results == [] then NO_COUNTS
    else Recorded(AfterResults(results[..|results| - 1]), results[|results| - 1])
  }

  function Capped(n: nat): nat { if n <= 4294967295 then n else 4294967295 }

  lemma {:induction false} RecordedOf(counters: Counters, result: TransactionResult, category: Category)
    ensures Recorded(counters, result).total == Bump(counters.total)
    ensures Recorded(counters, result).Of(category)
      == if CategoryOf(result) == category then Bump(counters.Of(category)) else counters.Of(category)
  {}

  lemma {:induction false} CountersAreTallies(results: seq<TransactionResult>, category: Category)
    ensures AfterResults(results).total == Capped(|results|)
    ensures AfterResults(results).Of(category) == Capped(Tally(results, category))
  {
    if results != [] {
      var last := |results| - 1;
      CountersAreTallies(results[..last], category);
      RecordedOf(AfterResults(results[..last]), results[last], category);
      hide Recorded;
      hide CategoryOf;
      hide Counters.Of;
    }
  }

  lemma {:induction false} TalliesPartition(results: seq<TransactionResult>)
    ensures |results| ==
      Tally(results, Success) + Tally(results, TimedOut) + Tally(results, Collided) + Tally(results, WasBusy)
      + Tally(results, PowerLoss) + Tally(results, TransceiverFailure) + Tally(results, Other)
  {
    if results != [] { TalliesPartition(results[..|results| - 1]); }
  }

  lemma {:induction false} AllTallies(results: seq<TransactionResult>)
    ensures var c := AfterResults(results);
      && c.total == Capped(|results|)
      && c.successes == Capped(Tally(results, Success))
      && c.timeouts == Capped(Tally(results, TimedOut))
      && c.collisions == Capped(Tally(results, Collided))
      && c.busy == Capped(Tally(results, WasBusy))
      && c.busPowerLosses == Capped(Tally(results, PowerLoss))
      && c.transceiverFaults == Capped(Tally(results, TransceiverFailure))
      && c.otherFailures == Capped(Tally(results, Other))
  {
    hide AfterResults;
    hide Tally;
    forall category ensures AfterResults(results).Of(category) == Capped(Tally(results, category)) {
      CountersAreTallies(results, category);
    }
    CountersAreTallies(results, Success);
    assert AfterResults(results).Of(TimedOut) == AfterResults(results).timeouts;
    assert AfterResults(results).Of(Collided) == AfterResults(results).collisions;
    assert AfterResults(results).Of(WasBusy) == AfterResults(results).busy;
    assert AfterResults(results).Of(PowerLoss) == AfterResults(results).busPowerLosses;
    assert AfterResults(results).Of(TransceiverFailure) == AfterResults(results).transceiverFaults;
    assert AfterResults(results).Of(Other) == AfterResults(results).otherFailures;
  }

  // The counters balance until the total saturates, and after that only if every
  // result ever recorded fell into one category.
  lemma {:induction false} BalanceIff(results: seq<TransactionResult>)
    ensures AfterResults(results).Sum() == AfterResults(results).total
      <==> |results| <= 4294967295 || exists category :: Tally(results, category) == |results|
  {
    TalliesPartition(results);
    AllTallies(results);
    hide AfterResults;
    hide Tally;
    if AfterResults(results).Sum() == AfterResults(results).total && |results| > MAXIMUM {
      assert Tally(results, Success) == |results| || Tally(results, TimedOut) == |results|
        || Tally(results, Collided) == |results| || Tally(results, WasBusy) == |results|
        || Tally(results, PowerLoss) == |results| || Tally(results, TransceiverFailure) == |results|
        || Tally(results, Other) == |results|;
    } else if category :| |results| > MAXIMUM && Tally(results, category) == |results| {
      match category
      case Success =>
      case TimedOut =>
      case Collided =>
      case WasBusy =>
      case PowerLoss =>
      case TransceiverFailure =>
      case Other =>
    }
  }

  // Over any run successes never overtake the total: the snapshot's guard is never
  // needed, its failures are the results that did not succeed, and its rate is a rate.
  lemma {:induction false} SnapshotSound(results: seq<TransactionResult>, snapshot: Snapshot)
    requires Portrays(snapshot, AfterResults(results))
    ensures snapshot.failures == Capped(|results|) - Capped(Tally(results, Success))
    ensures 0.0 <= snapshot.successRate <= 1.0
    ensures snapshot.successRate == 1.0 <==> Capped(Tally(results, Success)) == Capped(|results|)
    ensures snapshot.noData <==> results == []
  {
    AllTallies(results);
    hide AfterResults;
    hide Tally;
    var c := AfterResults(results);
    if c.total > 0 { RateBounds(snapshot.successRate, c.successes as real, c.total as real); }
  }

  lemma {:induction false} RateBounds(rate: real, part: real, whole: real)
    requires 0.0 <= part <= whole && whole > 0.0 && rate * whole == part
    ensures 0.0 <= rate <= 1.0
    ensures rate == 1.0 <==> part == whole
  {
    if rate < 0.0 { Scaled(0.0 - rate, whole); }
    if rate > 1.0 { Scaled(rate - 1.0, whole); }
    if rate < 1.0 { Scaled(1.0 - rate, whole); }
  }

  lemma {:induction false} Scaled(x: real, y: real)
    requires x > 0.0 && y > 0.0
    ensures x * y > 0.0
  {}
}
