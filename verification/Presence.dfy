/**
 Presence discovery at one bus address: what a history of presence queries does to the
 device record, to the duplicate-address latch and to the reported changes. The code
 keeps a small state machine; the lemmas say what it means in terms of the history.
 */
module Presence {
  import opened Wrappers
  import opened DaliBus
  import opened Sequences
  import opened Pipeline

  datatype Lifecycle = NeverSeen | Present | Missing | DuplicateAddress

  datatype CapabilityState = UnknownCapability | Supported | UnsupportedCapability

  datatype CapabilityEntry = CapabilityEntry(state: CapabilityState, consecutiveNoResponses: nat)

  const FEATURES := 12
  const UNPROBED := CapabilityEntry(UnknownCapability, 0)

  type CapabilityMap = m: seq<CapabilityEntry> | |m| == FEATURES
    witness [UNPROBED, UNPROBED, UNPROBED, UNPROBED, UNPROBED, UNPROBED,
             UNPROBED, UNPROBED, UNPROBED, UNPROBED, UNPROBED, UNPROBED]

  datatype DeviceRecord = DeviceRecord(
    address: ShortAddress, lifecycle: Lifecycle, present: bool, missedPresenceChecks: nat,
    firstSeenUptimeMs: nat, lastSeenUptimeMs: nat,
    capabilities: CapabilityMap, deviceType: Reading, version: Reading, physicalMinimum: Reading)

  const NO_READING := Reading(0, Unknown, 0)

  function NewRecord(address: ShortAddress, nowMs: nat): DeviceRecord {
    DeviceRecord(address, NeverSeen, false, 0, nowMs, nowMs,
                 seq(FEATURES, i => UNPROBED),
                 NO_READING, NO_READING, NO_READING)
  }

  datatype ChangeType = Discovered | WentMissing | Recovered | DuplicateSuspected

  // What the manager holds for one address.
  datatype Slot = Slot(record: Option<DeviceRecord>, duplicateReported: bool)

  const EMPTY_SLOT := Slot(None, false)

  predicate IsValidResponse(result: QueryResult) {
    result.outcome.Answered? && result.response.HasValue()
  }

  predicate IsBusFailure(result: QueryResult) {
    result.outcome.BusFailure? || result.phyResult.BusPowerLost?
  }

  // The body of the scan loop.
  function ScanStep(slot: Slot, address: ShortAddress, result: QueryResult, nowMs: nat): (Slot, Option<ChangeType>) {
    if IsValidResponse(result) then
      if slot.record.None? then
        (Slot(Some(NewRecord(address, nowMs).(lifecycle := Present, present := true, missedPresenceChecks := 0)),
              false),
         Some(Discovered))
      else
        var record := slot.record.value;
        (Slot(Some(record.(lifecycle := Present, present := true, missedPresenceChecks := 0,
                           lastSeenUptimeMs := nowMs)), false),
         if record.lifecycle.Missing? then Some(Recovered) else None)
    else if result.outcome.Collided? then
      (Slot(if slot.record.None? then None else Some(slot.record.value.(lifecycle := DuplicateAddress)), true),
       if slot.duplicateReported then None else Some(DuplicateSuspected))
    else if slot.record.None? || IsBusFailure(result) || slot.record.value.lifecycle.Missing? then
      (slot, None)
    else
      var record := slot.record.value;
      var missed :=
        if record.missedPresenceChecks < 3 then record.missedPresenceChecks + 1 else record.missedPresenceChecks;
      if missed >= 3 then
        (slot.(record := Some(record.(missedPresenceChecks := missed, lifecycle := Missing, present := false))),
         Some(WentMissing))
      else
        (slot.(record := Some(record.(missedPresenceChecks := missed))), None)
  }

  // ------------------------------------------------------------------- histories

  datatype Observation = Observation(result: QueryResult, nowMs: nat)
  type History = seq<Observation>

  // How one result counts: anything that is neither an answer, nor a collision, nor a
  // bus failure is a miss, a busy bus and a hardware fault included.
  datatype Kind = Answer | Clash | BusDown | Miss

  function KindOf(result: QueryResult): Kind {
    if IsValidResponse(result) then Answer
    else if result.outcome.Collided? then Clash
    else if IsBusFailure(result) then BusDown
    else Miss
  }

  // Which result counts as what.
  lemma {:induction false} KindSays(result: QueryResult)
    ensures var answered := result.outcome.Answered?
        && (result.response.quality == ValidReading || result.response.quality == Estimated);
      var lost := result.outcome == BusFailure || result.phyResult == PhyResult.BusPowerLost;
      && (KindOf(result).Answer? <==> answered)
      && (KindOf(result).Clash? <==> result.outcome.Collided?)
      && (KindOf(result).BusDown? <==> !answered && !result.outcome.Collided? && lost)
      && (KindOf(result).Miss? <==> !answered && !result.outcome.Collided? && !lost)
  {}

  function KindAt(h: History, i: nat): Kind
    requires i < |h|
  {
    KindOf(h[i].result)
  }

  function AllBut(h: History): History
    requires h != []
  {
    h[..|h| - 1]
  }

  function Last(h: History): Observation
    requires h != []
  {
    h[|h| - 1]
  }

  function After(address: ShortAddress, h: History): Slot {
    if h == [] then EMPTY_SLOT
    else ScanStep(After(address, AllBut(h)), address, Last(h).result, Last(h).nowMs).0
  }

  // The change the latest observation reported.
  function Reported(address: ShortAddress, h: History): Option<ChangeType>
    requires h != []
  {
    ScanStep(After(address, AllBut(h)), address, Last(h).result, Last(h).nowMs).1
  }

  // ------------------------------------------------ what a history says, by itself

  // Position of the latest answer, -1 if there is none.
  function LastAnswer(h: History): (i: int)
    ensures -1 <= i < |h|
    ensures i >= 0 ==> KindAt(h, i).Answer?
    ensures forall j :: i < j < |h| ==> !KindAt(h, j).Answer?
  {
    if h == [] then -1
    else if KindOf(Last(h).result).Answer? then |h| - 1
    else
      var i := LastAnswer(AllBut(h));
      assert forall j :: 0 <= j < |h| - 1 ==> KindAt(AllBut(h), j) == KindAt(h, j);
      i
  }

  function Count(h: History, kind: Kind): nat {
    if h == [] then 0 else Count(AllBut(h), kind) + (if KindOf(Last(h).result) == kind then 1 else 0)
  }

  function SinceAnswer(h: History): History { h[LastAnswer(h) + 1..] }

  predicate Known(h: History) { LastAnswer(h) >= 0 }

  function Misses(h: History): nat { Count(SinceAnswer(h), Miss) }

  predicate Clashed(h: History) { Count(SinceAnswer(h), Clash) > 0 }

  // The latest observation that was not a bus failure was a collision.
  predicate EndsInClash(h: History) {
    h != [] && (KindOf(Last(h).result).Clash? || (KindOf(Last(h).result).BusDown? && EndsInClash(AllBut(h))))
  }

  function FirstAnswer(h: History): int {
    if h == [] then -1
    else if FirstAnswer(AllBut(h)) >= 0 then FirstAnswer(AllBut(h))
    else if KindOf(Last(h).result).Answer? then |h| - 1
    else -1
  }

  lemma {:induction false} SinceAnswerStep(h: History)
    requires h != []
    ensures KindOf(Last(h).result).Answer? ==> SinceAnswer(h) == []
    ensures !KindOf(Last(h).result).Answer? ==> SinceAnswer(h) == SinceAnswer(AllBut(h)) + [Last(h)]
    ensures !KindOf(Last(h).result).Answer? ==> forall kind ::
      Count(SinceAnswer(h), kind)
      == Count(SinceAnswer(AllBut(h)), kind) + (if KindOf(Last(h).result) == kind then 1 else 0)
  {
    hide Count;
    if !KindOf(Last(h).result).Answer? {
      var before := SinceAnswer(AllBut(h));
      SuffixGrows(h, LastAnswer(h) + 1);
      forall kind
        ensures Count(before + [Last(h)], kind)
          == Count(before, kind) + (if KindOf(Last(h).result) == kind then 1 else 0)
      {
        CountGrows(before, Last(h), kind);
      }
    }
  }

  lemma {:induction false} SuffixGrows(h: History, from: nat)
    requires from < |h|
    ensures h[from..] == AllBut(h)[from..] + [Last(h)]
  {}

  lemma {:induction false} CountGrows(h: History, o: Observation, kind: Kind)
    ensures Count(h + [o], kind) == Count(h, kind) + (if KindOf(o.result) == kind then 1 else 0)
  {
    hide KindOf;
    assert AllBut(h + [o]) == h && Last(h + [o]) == o;
  }

  lemma {:induction false} EndsInClashClashed(h: History)
    requires EndsInClash(h)
    ensures Clashed(h)
    decreases |h|
  {
    SinceAnswerStep(h);
    if KindOf(Last(h).result).BusDown? { EndsInClashClashed(AllBut(h)); }
  }

  lemma {:induction false} FirstAnswerKnown(h: History)
    ensures FirstAnswer(h) >= 0 <==> Known(h)
    ensures FirstAnswer(h) < |h|
  {
    if h != [] { FirstAnswerKnown(AllBut(h)); }
  }

  // What matters about a history.
  datatype Summary = Summary(
    known: bool, misses: nat, clashed: bool, endsInClash: bool, firstSeenMs: nat, lastSeenMs: nat)
  {
    function Lifecycle(): Lifecycle {
      if misses >= 3 then (if endsInClash then DuplicateAddress else Missing)
      else if clashed then DuplicateAddress
      else Present
    }
  }

  function Summarise(h: History): Summary {
    FirstAnswerKnown(h);
    Summary(Known(h), Misses(h), Clashed(h), EndsInClash(h),
            if Known(h) then h[FirstAnswer(h)].nowMs else 0,
            if Known(h) then h[LastAnswer(h)].nowMs else 0)
  }

  function SummaryStep(s: Summary, kind: Kind, nowMs: nat): Summary {
    match kind
    case Answer => Summary(true, 0, false, false, if s.known then s.firstSeenMs else nowMs, nowMs)
    case Clash => s.(clashed := true, endsInClash := true)
    case BusDown => s
    case Miss => s.(misses := s.misses + 1, endsInClash := false)
  }

  lemma {:induction false} AnswersStep(h: History)
    requires h != []
    ensures var before, kind := AllBut(h), KindOf(Last(h).result);
      && LastAnswer(h) == (if kind.Answer? then |h| - 1 else LastAnswer(before))
      && FirstAnswer(h) == (if FirstAnswer(before) < 0 && kind.Answer? then |h| - 1 else FirstAnswer(before))
  {
    hide KindOf;
  }

  lemma {:induction false} CountsStep(h: History)
    requires h != []
    ensures var before, kind := AllBut(h), KindOf(Last(h).result);
      && Misses(h) == (if kind.Answer? then 0 else Misses(before) + (if kind.Miss? then 1 else 0))
      && Clashed(h) == (!kind.Answer? && (Clashed(before) || kind.Clash?))
      && EndsInClash(h) == (kind.Clash? || (kind.BusDown? && EndsInClash(before)))
  {
    SinceAnswerStep(h);
    hide KindOf;
    hide SinceAnswer;
    assert Count([], Miss) == Count([], Clash) == 0;
  }

  lemma {:induction false} SeenStep(h: History)
    requires h != []
    ensures var was, grown, kind := Summarise(AllBut(h)), Summarise(h), KindOf(Last(h).result);
      && grown.known == (kind.Answer? || was.known)
      && grown.firstSeenMs == (if kind.Answer? && !was.known then Last(h).nowMs else was.firstSeenMs)
      && grown.lastSeenMs == (if kind.Answer? then Last(h).nowMs else was.lastSeenMs)
  {
    AnswersStep(h);
    FirstAnswerKnown(h);
    FirstAnswerKnown(AllBut(h));
    var answered := KindOf(Last(h).result).Answer?;
    hide KindAt;
    hide KindOf;
    hide Misses;
    hide Clashed;
    hide EndsInClash;
    hide LastAnswer;
    hide FirstAnswer;
    if answered {
    } else {
      assert LastAnswer(h) == LastAnswer(AllBut(h));
    }
  }

  lemma {:induction false} SummaryGrows(h: History)
    requires h != []
    ensures Summarise(h) == SummaryStep(Summarise(AllBut(h)), KindOf(Last(h).result), Last(h).nowMs)
  {
    hide KindOf;
    hide LastAnswer;
    hide FirstAnswer;
    hide SinceAnswer;
    hide Count;
    SeenStep(h);
    CountsStep(h);
  }

  // The whole slot is a function of the summary.
  ghost predicate SlotTells(address: ShortAddress, s: Summary, slot: Slot) {
    && slot.duplicateReported == s.clashed
    && slot.record.Some? == s.known
    && (s.known ==>
          var record := slot.record.value;
          && record.address == address
          && record.missedPresenceChecks == (if s.misses < 3 then s.misses else 3)
          && record.present == (s.misses < 3)
          && record.lifecycle == s.Lifecycle()
          && record.firstSeenUptimeMs == s.firstSeenMs
          && record.lastSeenUptimeMs == s.lastSeenMs)
  }

  lemma {:induction false} StepTells(address: ShortAddress, s: Summary, slot: Slot, result: QueryResult, nowMs: nat)
    requires SlotTells(address, s, slot) && (s.endsInClash ==> s.clashed)
    ensures SlotTells(address, SummaryStep(s, KindOf(result), nowMs), ScanStep(slot, address, result, nowMs).0)
  {}

  // Exactly when each change is reported, in terms of the history before.
  ghost predicate ChangeTells(s: Summary, kind: Kind, change: Option<ChangeType>) {
    && (change == Some(Discovered) <==> kind.Answer? && !s.known)
    && (change == Some(Recovered) <==> kind.Answer? && s.known && s.misses >= 3 && !s.endsInClash)
    && (change == Some(DuplicateSuspected) <==> kind.Clash? && !s.clashed)
    && (change == Some(WentMissing) <==>
          kind.Miss? && s.known && (s.misses == 2 || (s.misses >= 3 && s.endsInClash)))
  }

  lemma {:induction false} StepReports(address: ShortAddress, s: Summary, slot: Slot, result: QueryResult, nowMs: nat)
    requires SlotTells(address, s, slot)
    ensures ChangeTells(s, KindOf(result), ScanStep(slot, address, result, nowMs).1)
  {}

  // The main result on presence: after any history the record, its miss counter, its
  // lifecycle, its times and the duplicate latch are what the history says.
  lemma {:induction false} RecordFromHistory(address: ShortAddress, h: History)
    ensures SlotTells(address, Summarise(h), After(address, h))
  {
    if h != [] {
      RecordFromHistory(address, AllBut(h));
      SummaryGrows(h);
      if EndsInClash(AllBut(h)) { EndsInClashClashed(AllBut(h)); }
      StepTells(address, Summarise(AllBut(h)), After(address, AllBut(h)), Last(h).result, Last(h).nowMs);
      hide ScanStep;
      hide SummaryStep;
      hide SlotTells;
      hide KindOf;
      hide Summarise;
    }
  }

  lemma {:induction false} ChangeIff(address: ShortAddress, h: History)
    requires h != []
    ensures ChangeTells(Summarise(AllBut(h)), KindOf(Last(h).result), Reported(address, h))
  {
    RecordFromHistory(address, AllBut(h));
    StepReports(address, Summarise(AllBut(h)), After(address, AllBut(h)), Last(h).result, Last(h).nowMs);
  }

  // ------------------------------------------------------------- reports over whole runs

  function Reports(address: ShortAddress, h: History): seq<ChangeType> {
    if h == [] then []
    else
      var change := Reported(address, h);
      Reports(address, AllBut(h)) + (if change.Some? then [change.value] else [])
  }

  // The change reported by the i-th observation.
  function ReportedAt(address: ShortAddress, h: History, i: nat): Option<ChangeType>
    requires i < |h|
  {
    Reported(address, h[..i + 1])
  }

  function Times(change: ChangeType, reports: seq<ChangeType>): nat {
    if reports == [] then 0
    else Times(change, reports[..|reports| - 1]) + (if reports[|reports| - 1] == change then 1 else 0)
  }

  // A device is discovered once, by its first answer, and never again.
  lemma {:induction false} DiscoveredOnce(address: ShortAddress, h: History)
    ensures Times(Discovered, Reports(address, h)) == if Known(h) then 1 else 0
  {
    if h != [] {
      DiscoveredOnce(address, AllBut(h));
      ChangeIff(address, h);
      AnswersStep(h);
      var before, change := Reports(address, AllBut(h)), Reported(address, h);
      if change.Some? {
        assert (before + [change.value])[..|before|] == before;
      } else {
        assert before + [] == before;
      }
    }
  }

  lemma {:induction false} ClashStays(h: History, i: nat)
    requires i < |h| && KindAt(h, i).Clash?
    requires forall k :: i < k < |h| ==> !KindAt(h, k).Answer?
    ensures Clashed(h)
    decreases |h|
  {
    CountsStep(h);
    if i < |h| - 1 {
      assert forall k :: 0 <= k < |h| - 1 ==> KindAt(AllBut(h), k) == KindAt(h, k);
      ClashStays(AllBut(h), i);
    }
  }

  // Between two duplicate-address reports for one address there is a valid answer.
  lemma {:induction false} DuplicatesSeparated(address: ShortAddress, h: History, i: nat, j: nat)
    requires i < j < |h|
    requires ReportedAt(address, h, i) == Some(DuplicateSuspected)
    requires ReportedAt(address, h, j) == Some(DuplicateSuspected)
    ensures exists k :: i < k < j && KindAt(h, k).Answer?
  {
    hide Reported;
    hide KindOf;
    hide Clashed;
    ReportedClash(address, h, i);
    ReportedClash(address, h, j);
    if forall k :: i < k < j ==> !KindAt(h, k).Answer? {
      assert forall k :: 0 <= k < j ==> KindAt(h[..j], k) == KindAt(h, k);
      ClashStays(h[..j], i);
    }
  }

  lemma {:induction false} ReportedClash(address: ShortAddress, h: History, i: nat)
    requires i < |h| && ReportedAt(address, h, i) == Some(DuplicateSuspected)
    ensures KindAt(h, i).Clash? && !Clashed(h[..i])
  {
    hide ScanStep;
    hide After;
    hide KindOf;
    hide LastAnswer;
    hide Count;
    hide EndsInClash;
    hide Misses;
    hide Clashed;
    var upTo := h[..i + 1];
    assert AllBut(upTo) == h[..i] && Last(upTo) == h[i];
    ChangeIff(address, upTo);
  }

  // ---- bus failures

  function WithoutBusFailures(h: History): History {
    if h == [] then []
    else WithoutBusFailures(AllBut(h)) + (if KindOf(Last(h).result).BusDown? then [] else [Last(h)])
  }

  // Deleting every bus-failure result changes neither the final state nor the reports.
  lemma {:induction false} BusFailuresInvisible(address: ShortAddress, h: History)
    ensures After(address, WithoutBusFailures(h)) == After(address, h)
    ensures Reports(address, WithoutBusFailures(h)) == Reports(address, h)
  {
    if h != [] {
      BusFailuresInvisible(address, AllBut(h));
      var rest := WithoutBusFailures(AllBut(h));
      if !KindOf(Last(h).result).BusDown? {
        assert AllBut(rest + [Last(h)]) == rest;
        hide ScanStep;
      } else {
        assert rest == WithoutBusFailures(h);
      }
    }
  }

  // ---- missing and recovered

  // The Missing and Recovered reports alone, Missing as true.
  function Flaps(address: ShortAddress, h: History): seq<bool> {
    if h == [] then []
    else
      var change := Reported(address, h);
      Flaps(address, AllBut(h))
      + (if change == Some(WentMissing) then [true] else if change == Some(Recovered) then [false] else [])
  }

  ghost predicate Alternates(flaps: seq<bool>) {
    forall i :: 0 <= i < |flaps| ==> flaps[i] == (i % 2 == 0)
  }

  predicate IsMissing(slot: Slot) { slot.record.Some? && slot.record.value.lifecycle.Missing? }

  // The i-th observation is a collision on a device that is recorded as missing.
  predicate ClashOnMissing(address: ShortAddress, h: History, i: nat)
    requires i < |h|
  {
    KindAt(h, i).Clash? && IsMissing(After(address, h[..i]))
  }

  ghost predicate NoClashOnMissing(address: ShortAddress, h: History) {
    forall i :: 0 <= i < |h| ==> !ClashOnMissing(address, h, i)
  }

  // The last Missing or Recovered report agrees with the record.
  predicate InStep(address: ShortAddress, h: History) {
    var flaps := Flaps(address, h);
    IsMissing(After(address, h)) == (flaps != [] && flaps[|flaps| - 1])
  }

  lemma {:induction false} PrefixAt(address: ShortAddress, h: History)
    requires h != []
    ensures forall i :: 0 <= i < |h| - 1 ==> ClashOnMissing(address, AllBut(h), i) == ClashOnMissing(address, h, i)
    ensures ClashOnMissing(address, h, |h| - 1)
      == (KindOf(Last(h).result).Clash? && IsMissing(After(address, AllBut(h))))
  {
    hide After;
    forall i | 0 <= i < |h| - 1
      ensures ClashOnMissing(address, AllBut(h), i) == ClashOnMissing(address, h, i)
    {
      assert AllBut(h)[..i] == h[..i];
    }
  }

  lemma {:induction false} StepFlaps(address: ShortAddress, h: History)
    requires h != []
    ensures var change, before, kind := Reported(address, h), After(address, AllBut(h)), KindOf(Last(h).result);
      && (change == Some(Recovered) ==> IsMissing(before) && !IsMissing(After(address, h)))
      && (change == Some(WentMissing) ==> !IsMissing(before) && IsMissing(After(address, h)))
      && (kind.Clash? ==> !IsMissing(After(address, h)) && change != Some(WentMissing) && change != Some(Recovered))
      && (change != Some(Recovered) && change != Some(WentMissing) && !kind.Clash? ==>
            IsMissing(After(address, h)) == IsMissing(before))
  {}

  lemma {:induction false} NotMissingYet(address: ShortAddress)
    ensures !IsMissing(After(address, []))
  {}

  lemma {:induction false} WithoutClashInStep(address: ShortAddress, h: History)
    requires NoClashOnMissing(address, h)
    ensures InStep(address, h) && Alternates(Flaps(address, h))
  {
    hide After;
    hide Reported;
    hide KindOf;
    if h == [] {
      NotMissingYet(address);
    } else {
      NoClashStep(address, h);
      WithoutClashInStep(address, AllBut(h));
      StepFlaps(address, h);
      hide ClashOnMissing;
    }
  }

  // On runs without collisions Missing and Recovered strictly alternate, Missing
  // first. More: the reports track the record at every moment exactly when no
  // collision ever arrives while the device is recorded as missing.
  lemma {:induction false} InStepIff(address: ShortAddress, h: History)
    ensures (forall n :: 0 <= n <= |h| ==> InStep(address, h[..n])) <==> NoClashOnMissing(address, h)
  {
    if NoClashOnMissing(address, h) {
      forall n | 0 <= n <= |h| ensures InStep(address, h[..n]) {
        assert forall i :: 0 <= i < n ==> h[..n][..i] == h[..i];
        assert NoClashOnMissing(address, h[..n]) by {
          forall i | 0 <= i < n ensures !ClashOnMissing(address, h[..n], i) {
            assert !ClashOnMissing(address, h, i);
          }
        }
        WithoutClashInStep(address, h[..n]);
      }
    } else {
      var i :| 0 <= i < |h| && ClashOnMissing(address, h, i);
      var later := h[..i + 1];
      assert AllBut(later) == h[..i];
      StepFlaps(address, later);
      assert !(InStep(address, h[..i]) && InStep(address, later));
    }
  }

  // What the results alone say: the device has been given up, or a miss would give it up.
  predicate GoneQuiet(h: History) { Known(h) && Misses(h) >= 3 && !EndsInClash(h) }

  predicate MissingDue(h: History) { Known(h) && (Misses(h) == 2 || (Misses(h) >= 3 && EndsInClash(h))) }

  lemma {:induction false} GoneQuietIsMissing(address: ShortAddress, h: History)
    ensures GoneQuiet(h) <==> IsMissing(After(address, h))
  {
    RecordFromHistory(address, h);
    hide After;
    hide Known;
    hide Misses;
    hide EndsInClash;
    hide Clashed;
    hide LastAnswer;
    hide FirstAnswer;
  }

  lemma {:induction false} MissingDueIsReported(address: ShortAddress, h: History)
    requires h != []
    ensures Reported(address, h) == Some(WentMissing) <==> KindOf(Last(h).result).Miss? && MissingDue(AllBut(h))
  {
    ChangeIff(address, h);
    hide Reported;
    hide KindOf;
    hide Known;
    hide Misses;
    hide EndsInClash;
    hide Clashed;
    hide LastAnswer;
    hide FirstAnswer;
  }

  // A collision hits a device that has gone quiet, and later a miss gives it up.
  ghost predicate GivenUpAfterClash(h: History, i: nat, j: nat)
    requires i < j < |h|
  {
    KindAt(h, i).Clash? && GoneQuiet(h[..i]) && KindAt(h, j).Miss? && MissingDue(h[..j])
  }

  ghost predicate GivenUpTwice(h: History) {
    exists i, j :: 0 <= i < j < |h| && GivenUpAfterClash(h, i, j)
  }

  lemma {:induction false} GivenUpPrefix(h: History, i: nat, j: nat)
    requires i < j < |h| - 1
    ensures GivenUpAfterClash(AllBut(h), i, j) == GivenUpAfterClash(h, i, j)
  {
    hide GoneQuiet;
    hide MissingDue;
    hide KindOf;
    assert AllBut(h)[..i] == h[..i] && AllBut(h)[..j] == h[..j];
  }

  lemma {:induction false} ClashIsOnMissing(address: ShortAddress, h: History, i: nat)
    requires i < |h|
    ensures ClashOnMissing(address, h, i) <==> KindAt(h, i).Clash? && GoneQuiet(h[..i])
  {
    GoneQuietIsMissing(address, h[..i]);
    hide GoneQuiet;
    hide IsMissing;
    hide KindAt;
  }

  lemma {:induction false} GivenUpLast(address: ShortAddress, h: History, last: nat)
    requires last + 1 == |h|
    ensures (exists i :: 0 <= i < last && GivenUpAfterClash(h, i, last))
      <==> Reported(address, h) == Some(WentMissing) && !NoClashOnMissing(address, AllBut(h))
  {
    MissingDueIsReported(address, h);
    forall i | 0 <= i < last
      ensures ClashOnMissing(address, AllBut(h), i) <==> KindAt(h, i).Clash? && GoneQuiet(h[..i])
    {
      assert AllBut(h)[..i] == h[..i];
      ClashIsOnMissing(address, AllBut(h), i);
    }
    hide GoneQuiet;
    hide MissingDue;
    hide Reported;
    hide ClashOnMissing;
    hide KindOf;
    if Reported(address, h) == Some(WentMissing) && !NoClashOnMissing(address, AllBut(h)) {
      var i :| 0 <= i < last && ClashOnMissing(address, AllBut(h), i);
      assert GivenUpAfterClash(h, i, last);
    }
  }

  lemma {:induction false} GivenUpTwiceStep(address: ShortAddress, h: History)
    requires h != []
    ensures GivenUpTwice(h) <==>
      GivenUpTwice(AllBut(h)) || (Reported(address, h) == Some(WentMissing) && !NoClashOnMissing(address, AllBut(h)))
  {
    GivenUpLast(address, h, |h| - 1);
    hide Reported;
    hide NoClashOnMissing;
    forall i, j | 0 <= i < j < |h| - 1 ensures GivenUpAfterClash(AllBut(h), i, j) == GivenUpAfterClash(h, i, j) {
      GivenUpPrefix(h, i, j);
    }
    hide GivenUpAfterClash;
    if GivenUpTwice(AllBut(h)) {
      var i, j :| 0 <= i < j < |h| - 1 && GivenUpAfterClash(AllBut(h), i, j);
      assert GivenUpAfterClash(h, i, j);
    }
  }

  lemma {:induction false} NoClashStep(address: ShortAddress, h: History)
    requires h != []
    ensures NoClashOnMissing(address, h) <==>
      NoClashOnMissing(address, AllBut(h)) && !(KindOf(Last(h).result).Clash? && IsMissing(After(address, AllBut(h))))
  {
    PrefixAt(address, h);
    hide After;
    hide ClashOnMissing;
    if NoClashOnMissing(address, h) {
      assert !ClashOnMissing(address, h, |h| - 1);
      forall i | 0 <= i < |h| - 1 ensures !ClashOnMissing(address, AllBut(h), i) {
        assert !ClashOnMissing(address, h, i);
      }
    }
  }

  // How the sequence of reports looks once a collision has hit the missing device.
  ghost predicate FlapsTell(flaps: seq<bool>, twice: bool, missing: bool) {
    if twice then !Alternates(flaps)
    else Alternates(flaps) && flaps != [] && flaps[|flaps| - 1] && !missing
  }

  lemma {:induction false} FlapsTellGrows(
      flaps: seq<bool>, twice: bool, missing: bool, change: Option<ChangeType>, missing': bool)
    requires FlapsTell(flaps, twice, missing)
    requires change == Some(Recovered) ==> missing
    requires change != Some(WentMissing) && change != Some(Recovered) && missing' ==> missing
    ensures var added :=
        if change == Some(WentMissing) then [true] else if change == Some(Recovered) then [false] else [];
      FlapsTell(flaps + added, twice || change == Some(WentMissing), missing')
  {
    var added := if change == Some(WentMissing) then [true] else if change == Some(Recovered) then [false] else [];
    if twice {
      var i :| 0 <= i < |flaps| && flaps[i] != (i % 2 == 0);
      assert (flaps + added)[i] == flaps[i];
    } else if change == Some(WentMissing) {
      assert (flaps + added)[|flaps| - 1] && (flaps + added)[|flaps|];
    } else {
      assert flaps + added == flaps;
    }
  }

  lemma {:induction false} FlapsAfterClash(address: ShortAddress, h: History)
    requires !NoClashOnMissing(address, h)
    ensures FlapsTell(Flaps(address, h), GivenUpTwice(h), IsMissing(After(address, h)))
  {
    hide KindOf;
    hide After;
    hide IsMissing;
    hide Alternates;
    hide Reported;
    hide GivenUpTwice;
    hide ClashOnMissing;
    var before := AllBut(h);
    NoClashStep(address, h);
    StepFlaps(address, h);
    GivenUpTwiceStep(address, h);
    if NoClashOnMissing(address, before) {
      WithoutClashInStep(address, before);
      NeverGivenUpTwice(address, before);
      Unit(Flaps(address, before));
    } else {
      FlapsAfterClash(address, before);
      FlapsTellGrows(Flaps(address, before), GivenUpTwice(before), IsMissing(After(address, before)),
                     Reported(address, h), IsMissing(After(address, h)));
    }
  }

  lemma {:induction false} NeverGivenUpTwice(address: ShortAddress, h: History)
    requires NoClashOnMissing(address, h)
    ensures !GivenUpTwice(h)
  {
    hide Reported;
    hide KindOf;
    hide After;
    if h != [] {
      NoClashStep(address, h);
      GivenUpTwiceStep(address, h);
      NeverGivenUpTwice(address, AllBut(h));
      hide GivenUpTwice;
      hide ClashOnMissing;
    }
  }

  // Exactly when Missing and Recovered strictly alternate, in terms of the results alone.
  lemma {:induction false} AlternatesIff(address: ShortAddress, h: History)
    ensures Alternates(Flaps(address, h)) <==> !GivenUpTwice(h)
  {
    if NoClashOnMissing(address, h) {
      WithoutClashInStep(address, h);
      NeverGivenUpTwice(address, h);
    } else {
      FlapsAfterClash(address, h);
    }
  }

  // In particular on every run without collisions.
  lemma {:induction false} CollisionFreeAlternates(address: ShortAddress, h: History)
    requires forall i :: 0 <= i < |h| ==> !KindAt(h, i).Clash?
    ensures Alternates(Flaps(address, h))
  {
    assert NoClashOnMissing(address, h);
    WithoutClashInStep(address, h);
  }

  // And not on every run: a device that goes missing, collides and stays silent is
  // reported missing twice.
  lemma {:induction false} AlternationFails(
      address: ShortAddress, answer: QueryResult, silence: QueryResult, clash: QueryResult)
    requires KindOf(answer).Answer? && KindOf(silence).Miss? && KindOf(clash).Clash?
    ensures var o := (result: QueryResult) => Observation(result, 0);
      Flaps(address, [o(answer), o(silence), o(silence), o(silence), o(clash), o(silence)]) == [true, true]
  {
    var o := (result: QueryResult) => Observation(result, 0);
    var h1: History := [o(answer)];
    var h2, h3 := h1 + [o(silence)], h1 + [o(silence)] + [o(silence)];
    var h4 := h3 + [o(silence)];
    var h5 := h4 + [o(clash)];
    var h6 := h5 + [o(silence)];
    assert AllBut(h1) == [] && AllBut(h2) == h1 && AllBut(h3) == h2;
    assert AllBut(h4) == h3 && AllBut(h5) == h4 && AllBut(h6) == h5;
    assert Flaps(address, h1) == [] && After(address, h1).record.value.missedPresenceChecks == 0;
    assert Flaps(address, h2) == [] && After(address, h2).record.value.missedPresenceChecks == 1;
    assert Flaps(address, h3) == [] && After(address, h3).record.value.missedPresenceChecks == 2;
    assert Flaps(address, h4) == [true] && After(address, h4).record.value.missedPresenceChecks == 3;
    assert Flaps(address, h5) == [true] && After(address, h5).record.value.missedPresenceChecks == 3;
    assert h6 == [o(answer), o(silence), o(silence), o(silence), o(clash), o(silence)];
  }
}
