/**
 The bounded event history: a ring of 128 records, each stored with the check word
 of its bytes. Appending keeps the newest 128 in order; recovery returns, in order,
 exactly the records that were not damaged.
 */
module EventHistory {
  import opened Sequences
  import opened Crc16
  import opened CrcNumeric
  import opened CrcDetection

  const CAPACITY := 128

  // A stored event is the byte image the check word covers, and that check word.
  datatype StoredEvent = StoredEvent(bytes: seq<Byte>, crc: Word)

  const BLANK := StoredEvent([], 0)

  predicate Intact(event: StoredEvent) { event.crc == Checksum(event.bytes) }

  function Stamped(event: StoredEvent): StoredEvent { event.(crc := Checksum(event.bytes)) }

  function Newest(events: seq<StoredEvent>): (kept: seq<StoredEvent>)
    ensures |kept| <= CAPACITY
  {
    if |events| <= CAPACITY then events else events[|events| - CAPACITY..]
  }

  function IntactOnly(events: seq<StoredEvent>): (kept: seq<StoredEvent>)
    ensures |kept| <= |events|
  {
    if events == [] then []
    else (if Intact(events[0]) then [events[0]] else []) + IntactOnly(events[1..])
  }

  lemma {:induction false} IntactOnlyFirst(before: seq<StoredEvent>, events: seq<StoredEvent>)
    requires events != []
    ensures before + IntactOnly(events)
      == (if Intact(events[0]) then before + [events[0]] else before) + IntactOnly(events[1..])
  {
    hide Intact;
    var rest := IntactOnly(events[1..]);
    if Intact(events[0]) {
      Associative(before, [events[0]], rest);
    } else {
      Unit(rest);
    }
  }

  // What appending does, in its own words: the event comes last with its own bytes and
  // their check word, and of 128 earlier ones the oldest goes.
  ghost predicate Appended(before: seq<StoredEvent>, event: StoredEvent, after: seq<StoredEvent>) {
    var last, dropped := |after| - 1, if |before| < 128 then 0 else 1;
    && |after| == |before| + 1 - dropped
    && after[last].bytes == event.bytes && after[last].crc == CrcNumber(0xFFFF, event.bytes)
    && after[..last] == before[dropped..]
  }

  lemma {:induction false} IsAppended(before: seq<StoredEvent>, event: StoredEvent, after: seq<StoredEvent>)
    requires |before| <= CAPACITY
    requires var dropped := if |before| < CAPACITY then 0 else 1;
      && |after| == |before| + 1 - dropped
      && (forall i :: 0 <= i < |after| - 1 ==> after[i] == before[i + dropped])
      && after[|after| - 1] == Stamped(event)
    ensures after == Newest(before + [Stamped(event)])
    ensures Appended(before, event, after)
  {
    ChecksumIsNumber(event.bytes);
    hide Checksum;
    hide CrcNumber;
  }

  // The slot of the i-th oldest record.
  function Slot(head: nat, i: nat): (slot: nat)
    ensures slot < CAPACITY
  {
    (head + i) % CAPACITY
  }

  // Advancing the head renumbers the slots, and slots within one turn differ.
  lemma {:induction false} SlotFacts(head: nat, i: nat, j: nat)
    requires head < CAPACITY
    ensures Slot(Slot(head, 1), i) == Slot(head, i + 1)
    ensures i < j < i + CAPACITY ==> Slot(head, i) != Slot(head, j)
  {
    NextSlot(head, i);
    if i < j < i + CAPACITY { SlotsApart(head + i, j - i); }
  }

  lemma {:induction false} NextSlot(head: nat, i: nat)
    requires head < CAPACITY
    ensures Slot(Slot(head, 1), i) == Slot(head, i + 1)
  {
    if head + 1 == CAPACITY { assert head + (i + 1) == i + CAPACITY; }
  }

  lemma {:induction false} SlotsApart(at: nat, distance: nat)
    requires 0 < distance < CAPACITY
    ensures at % CAPACITY != (at + distance) % CAPACITY
  {}

  class EventHistory {
    const records: array<StoredEvent>
    var head: nat
    var size: nat

    ghost predicate Valid()
      reads this
    {
      records.Length == CAPACITY && head < CAPACITY && size <= CAPACITY
    }

    // Oldest first.
    ghost function Contents(): (events: seq<StoredEvent>)
      requires Valid()
      reads this, records
      ensures |events| == size
    {
      seq(size, i requires 0 <= i < size && Valid() reads this, records => records[Slot(head, i)])
    }

    constructor ()
      ensures Valid() && fresh(records) && Contents() == []
    {
      records := new StoredEvent[CAPACITY](i => BLANK);
      head, size := 0, 0;
    }

    method Append(event: StoredEvent) returns (ok: bool)
      requires Valid()
      modifies this, records
      ensures Valid() && ok
      ensures Contents() == Newest(old(Contents()) + [Stamped(event)])
      ensures Appended(old(Contents()), event, Contents())
    {
      hide Newest;
      hide Appended;
      hide Checksum;
      hide Slot;
      ghost var before, oldest, count := Contents(), head, size;
      var checksum := ComputeChecksum(event.bytes);
      var index := Slot(head, size);
      records[index] := event.(crc := checksum);
      if size < CAPACITY {
        size := size + 1;
      } else {
        head := Slot(head, 1);
      }
      ghost var dropped := if count < CAPACITY then 0 else 1;
      SlotFacts(oldest, size - 1, count);
      forall i | 0 <= i < size - 1 ensures Contents()[i] == before[i + dropped] {
        SlotFacts(oldest, i, count);
        SlotFacts(oldest, i + dropped, count);
      }
      IsAppended(before, event, Contents());
      ok := true;
    }

    method CorruptNewest()
      requires Valid()
      modifies records
      ensures Valid()
      ensures size == 0 ==> Contents() == old(Contents())
      ensures size > 0 ==>
        && Contents() == old(Contents())[..size - 1] + [Inverted(old(Contents())[size - 1])]
        && Contents()[size - 1].crc + old(Contents())[size - 1].crc == 0xFFFF
    {
      hide Slot;
      if size == 0 { return; }
      var index := Slot(head, size - 1);
      ghost var before := Contents();
      records[index] := Inverted(records[index]);
      forall i | 0 <= i < size - 1 ensures Contents()[i] == before[i] {
        SlotFacts(head, i, size - 1);
      }
    }

    method Recover() returns (recovered: seq<StoredEvent>)
      requires Valid()
      ensures recovered == IntactOnly(Contents())
    {
      hide Checksum;
      hide Slot;
      recovered := [];
      ghost var contents := Contents();
      for i := 0 to size
        invariant recovered + IntactOnly(contents[i..]) == IntactOnly(contents)
      {
        var event := records[Slot(head, i)];
        IntactOnlyFirst(recovered, contents[i..]);
        assert contents[i] == event && contents[i..][1..] == contents[i + 1..];
        var checksum := ComputeChecksum(event.bytes);
        if event.crc == checksum { recovered := recovered + [event]; }
      }
    }
  }

  // Inverting all 16 bits of a check word.
  function Inverted(event: StoredEvent): (inverted: StoredEvent)
    ensures inverted.bytes == event.bytes && inverted.crc != event.crc
  {
    event.(crc := 0xFFFF - event.crc)
  }

  // ------------------------------------------------------------- appending and recovering

  lemma {:induction false} IntactOnlyAll(events: seq<StoredEvent>)
    requires forall i :: 0 <= i < |events| ==> Intact(events[i])
    ensures IntactOnly(events) == events
  {
    hide Intact;
    if events != [] {
      assert forall i :: 0 <= i < |events| - 1 ==> events[1..][i] == events[i + 1];
      IntactOnlyAll(events[1..]);
    }
  }

  function StampedAll(events: seq<StoredEvent>): (stamped: seq<StoredEvent>)
    ensures |stamped| == |events|
    ensures forall i :: 0 <= i < |events| ==> stamped[i] == Stamped(events[i])
  {
    seq(|events|, i requires 0 <= i < |events| => Stamped(events[i]))
  }

  // The ring after any number of appends to an empty history.
  function AfterAppends(events: seq<StoredEvent>): seq<StoredEvent> {
    if events == [] then []
    else
      var last := |events| - 1;
      Newest(AfterAppends(events[..last]) + [Stamped(events[last])])
  }

  lemma {:induction false} NewestTwice(events: seq<StoredEvent>, event: StoredEvent)
    ensures Newest(Newest(events) + [event]) == Newest(events + [event])
  {}

  lemma {:induction false} AppendsKeepNewest(events: seq<StoredEvent>)
    ensures AfterAppends(events) == Newest(StampedAll(events))
  {
    hide Stamped;
    if events != [] {
      var last := |events| - 1;
      AppendsKeepNewest(events[..last]);
      assert StampedAll(events) == StampedAll(events[..last]) + [Stamped(events[last])];
      NewestTwice(StampedAll(events[..last]), Stamped(events[last]));
    }
  }

  // Recovery of an undamaged history returns all of it.
  lemma {:induction false} AppendsRecovered(events: seq<StoredEvent>)
    ensures forall i :: 0 <= i < |AfterAppends(events)| ==> Intact(AfterAppends(events)[i])
    ensures IntactOnly(AfterAppends(events)) == Newest(StampedAll(events))
  {
    hide Checksum;
    AppendsKeepNewest(events);
    IntactOnlyAll(Newest(StampedAll(events)));
  }

  // In other words, recovery returns what was appended: the newest 128, in order, each
  // with its own bytes and the check word of these.
  lemma {:induction false} RecoveredAsAppended(events: seq<StoredEvent>)
    ensures var recovered, n := IntactOnly(AfterAppends(events)), |events|;
      var kept := if n < 128 then n else 128;
      && |recovered| == kept
      && forall i :: 0 <= i < kept ==>
        && recovered[i].bytes == events[n - kept + i].bytes
        && recovered[i].crc == CrcNumber(0xFFFF, events[n - kept + i].bytes)
  {
    AppendsRecovered(events);
    hide Checksum;
    hide IntactOnly;
    hide AfterAppends;
    forall i | 0 <= i < |events| ensures StampedAll(events)[i].crc == CrcNumber(0xFFFF, events[i].bytes) {
      ChecksumIsNumber(events[i].bytes);
    }
  }

  // --------------------------------------------------------------------- damaged records

  // A record in memory: the bytes, then the check word, low byte first.
  function Image(event: StoredEvent): seq<Byte> { event.bytes + WordBytes(event.crc) }

  // Damage to the check word alone, detectable damage to the bytes alone, or detectable
  // damage to the record as a whole, spread over bytes and check word in any way.
  ghost predicate Damaged(event: StoredEvent, found: StoredEvent) {
    || (found.bytes == event.bytes && found.crc != event.crc)
    || (&& found.crc == event.crc && |found.bytes| == |event.bytes| && found.bytes != event.bytes
        && Detectable(Difference(event.bytes, found.bytes)))
    || (&& found != event && |found.bytes| == |event.bytes|
        && Detectable(Difference(Image(event), Image(found))))
  }

  // An intact record is a codeword ...
  lemma {:induction false} IntactIsCodeword(event: StoredEvent)
    requires Intact(event)
    ensures Codeword(Image(event))
  {
    WordBytesBits(Crc(event.bytes));
    CodewordIff(event.bytes, WordBytes(event.crc), Crc(event.bytes));
  }

  lemma {:induction false} ImageInjective(x: StoredEvent, y: StoredEvent)
    requires |x.bytes| == |y.bytes| && Image(x) == Image(y)
    ensures x == y
  {
    TakeApart(x.bytes, WordBytes(x.crc));
    TakeApart(y.bytes, WordBytes(y.crc));
    BytesOfWord(x.crc);
    BytesOfWord(y.crc);
    hide WordBytes;
    hide MakeWord;
  }

  // ... and no two codewords of one length differ detectably.
  lemma {:induction false} DamagedNotIntact(event: StoredEvent, found: StoredEvent)
    requires Intact(event) && Damaged(event, found)
    ensures !Intact(found)
  {
    hide Checksum;
    hide Detectable;
    hide Difference;
    if found.bytes == event.bytes {
    } else if found.crc == event.crc && Detectable(Difference(event.bytes, found.bytes)) {
      ChecksumsDiffer(event.bytes, found.bytes);
    } else if Intact(found) {
      IntactIsCodeword(event);
      IntactIsCodeword(found);
      if Image(event) == Image(found) { ImageInjective(event, found); }
      ChecksumsDiffer(Image(event), Image(found));
    }
  }

  function Undamaged(stored: seq<StoredEvent>, found: seq<StoredEvent>): seq<StoredEvent>
    requires |stored| == |found|
  {
    if stored == [] then []
    else (if stored[0] == found[0] then [stored[0]] else []) + Undamaged(stored[1..], found[1..])
  }

  lemma {:induction false} UndamagedRecovered(stored: seq<StoredEvent>, found: seq<StoredEvent>)
    requires |stored| == |found|
    requires forall i :: 0 <= i < |stored| ==> Intact(stored[i])
    requires forall i :: 0 <= i < |stored| ==> found[i] == stored[i] || Damaged(stored[i], found[i])
    ensures IntactOnly(found) == Undamaged(stored, found)
  {
    hide Intact;
    hide Damaged;
    if stored != [] {
      assert forall i :: 0 <= i < |stored| - 1 ==> stored[1..][i] == stored[i + 1] && found[1..][i] == found[i + 1];
      UndamagedRecovered(stored[1..], found[1..]);
      if found[0] != stored[0] { DamagedNotIntact(stored[0], found[0]); }
    }
  }

  // The main result: append anything, damage any of the kept records, and recovery
  // returns the undamaged ones among the newest 128, still in order.
  lemma {:induction false} RecoverAfterDamage(events: seq<StoredEvent>, found: seq<StoredEvent>)
    requires |found| == |AfterAppends(events)|
    requires forall i :: 0 <= i < |found| ==>
      found[i] == AfterAppends(events)[i] || Damaged(AfterAppends(events)[i], found[i])
    ensures |found| == |Newest(StampedAll(events))|
    ensures IntactOnly(found) == Undamaged(Newest(StampedAll(events)), found)
  {
    hide Checksum;
    AppendsKeepNewest(events);
    AppendsRecovered(events);
    UndamagedRecovered(AfterAppends(events), found);
  }
}
